/** Small shared definitions: the optional value used by the number parser and by the
    receiver's last-scan state, the last element of a sequence, and two facts about
    concatenation as lemmas to call. */
module Util {

  datatype Option<+T> = None | Some(value: T)

  /** The last element of a non-empty sequence. */
  function Last<T>(s: seq<T>): T
    requires s != []
  {
    s[|s| - 1]
  }

  /** The last element of `a + b + c` comes from `c`, or from `b` when `c` is empty. */
  lemma LastOfThree<T>(a: seq<T>, b: seq<T>, c: seq<T>)
    requires b != [] || c != []
    ensures Last(a + b + c) == if c == [] then Last(b) else Last(c)
  {
  }

  lemma AppendAssoc<T>(a: seq<T>, b: seq<T>, c: seq<T>)
    ensures a + (b + c) == (a + b) + c
  {
  }
}
