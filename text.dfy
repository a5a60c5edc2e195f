/** The string operations the telegram decoder relies on, with Python's meaning:
    `str.strip()`, `str.split(" ")` (and its inverse, joining with single spaces),
    `int(token, radix)` restricted to plain digit strings, and the matching formatter. */
module Text {
  import opened Util

  /** The characters Python's `str.isspace` accepts, i.e. those `str.strip()` removes. */
  predicate IsSpace(c: char)
  {
    var n := c as int;
    (9 <= n <= 13) || (28 <= n <= 32) || n == 0x85 || n == 0xA0 || n == 0x1680
    || (0x2000 <= n <= 0x200A) || n == 0x2028 || n == 0x2029 || n == 0x202F
    || n == 0x205F || n == 0x3000
  }

  /** The ASCII white space of `str.isspace`: tab, line feed, vertical tab, form feed,
      carriage return, the four separators 0x1C-0x1F, and space. */
  const AsciiSpace: string := "\t\n\U{0B}\U{0C}\r\U{1C}\U{1D}\U{1E}\U{1F} "

  /** Within ASCII, `IsSpace` holds for exactly those characters; no printable character
      is white space. */
  lemma AsciiSpaces(c: char)
    ensures c as int < 0x80 ==> (IsSpace(c) <==> c in AsciiSpace)
    ensures '!' <= c <= '~' ==> !IsSpace(c)
  {
  }

  /** Drops the leading white space. */
  function TrimStart(s: string): (r: string)
    ensures |r| <= |s| && r == s[|s| - |r|..]
    ensures r == [] || !IsSpace(r[0])
    ensures forall i :: 0 <= i < |s| - |r| ==> IsSpace(s[i])
    decreases |s|
  {
    if s != [] && IsSpace(s[0]) then TrimStart(s[1..]) else s
  }

  /** Drops the trailing white space. */
  function TrimEnd(s: string): (r: string)
    ensures |r| <= |s| && r == s[..|r|]
    ensures r == [] || !IsSpace(r[|r| - 1])
    ensures forall i :: |r| <= i < |s| ==> IsSpace(s[i])
    decreases |s|
  {
    if s != [] && IsSpace(s[|s| - 1]) then TrimEnd(s[..|s| - 1]) else s
  }

  /** Python's `str.strip()` with no argument. */
  function Strip(s: string): (r: string)
    ensures |r| <= |s|
    ensures r == [] || (!IsSpace(r[0]) && !IsSpace(r[|r| - 1]))
    ensures exists i :: StrippedAt(s, r, i)
  {
    TrimBoth(s, TrimStart(s), TrimEnd(TrimStart(s)));
    TrimEnd(TrimStart(s))
  }

  /** The two trims remove a white space prefix and a white space suffix. */
  lemma TrimBoth(s: string, t: string, r: string)
    requires |t| <= |s| && t == s[|s| - |t|..] && forall k :: 0 <= k < |s| - |t| ==> IsSpace(s[k])
    requires |r| <= |t| && r == t[..|r|] && forall k :: |r| <= k < |t| ==> IsSpace(t[k])
    ensures StrippedAt(s, r, |s| - |t|)
  {
    var i := |s| - |t|;
    assert r == s[i..i + |r|];
    forall k | i + |r| <= k < |s|
      ensures IsSpace(s[k])
    {
      assert s[k] == t[k - i];
    }
  }

  /** `r` is `s` with the `i` characters before it and the characters after it removed,
      all of them white space. */
  predicate StrippedAt(s: string, r: string, i: int) {
    0 <= i <= |s| - |r| && r == s[i..i + |r|]
    && (forall k :: 0 <= k < i ==> IsSpace(s[k]))
    && (forall k :: i + |r| <= k < |s| ==> IsSpace(s[k]))
  }

  /** A string that neither starts nor ends with white space is left alone by `Strip`. */
  lemma StripKeeps(s: string)
    requires s == [] || (!IsSpace(s[0]) && !IsSpace(Last(s)))
    ensures Strip(s) == s
  {
  }

  /** Stripping twice is stripping once. */
  lemma StripIdempotent(s: string)
    ensures Strip(Strip(s)) == Strip(s)
  {
    StripKeeps(Strip(s));
  }

  /** Joins tokens with one space between neighbours: the inverse of `Split`. */
  function Join(tokens: seq<string>): string
    requires |tokens| >= 1
  {
    if |tokens| == 1 then tokens[0] else tokens[0] + " " + Join(tokens[1..])
  }

  /** Joined text starts with the first character of the first token. */
  lemma JoinFirst(tokens: seq<string>)
    requires |tokens| >= 1 && tokens[0] != []
    ensures Join(tokens) != [] && Join(tokens)[0] == tokens[0][0]
  {
  }

  /** Joined text ends with the last character of the last token. */
  lemma {:induction false} JoinLast(tokens: seq<string>)
    requires |tokens| >= 1 && Last(tokens) != []
    ensures Join(tokens) != [] && Last(Join(tokens)) == Last(Last(tokens))
    decreases |tokens|
  {
    if |tokens| > 1 {
      JoinLast(tokens[1..]);
    }
  }

  /** Printable ASCII other than the space: the characters a CoLa-A field is made of. */
  predicate Graphic(s: string) {
    forall i :: 0 <= i < |s| ==> '!' <= s[i] <= '~'
  }

  /** Every field is printable. */
  predicate AllGraphic(fields: seq<string>) {
    forall i :: 0 <= i < |fields| ==> Graphic(fields[i])
  }

  lemma AllGraphicAppend(a: seq<string>, b: seq<string>)
    requires AllGraphic(a) && AllGraphic(b)
    ensures AllGraphic(a + b)
  {
    assert forall i :: 0 <= i < |b| ==> (a + b)[|a| + i] == b[i];
  }

  /** A printable field holds no space and neither starts nor ends with white space. */
  lemma GraphicPlain(s: string)
    requires Graphic(s)
    ensures ' ' !in s
    ensures s != [] ==> !IsSpace(s[0]) && !IsSpace(Last(s))
  {
  }

  /** Printable fields joined by spaces give printable ASCII text. */
  lemma {:induction false} JoinPrintable(tokens: seq<string>)
    requires |tokens| >= 1 && AllGraphic(tokens)
    ensures forall i :: 0 <= i < |Join(tokens)| ==> ' ' <= Join(tokens)[i] <= '~'
    decreases |tokens|
  {
    if |tokens| > 1 {
      JoinPrintable(tokens[1..]);
      var head, tail := tokens[0] + " ", Join(tokens[1..]);
      assert Graphic(tokens[0]);
      assert forall i :: 0 <= i < |tail| ==> (head + tail)[|head| + i] == tail[i];
    }
  }

  /** Python's `str.split(" ")`: the pieces between single spaces, so that two
      adjacent spaces, or a space at either end, give an empty token. */
  function Split(s: string): (r: seq<string>)
    ensures |r| >= 1
    ensures forall i :: 0 <= i < |r| ==> ' ' !in r[i]
    ensures Join(r) == s
    decreases |s|
  {
    if s == [] then [""]
    else
      var rest := Split(s[1..]);
      if s[0] == ' ' then [""] + rest
      else
        JoinCons(s[0], rest);
        [[s[0]] + rest[0]] + rest[1..]
  }

  lemma JoinCons(c: char, tokens: seq<string>)
    requires |tokens| >= 1
    ensures Join([[c] + tokens[0]] + tokens[1..]) == [c] + Join(tokens)
  {
    var t := [[c] + tokens[0]] + tokens[1..];
    if |tokens| > 1 {
      assert t[1..] == tokens[1..];
      AppendAssoc([c], tokens[0], " " + Join(tokens[1..]));
      AppendAssoc([c] + tokens[0], " ", Join(tokens[1..]));
      AppendAssoc(tokens[0], " ", Join(tokens[1..]));
    }
  }

  /** Splitting text glued by `Join` gives back the tokens, provided none holds a space. */
  lemma {:induction false} SplitJoin(tokens: seq<string>)
    requires |tokens| >= 1
    requires forall i :: 0 <= i < |tokens| ==> ' ' !in tokens[i]
    ensures Split(Join(tokens)) == tokens
    decreases |tokens|
  {
    if |tokens| == 1 {
      SplitWord(tokens[0]);
    } else {
      SplitJoin(tokens[1..]);
      SplitToken(tokens[0], Join(tokens[1..]));
      AppendAssoc(tokens[0], " ", Join(tokens[1..]));
      assert tokens == [tokens[0]] + tokens[1..];
    }
  }

  /** Two adjacent spaces give an empty token between their neighbours. */
  lemma DoubleSpace(a: string, b: string)
    requires ' ' !in a && ' ' !in b
    ensures Split(a + "  " + b) == [a, "", b]
  {
    assert a + "  " + b == a + (" " + ("" + (" " + b)));
    SplitToken(a, "" + (" " + b));
    SplitToken("", b);
    SplitWord(b);
  }

  /** A text without spaces is a single token. */
  lemma {:induction false} SplitWord(t: string)
    requires ' ' !in t
    ensures Split(t) == [t]
    decreases |t|
  {
    if t != [] {
      SplitWord(t[1..]);
      assert t == [t[0]] + t[1..];
    }
  }

  /** A token without spaces followed by a space is the first piece of `Split`. */
  lemma {:induction false} SplitToken(t: string, rest: string)
    requires ' ' !in t
    ensures Split(t + (" " + rest)) == [t] + Split(rest)
    decreases |t|
  {
    var u := t + (" " + rest);
    if t == [] {
      assert u == " " + rest;
      assert u[1..] == rest;
    } else {
      var tail := t[1..];
      assert u[1..] == tail + (" " + rest);
      var r := Split(u[1..]);
      assert r == [tail] + Split(rest) by {
        SplitToken(tail, rest);
      }
      assert Split(u) == [[t[0]] + r[0]] + r[1..];
      assert [t[0]] + tail == t;
      assert r[1..] == Split(rest);
    }
  }

  /** The value of a hexadecimal digit of either case, or of a decimal digit. */
  function DigitValue(c: char): (r: Option<nat>)
    ensures r.Some? ==> r.value < 16
  {
    if '0' <= c <= '9' then Some(c as int - '0' as int)
    else if 'a' <= c <= 'f' then Some(c as int - 'a' as int + 10)
    else if 'A' <= c <= 'F' then Some(c as int - 'A' as int + 10)
    else None
  }

  predicate IsDigit(c: char, radix: nat) {
    DigitValue(c).Some? && DigitValue(c).value < radix
  }

  /** Every character is a digit of the radix. */
  predicate AllDigits(s: string, radix: nat) {
    forall i :: 0 <= i < |s| ==> IsDigit(s[i], radix)
  }

  /** Every character is a decimal digit or an upper case hexadecimal letter. */
  predicate UpperDigits(s: string) {
    forall i :: 0 <= i < |s| ==> '0' <= s[i] <= '9' || 'A' <= s[i] <= 'F'
  }

  /** The value of a (possibly empty) string of digits in the given radix, most significant first. */
  function DigitsValue(s: string, radix: nat): (r: Option<nat>)
    ensures r.Some? ==> r.value < Power(radix, |s|)
    decreases |s|
  {
    if s == [] then Some(0)
    else
      match DigitsValue(s[..|s| - 1], radix)
      case None => None
      case Some(v) =>
        var d := DigitValue(s[|s| - 1]);
        if d.Some? && d.value < radix then
          PlaceBound(v, d.value, radix, |s|);
          Some(v * radix + d.value)
        else None
  }

  /** `b` to the power `e`. */
  function Power(b: nat, e: nat): nat
    decreases e
  {
    if e == 0 then 1 else b * Power(b, e - 1)
  }

  /** Shifting a value below `radix` to the `n - 1` by one digit place keeps it below `radix` to the `n`. */
  lemma PlaceBound(v: nat, d: nat, radix: nat, n: nat)
    requires n >= 1 && v < Power(radix, n - 1) && d < radix
    ensures 0 <= v * radix + d < Power(radix, n)
  {
    var p := Power(radix, n - 1);
    assert (v + 1) * radix <= p * radix;
  }

  /** `int(token, radix)`: a non-empty string of digits of the radix; anything else fails. */
  function ParseNat(s: string, radix: nat): (r: Option<nat>)
    requires 2 <= radix <= 16
    ensures r.Some? <==> s != [] && AllDigits(s, radix)
  {
    if s == [] then None
    else
      DigitsDefined(s, radix);
      DigitsValue(s, radix)
  }

  /** The digit string has a value exactly when every character is a digit of the radix. */
  lemma {:induction false} DigitsDefined(s: string, radix: nat)
    ensures DigitsValue(s, radix).Some? <==> AllDigits(s, radix)
    decreases |s|
  {
    if s != [] {
      var init := s[..|s| - 1];
      DigitsDefined(init, radix);
      assert forall i :: 0 <= i < |init| ==> init[i] == s[i];
    }
  }

  /** The digit character of value `d`; upper case letters, as the sensor writes them. */
  function DigitChar(d: nat): (c: char)
    requires d < 16
    ensures DigitValue(c) == Some(d)
    ensures '0' <= c <= '9' || 'A' <= c <= 'F'
  {
    if d < 10 then ('0' as int + d) as char else ('A' as int + d - 10) as char
  }

  /** The shortest digit string of `n` in the given radix. */
  function Format(n: nat, radix: nat): (s: string)
    requires radix == 10 || radix == 16
    ensures s != []
    ensures UpperDigits(s)
    decreases n
  {
    (if n < radix then [] else Format(n / radix, radix)) + [DigitChar(n % radix)]
  }

  /** A formatted number is a printable field. */
  lemma FormatGraphic(n: nat, radix: nat)
    requires radix == 10 || radix == 16
    ensures Graphic(Format(n, radix))
  {
  }

  /** Parsing a formatted number gives the number back. */
  lemma ParseFormat(n: nat, radix: nat)
    requires radix == 10 || radix == 16
    ensures ParseNat(Format(n, radix), radix) == Some(n)
  {
    DigitsFormat(n, radix);
  }

  lemma {:induction false} DigitsFormat(n: nat, radix: nat)
    requires radix == 10 || radix == 16
    ensures DigitsValue(Format(n, radix), radix) == Some(n)
    decreases n
  {
    DivMod(n, radix);
    if n < radix {
      assert Format(n, radix) == [DigitChar(n)];
      DigitsSingle(DigitChar(n), radix);
    } else {
      DigitsFormat(n / radix, radix);
      DigitsAppend(n, radix);
    }
  }

  /** Appending a digit multiplies the value by the radix and adds the digit. */
  lemma DigitsSnoc(s: string, c: char, radix: nat, v: nat, d: nat, n: nat)
    requires DigitsValue(s, radix) == Some(v)
    requires DigitValue(c) == Some(d) && d < radix
    requires n == v * radix + d
    ensures DigitsValue(s + [c], radix) == Some(n)
  {
    assert (s + [c])[..|s|] == s;
  }

  lemma DigitsSingle(c: char, radix: nat)
    requires IsDigit(c, radix)
    ensures DigitsValue([c], radix) == DigitValue(c)
  {
    assert [c][..0] == [];
  }

  lemma DigitsAppend(n: nat, radix: nat)
    requires radix == 10 || radix == 16
    requires n >= radix
    requires DigitsValue(Format(n / radix, radix), radix) == Some(n / radix)
    ensures DigitsValue(Format(n, radix), radix) == Some(n)
  {
    var q, d := n / radix, n % radix;
    DigitsLast(n, radix, q, d, Format(q, radix), DigitChar(d));
  }

  /** The last digit of `Format(n, radix)` is `n % radix` and the digits before it are `n / radix`. */
  lemma DigitsLast(n: nat, radix: nat, q: nat, d: nat, digits: string, c: char)
    requires radix == 10 || radix == 16
    requires n >= radix && q == n / radix && d == n % radix && digits == Format(q, radix)
    requires d < 16 && c == DigitChar(d)
    requires DigitsValue(digits, radix) == Some(q)
    ensures DigitsValue(Format(n, radix), radix) == Some(n)
  {
    assert d < radix && q * radix + d == n by {
      DigitsStep(n, radix, q, d);
    }
    assert Format(n, radix) == digits + [c];
    DigitsSnoc(digits, c, radix, q, d, n);
  }

  lemma DigitsStep(n: nat, radix: nat, q: nat, d: nat)
    requires radix == 10 || radix == 16
    requires q == n / radix && d == n % radix
    ensures q * radix + d == n && d < radix
  {
  }

  lemma DivMod(n: nat, radix: nat)
    requires radix == 10 || radix == 16
    ensures n < radix ==> n / radix == 0 && n % radix == n
    ensures n >= radix ==> 0 < n / radix < n
  {
  }
}
