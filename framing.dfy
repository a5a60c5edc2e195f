/** The frame extractor of the receive loop (main.py:158-169): a persistent byte buffer to
    which every chunk read from the serial port is appended, and from which complete
    telegrams framed by STX (0x02) ... ETX (0x03) are cut. */
module Framing {
  import opened Util

  /** A byte of the serial stream, as Python's `bytes` holds it. */
  newtype byte = b: int | 0 <= b < 0x100

  const STX: byte := 0x02
  const ETX: byte := 0x03

  /** Python's `bytes.find(x, from)`: the first index at or after `from` holding `x`, or -1. */
  function Find(s: seq<byte>, x: byte, from: nat): (r: int)
    ensures -1 <= r < |s|
    ensures r >= 0 ==> from <= r && s[r] == x && forall j :: from <= j < r ==> s[j] != x
    ensures r == -1 ==> forall j :: from <= j < |s| ==> s[j] != x
    decreases |s| - from
  {
    if from >= |s| then -1
    else if s[from] == x then from
    else Find(s, x, from + 1)
  }

  /** The buffer holds a complete frame: some STX with an ETX after it. */
  ghost predicate HasFrame(buf: seq<byte>) {
    exists i, j :: 0 <= i < j < |buf| && buf[i] == STX && buf[j] == ETX
  }

  /** One extraction step: the bytes before the first STX, the payload up to the first
      ETX after it, and what follows that ETX. */
  datatype Cut = Cut(noise: seq<byte>, frame: seq<byte>, rest: seq<byte>)

  /** The first complete frame of the buffer, if any (main.py:163-169). */
  function NextFrame(buf: seq<byte>): (r: Option<Cut>)
    ensures r.Some? ==>
      STX !in r.value.noise && ETX !in r.value.frame
      && |r.value.noise| + |r.value.frame| + |r.value.rest| + 2 == |buf|
  {
    var s := Find(buf, STX, 0);
    if s < 0 then None
    else
      var e := Find(buf, ETX, s);
      if e < 0 then None
      else Some(Cut(buf[..s], buf[s + 1..e], buf[e + 1..]))
  }

  /** A step splits the buffer exactly: noise, STX, payload, ETX, rest. */
  lemma NextFrameSplits(buf: seq<byte>)
    requires NextFrame(buf).Some?
    ensures var c := NextFrame(buf).value; buf == c.noise + [STX] + c.frame + [ETX] + c.rest
  {
    var s := Find(buf, STX, 0);
    var e := Find(buf, ETX, s);
    assert buf == buf[..s] + [buf[s]] + buf[s + 1..e] + [buf[e]] + buf[e + 1..];
  }

  /** Without an STX, or without any ETX, there is nothing to cut (the loop guard of main.py:162). */
  lemma MarkerMissing(buf: seq<byte>)
    requires STX !in buf || ETX !in buf
    ensures NextFrame(buf).None?
  {
    var s := Find(buf, STX, 0);
    if s >= 0 {
      assert STX in buf;
      assert Find(buf, ETX, s) == -1;
    }
  }

  /** One turn of the receive loop: the frame between the first STX and the first ETX after
      it is the first frame drained, and draining continues on the bytes after that ETX. */
  lemma ExtractStep(buf: seq<byte>, s: int, e: int)
    requires s == Find(buf, STX, 0) && s >= 0 && e == Find(buf, ETX, s) && e >= 0
    ensures Extract(buf) == Extraction([buf[s + 1..e]] + Extract(buf[e + 1..]).frames, Extract(buf[e + 1..]).rest)
  {
    assert NextFrame(buf) == Some(Cut(buf[..s], buf[s + 1..e], buf[e + 1..]));
  }

  /** A step finds a frame exactly when the buffer holds a complete frame. */
  lemma NextFrameFinds(buf: seq<byte>)
    ensures NextFrame(buf).Some? <==> HasFrame(buf)
  {
    var s := Find(buf, STX, 0);
    if s >= 0 && Find(buf, ETX, s) >= 0 {
      assert buf[s] == STX && buf[Find(buf, ETX, s)] == ETX;
    }
  }

  /** The decomposition of `NextFrame` is the only one: any split of the buffer into
      STX-free noise, STX, an ETX-free payload, ETX and a rest is the one it finds. */
  lemma CutUnique(noise: seq<byte>, frame: seq<byte>, rest: seq<byte>)
    requires STX !in noise && ETX !in frame
    ensures NextFrame(noise + [STX] + frame + [ETX] + rest) == Some(Cut(noise, frame, rest))
  {
    var buf := noise + [STX] + frame + [ETX] + rest;
    var s, e := |noise|, |noise| + 1 + |frame|;
    assert buf[s] == STX && buf[e] == ETX;
    assert forall j :: 0 <= j < s ==> buf[j] == noise[j];
    assert forall j :: s < j < e ==> buf[j] == frame[j - s - 1];
    assert Find(buf, STX, 0) == s;
    assert Find(buf, ETX, s) == e;
    assert buf[..s] == noise;
    assert buf[s + 1..e] == frame;
    assert buf[e + 1..] == rest;
  }

  /** A second STX before the ETX does not start a new frame: it stays inside the payload. */
  lemma SpuriousStartKept(a: seq<byte>, b: seq<byte>, rest: seq<byte>)
    requires ETX !in a && ETX !in b
    ensures NextFrame([STX] + a + [STX] + b + [ETX] + rest) == Some(Cut([], a + [STX] + b, rest))
  {
    assert ETX !in a + [STX] + b;
    CutUnique([], a + [STX] + b, rest);
    assert [] + [STX] + (a + [STX] + b) + [ETX] + rest == [STX] + a + [STX] + b + [ETX] + rest;
  }

  /** What draining a buffer yields: the frames in order and the residual buffer. */
  datatype Extraction = Extraction(frames: seq<seq<byte>>, rest: seq<byte>)

  /** Cuts frames off the front of the buffer until no complete frame is left. */
  function Extract(buf: seq<byte>): (x: Extraction)
    ensures |x.rest| <= |buf|
    ensures forall k :: 0 <= k < |x.frames| ==> ETX !in x.frames[k]
    decreases |buf|
  {
    match NextFrame(buf)
    case None => Extraction([], buf)
    case Some(c) =>
      var x := Extract(c.rest);
      Extraction([c.frame] + x.frames, x.rest)
  }

  /** After draining, no STX in the buffer is followed by an ETX. */
  lemma {:induction false} ExtractDrains(buf: seq<byte>)
    ensures !HasFrame(Extract(buf).rest)
    decreases |buf|
  {
    NextFrameFinds(buf);
    match NextFrame(buf)
    case None =>
    case Some(c) =>
      ExtractDrains(c.rest);
  }

  /** A buffer without a complete frame is left exactly as it is (leading noise included)
      and yields nothing; a buffer with one yields a frame and strictly shrinks. */
  lemma ExtractIdle(buf: seq<byte>)
    ensures !HasFrame(buf) ==> Extract(buf) == Extraction([], buf)
    ensures HasFrame(buf) ==> |Extract(buf).frames| >= 1 && |Extract(buf).rest| < |buf|
  {
    NextFrameFinds(buf);
  }

  /** Chunking does not matter: draining `a`, then draining what is left with `b` appended,
      gives the same frames and residue as draining `a + b` at once. */
  lemma {:induction false} ExtractAppend(a: seq<byte>, b: seq<byte>)
    ensures var x := Extract(a); var y := Extract(x.rest + b);
      Extract(a + b) == Extraction(x.frames + y.frames, y.rest)
    decreases |a|
  {
    match NextFrame(a)
    case None =>
      assert [] + Extract(a + b).frames == Extract(a + b).frames;
    case Some(c) =>
      assert NextFrame(a + b) == Some(Cut(c.noise, c.frame, c.rest + b)) by {
        NextFrameSplits(a);
        AppendAssoc(c.noise + [STX] + c.frame + [ETX], c.rest, b);
        CutUnique(c.noise, c.frame, c.rest + b);
      }
      ExtractAppend(c.rest, b);
      AppendAssoc([c.frame], Extract(c.rest).frames, Extract(Extract(c.rest).rest + b).frames);
  }

  /** The concatenation of a list of chunks. */
  function Concat(chunks: seq<seq<byte>>): seq<byte>
    decreases |chunks|
  {
    if chunks == [] then [] else chunks[0] + Concat(chunks[1..])
  }

  /** What feeding the chunks one after another into a buffer yields. */
  function FeedAll(buf: seq<byte>, chunks: seq<seq<byte>>): Extraction
    decreases |chunks|
  {
    if chunks == [] then Extraction([], buf)
    else
      var x := Extract(buf + chunks[0]);
      var y := FeedAll(x.rest, chunks[1..]);
      Extraction(x.frames + y.frames, y.rest)
  }

  /** However the stream is cut into chunks, a drained buffer yields the same frames and the
      same residue as if the whole stream had arrived in one chunk. */
  lemma {:induction false} ChunkingInvariant(buf: seq<byte>, chunks: seq<seq<byte>>)
    requires !HasFrame(buf)
    ensures FeedAll(buf, chunks) == Extract(buf + Concat(chunks))
    decreases |chunks|
  {
    if chunks == [] {
      assert buf + Concat(chunks) == buf;
      ExtractIdle(buf);
    } else {
      var x := Extract(buf + chunks[0]);
      ExtractDrains(buf + chunks[0]);
      ChunkingInvariant(x.rest, chunks[1..]);
      ExtractAppend(buf + chunks[0], Concat(chunks[1..]));
      assert buf + Concat(chunks) == (buf + chunks[0]) + Concat(chunks[1..]);
    }
  }

  /** The receive loop's buffer (main.py:91, 160-169). */
  class FrameExtractor {
    var buffer: seq<byte>

    /** Between calls the buffer never holds a complete frame. */
    ghost predicate Valid()
      reads this
    {
      !HasFrame(buffer)
    }

    constructor ()
      ensures Valid() && buffer == []
    {
      buffer := [];
    }

    /** Appends a chunk and cuts every complete frame off the buffer, in order. */
    method Feed(chunk: seq<byte>) returns (frames: seq<seq<byte>>)
      modifies this
      ensures Extraction(frames, buffer) == Extract(old(buffer) + chunk)
      ensures Valid()
    {
      buffer := buffer + chunk;
      ghost var whole := buffer;
      ExtractDrains(whole);
      frames := [];
      assert [] + Extract(buffer).frames == Extract(buffer).frames;
      while STX in buffer && ETX in buffer
        invariant Extract(whole) == Extraction(frames + Extract(buffer).frames, Extract(buffer).rest)
        decreases |buffer|
      {
        var s := Find(buffer, STX, 0);
        var e := Find(buffer, ETX, s);
        if e == -1 {
          break;
        }
        var frame, rest := buffer[s + 1..e], buffer[e + 1..];
        ExtractStep(buffer, s, e);
        AppendAssoc(frames, [frame], Extract(rest).frames);
        frames := frames + [frame];
        buffer := rest;
      }
      assert Extract(buffer) == Extraction([], buffer) by {
        if STX in buffer && ETX in buffer {
          assert NextFrame(buffer).None?;
        } else {
          MarkerMissing(buffer);
        }
      }
      assert frames + [] == frames;
    }
  }
}
