/** The receive loop of main.py (lines 158-185) without the serial port and the plot: each
    chunk read is appended to the frame buffer, every complete telegram is cut off, turned
    into text and decoded; a telegram that fails to decode is dropped (`except ValueError:
    pass`) and the next one is processed; the scan of the last telegram that decoded is
    kept as the receiver's current scan. */
module Receiver {
  import opened Util
  import opened Framing
  import opened ScanData
  import opened Encoding

  /** `bytes.decode(errors="replace")` on the telegram bytes: an ASCII byte is the character
      of that code, any other byte becomes U+FFFD. */
  function FrameText(frame: seq<byte>): (text: string)
    ensures |text| == |frame|
  {
    seq(|frame|, i requires 0 <= i < |frame| => if frame[i] < 0x80 then frame[i] as char else '\U{FFFD}')
  }

  /** The bytes of an ASCII text, as the sensor sends them. */
  function AsciiBytes(text: string): (bytes: seq<byte>)
    requires forall i :: 0 <= i < |text| ==> text[i] as int < 0x80
    ensures |bytes| == |text|
  {
    seq(|text|, i requires 0 <= i < |text| => text[i] as byte)
  }

  /** Decoding the bytes of an ASCII text gives the text back. */
  lemma FrameTextAscii(text: string)
    requires forall i :: 0 <= i < |text| ==> text[i] as int < 0x80
    ensures FrameText(AsciiBytes(text)) == text
  {
    var bytes := AsciiBytes(text);
    forall i | 0 <= i < |text|
      ensures FrameText(bytes)[i] == text[i]
    {
      ByteOfChar(text[i]);
    }
  }

  lemma ByteOfChar(c: char)
    requires c as int < 0x80
    ensures c as byte < 0x80 && (c as byte) as char == c
  {
  }

  /** One telegram's bytes through `decode` and `parse_lmdscandata` (main.py:172-173). */
  function DecodeFrame(frame: seq<byte>): (r: Result<Scan>)
    ensures r != Err(SectionsTooShort)
    ensures r == Err(TooShort) <==> |Tokenize(FrameText(frame))| < MinTokens
    ensures r.Ok? ==> |r.value.distances| == |r.value.angles|
  {
    Decode(FrameText(frame))
  }

  /** The outcome of decoding each frame with `decode`, in order. */
  function Results(frames: seq<seq<byte>>, decode: seq<byte> -> Result<Scan>): (r: seq<Result<Scan>>)
    ensures |r| == |frames|
  {
    seq(|frames|, i requires 0 <= i < |frames| => decode(frames[i]))
  }

  lemma ResultsAppend(a: seq<seq<byte>>, b: seq<seq<byte>>, decode: seq<byte> -> Result<Scan>)
    ensures Results(a + b, decode) == Results(a, decode) + Results(b, decode)
  {
    assert forall i :: 0 <= i < |b| ==> (a + b)[|a| + i] == b[i];
  }

  /** The scans of the outcomes that succeeded, in order; the failures are dropped. */
  function Successes(results: seq<Result<Scan>>): (scans: seq<Scan>)
    ensures |scans| <= |results|
    ensures forall k :: 0 <= k < |scans| ==> Ok(scans[k]) in results
    decreases |results|
  {
    if results == [] then []
    else
      var init := Successes(results[..|results| - 1]);
      match Last(results)
      case Ok(scan) => init + [scan]
      case Err(_) => init
  }

  /** The scans of the frames that decode, in frame order; the others are dropped
      (main.py:171-185, `except ValueError: pass`). */
  function Decoded(frames: seq<seq<byte>>): (scans: seq<Scan>)
    ensures |scans| <= |frames|
    ensures forall k :: 0 <= k < |scans| ==> exists j :: 0 <= j < |frames| && DecodeFrame(frames[j]) == Ok(scans[k])
  {
    var results := Results(frames, DecodeFrame);
    var scans := Successes(results);
    assert forall k :: 0 <= k < |scans| ==> exists j :: 0 <= j < |frames| && results[j] == Ok(scans[k]);
    scans
  }

  /** The current scan after the given scans were received: the last of them, or the previous
      one when there were none (main.py:177). */
  function Latest(scans: seq<Scan>, previous: Option<Scan>): (r: Option<Scan>)
    ensures scans == [] ==> r == previous
    ensures scans != [] ==> r.Some? && r.value == scans[|scans| - 1]
  {
    if scans == [] then previous else Some(Last(scans))
  }

  lemma {:induction false} SuccessesAppend(a: seq<Result<Scan>>, b: seq<Result<Scan>>)
    ensures Successes(a + b) == Successes(a) + Successes(b)
    decreases |b|
  {
    if b == [] {
      assert a + b == a;
    } else {
      var b' := b[..|b| - 1];
      SuccessesAppend(a, b');
      assert (a + b)[..|a + b| - 1] == a + b';
      assert Last(a + b) == Last(b);
      match Last(b)
      case Ok(scan) =>
        AppendAssoc(Successes(a), Successes(b'), [scan]);
      case Err(_) =>
    }
  }

  /** One more outcome adds its scan when it succeeded and nothing otherwise. */
  lemma SuccessesPrefix(results: seq<Result<Scan>>, i: nat)
    requires i < |results|
    ensures Successes(results[..i + 1]) ==
      Successes(results[..i]) + if results[i].Ok? then [results[i].value] else []
  {
    assert results[..i + 1][..i] == results[..i];
  }

  lemma SuccessesSingle(result: Result<Scan>)
    ensures Successes([result]) == if result.Ok? then [result.value] else []
  {
    assert [result][..0] == [];
  }

  /** The frames of a stream are decoded independently: the scans of two runs of frames are
      the scans of the first followed by those of the second. */
  lemma DecodedAppend(a: seq<seq<byte>>, b: seq<seq<byte>>)
    ensures Decoded(a + b) == Decoded(a) + Decoded(b)
  {
    ResultsAppend(a, b, DecodeFrame);
    SuccessesAppend(Results(a, DecodeFrame), Results(b, DecodeFrame));
  }

  /** A telegram that fails to decode is skipped without affecting those around it. */
  lemma FailedFrameSkipped(a: seq<seq<byte>>, bad: seq<byte>, b: seq<seq<byte>>)
    requires DecodeFrame(bad).Err?
    ensures Decoded(a + [bad] + b) == Decoded(a + b)
  {
    DecodedAppend(a + [bad], b);
    DecodedAppend(a, [bad]);
    assert Decoded([bad]) == [] by {
      assert Results([bad], DecodeFrame) == [DecodeFrame(bad)];
      SuccessesSingle(DecodeFrame(bad));
    }
    assert Decoded(a + [bad]) == Decoded(a);
    DecodedAppend(a, b);
  }

  /** When every frame decodes, there is one scan per frame, in frame order. */
  lemma DecodedAllOk(frames: seq<seq<byte>>)
    requires forall j :: 0 <= j < |frames| ==> DecodeFrame(frames[j]).Ok?
    ensures |Decoded(frames)| == |frames|
    ensures forall j :: 0 <= j < |frames| ==> Decoded(frames)[j] == DecodeFrame(frames[j]).value
  {
    SuccessesAllOk(Results(frames, DecodeFrame));
  }

  lemma {:induction false} SuccessesAllOk(results: seq<Result<Scan>>)
    requires forall j :: 0 <= j < |results| ==> results[j].Ok?
    ensures |Successes(results)| == |results|
    ensures forall j :: 0 <= j < |results| ==> Successes(results)[j] == results[j].value
    decreases |results|
  {
    if results != [] {
      var init := results[..|results| - 1];
      SuccessesAllOk(init);
      var scans := Successes(results);
      assert scans == Successes(init) + [Last(results).value];
      forall j | 0 <= j < |results|
        ensures scans[j] == results[j].value
      {
        if j < |init| {
          assert results[j] == init[j];
        }
      }
    }
  }

  /** When no frame decodes, there is no scan. */
  lemma DecodedNoneOk(frames: seq<seq<byte>>)
    requires forall j :: 0 <= j < |frames| ==> DecodeFrame(frames[j]).Err?
    ensures Decoded(frames) == []
  {
    SuccessesNoneOk(Results(frames, DecodeFrame));
  }

  lemma {:induction false} SuccessesNoneOk(results: seq<Result<Scan>>)
    requires forall j :: 0 <= j < |results| ==> results[j].Err?
    ensures Successes(results) == []
    decreases |results|
  {
    if results != [] {
      SuccessesNoneOk(results[..|results| - 1]);
    }
  }

  /** Receiving two runs of scans one after the other leaves the same current scan as
      receiving them at once. */
  lemma LatestAppend(a: seq<Scan>, b: seq<Scan>, previous: Option<Scan>)
    ensures Latest(a + b, previous) == Latest(b, Latest(a, previous))
  {
    if b == [] {
      assert a + b == a;
    } else {
      assert Last(a + b) == Last(b);
    }
  }

  /** How the byte stream is cut into chunks does not change which scans are received:
      the scans of `buf + a + b` are those of `buf + a` followed by those of what remains
      of it with `b` appended. */
  lemma ChunkedScans(buf: seq<byte>, a: seq<byte>, b: seq<byte>)
    ensures var x := Extract(buf + a);
      Decoded(Extract(buf + a + b).frames) == Decoded(x.frames) + Decoded(Extract(x.rest + b).frames)
  {
    ExtractAppend(buf + a, b);
    DecodedAppend(Extract(buf + a).frames, Extract(Extract(buf + a).rest + b).frames);
  }

  /** A telegram the sensor sends, framed by STX and ETX after any noise without STX, is the
      first frame cut from the buffer and decodes to the scan it carries. */
  lemma TelegramReceived(t: Telegram, noise: seq<byte>, rest: seq<byte>)
    requires WellFormed(t) && STX !in noise
    ensures RenderAscii(t)
    ensures var frame := AsciiBytes(Render(t));
      var x := Extract(noise + [STX] + frame + [ETX] + rest);
      x.frames != [] && x.frames[0] == frame && DecodeFrame(frame) == Ok(Expected(t))
  {
    RenderPrintable(t);
    var frame := AsciiBytes(Render(t));
    assert ETX !in frame by {
      assert forall i :: 0 <= i < |frame| ==> frame[i] >= 0x20;
    }
    CutUnique(noise, frame, rest);
    FrameTextAscii(Render(t));
    DecodeRoundTrip(t);
  }

  /** The text of a telegram is ASCII, so its bytes are defined. */
  predicate RenderAscii(t: Telegram) {
    forall i :: 0 <= i < |Render(t)| ==> Render(t)[i] as int < 0x80
  }

  /** Decodes frame `i`: the outcome `Results` records for it. */
  method DecodeAt(frames: seq<seq<byte>>, i: nat) returns (decoded: Result<Scan>)
    requires i < |frames|
    ensures decoded == Results(frames, DecodeFrame)[i]
  {
    decoded := DecodeFrame(frames[i]);
  }

  /** The receiver: the frame buffer and the last decoded scan (`last_x`, `last_y` in the
      source, kept here as the scan they are computed from). */
  class ScanReceiver {
    const extractor: FrameExtractor
    var last: Option<Scan>

    ghost predicate Valid()
      reads this, extractor
    {
      extractor.Valid()
    }

    constructor ()
      ensures Valid() && fresh(extractor)
      ensures extractor.buffer == [] && last == None
    {
      extractor := new FrameExtractor();
      last := None;
    }

    /** One turn of the receive loop: append the chunk, cut every complete telegram, decode
        each, drop those that fail, and remember the last scan that decoded. The scans
        are returned in order, as the loop draws them. */
    method Process(chunk: seq<byte>) returns (scans: seq<Scan>)
      requires Valid()
      modifies this, extractor
      ensures Valid()
      ensures extractor.buffer == Extract(old(extractor.buffer) + chunk).rest
      ensures scans == Decoded(Extract(old(extractor.buffer) + chunk).frames)
      ensures last == Latest(scans, old(last))
    {
      var frames := extractor.Feed(chunk);
      scans := Dispatch(frames);
    }

    /** Decodes the frames in order, drops those that fail (`except ValueError: pass`), and
        remembers the last scan that decoded. */
    method Dispatch(frames: seq<seq<byte>>) returns (scans: seq<Scan>)
      modifies this
      ensures scans == Decoded(frames)
      ensures last == Latest(scans, old(last))
    {
      ghost var results := Results(frames, DecodeFrame);
      scans := [];
      var i := 0;
      while i < |frames|
        invariant 0 <= i <= |frames|
        invariant scans == Successes(results[..i])
        invariant last == Latest(scans, old(last))
      {
        var decoded := DecodeAt(frames, i);
        SuccessesPrefix(results, i);
        if decoded.Ok? {
          scans := scans + [decoded.value];
          last := Some(decoded.value);
        }
        i := i + 1;
      }
      assert results[..i] == results;
    }
  }
}
