/** The decoder of the SICK LMS `LMDscandata` telegram in the sensor's CoLa-A text form
    (main.py:10-57): a strict, ordered sequence of field checks over space-separated tokens,
    followed by the extraction of the distance readings and their angles. Every `raise`
    of the source becomes an error value; so does a failed `int(...)` conversion. */
module ScanData {
  import opened Util
  import opened Text

  /** One variant per rejection of the source, plus a numeric field that does not parse. */
  datatype DecodeError =
    | TooShort                 // fewer than 30 tokens (main.py:13-14)
    | NotScanData              // not an sRA/sSN LMDscandata telegram (main.py:20-21)
    | SectionsTooShort         // fewer than 8 sections (main.py:24-25), unreachable
    | UnexpectedEncoderBlocks  // encoder block count other than 0 (main.py:28-29)
    | NoChannelBlocks          // no 16-bit channel block (main.py:32-33)
    | WrongChannel             // first channel is not DIST1 (main.py:35-36)
    | UnknownScaleFactor       // scale factor neither 1.0 nor 2.0 (main.py:39-40)
    | NotEnoughValues          // fewer readings than announced (main.py:47-48)
    | MalformedNumber          // `int(token, radix)` fails (caught at main.py:184)

  datatype Result<+T> = Ok(value: T) | Err(error: DecodeError) {
    predicate IsFailure() {
      Err?
    }

    function PropagateFailure<U>(): Result<U>
      requires Err?
    {
      Err(error)
    }

    function Extract(): T
      requires Ok?
    {
      value
    }
  }

  /** A decoded scan: distances in millimetres and, for each, its angle in 1/10000 degree. */
  datatype Scan = Scan(distances: seq<nat>, angles: seq<nat>)

  const HeaderLength: nat := 18
  const MinTokens: nat := 30
  const CommandName := "LMDscandata"
  const ChannelName := "DIST1"
  /** IEEE-754 single precision bit patterns of the two accepted scale factors, 1.0 and 2.0. */
  const ScaleOne := "3F800000"
  const ScaleTwo := "40000000"

  /** The command type is a read answer or an event, and the command is LMDscandata. */
  predicate IsScanCommand(tokens: seq<string>)
    requires |tokens| >= 2
    ensures IsScanCommand(tokens) <==> tokens[..2] == ["sRA", CommandName] || tokens[..2] == ["sSN", CommandName]
  {
    tokens[1] == CommandName && (tokens[0] == "sRA" || tokens[0] == "sSN")
  }

  /** `int(token, radix)`, with the ValueError as `MalformedNumber`. */
  function Number(token: string, radix: nat): (r: Result<nat>)
    requires radix == 10 || radix == 16
    ensures r.Ok? <==> ParseNat(token, radix).Some?
    ensures r.Ok? ==> ParseNat(token, radix) == Some(r.value)
    ensures r.Err? ==> r.error == MalformedNumber
  {
    match ParseNat(token, radix)
    case Some(v) => Ok(v)
    case None => Err(MalformedNumber)
  }

  /** The multiplier of an accepted scale-factor pattern (main.py:41). */
  function ScaleFactor(pattern: string): (m: nat)
    ensures m == 1 || m == 2
    ensures m == 1 <==> pattern == ScaleOne
  {
    if pattern == ScaleOne then 1 else 2
  }

  /** The hexadecimal readings, each multiplied by the scale factor (main.py:51). */
  function Distances(vals: seq<string>, scale: nat): (r: Result<seq<nat>>)
    ensures r.Ok? <==> forall i :: 0 <= i < |vals| ==> ParseNat(vals[i], 16).Some?
    ensures r.Ok? ==> |r.value| == |vals|
    ensures r.Ok? ==> forall i :: 0 <= i < |vals| ==> r.value[i] == ParseNat(vals[i], 16).value * scale
    ensures r.Err? ==> r.error == MalformedNumber
    decreases |vals|
  {
    if vals == [] then Ok([])
    else
      var d :- Number(vals[0], 16);
      var rest :- Distances(vals[1..], scale);
      Ok([d * scale] + rest)
  }

  /** The angle of each reading, from the start angle in steps (main.py:53-55), kept in
      1/10000 degree instead of being divided into floating-point degrees. */
  function Angles(start: nat, step: nat, count: nat): (r: seq<nat>)
    ensures |r| == count
    ensures count > 0 ==> r[0] == start
    ensures forall i :: 0 < i < count ==> r[i] == r[i - 1] + step
  {
    seq(count, i requires 0 <= i < count => start + i * step)
  }

  /** `parse_lmdscandata` after tokenisation (main.py:13-57): the header checks, then the
      checks and the decoding of the sections that follow the 18 header tokens. */
  function DecodeTokens(tokens: seq<string>): (r: Result<Scan>)
    ensures r == Err(TooShort) <==> |tokens| < MinTokens
    ensures r == Err(NotScanData) <==> |tokens| >= MinTokens && !IsScanCommand(tokens)
    ensures r != Err(SectionsTooShort)
    ensures r.Ok? ==> |r.value.distances| == |r.value.angles|
  {
    if |tokens| < MinTokens then Err(TooShort)
    else if !IsScanCommand(tokens) then Err(NotScanData)
    else DecodeSections(tokens[HeaderLength..])
  }

  /** The section checks, in the source's order (main.py:23-41), then the readings. */
  function DecodeSections(sections: seq<string>): (r: Result<Scan>)
    ensures r != Err(TooShort) && r != Err(NotScanData)
    ensures r == Err(SectionsTooShort) <==> |sections| < 8
    ensures r.Ok? ==> |r.value.distances| == |r.value.angles|
  {
    if |sections| < 8 then Err(SectionsTooShort)
    else
      var encoderBlocks :- Number(sections[0], 10);
      if encoderBlocks != 0 then Err(UnexpectedEncoderBlocks)
      else
        var channelBlocks :- Number(sections[1], 10);
        if channelBlocks < 1 then Err(NoChannelBlocks)
        else if sections[2] != ChannelName then Err(WrongChannel)
        else if sections[3] != ScaleOne && sections[3] != ScaleTwo then Err(UnknownScaleFactor)
        else DecodeReadings(sections, ScaleFactor(sections[3]))
  }

  /** Start angle, angle step, reading count and the readings (main.py:43-57);
      `sections[4]` is never looked at. */
  function DecodeReadings(sections: seq<string>, scale: nat): (r: Result<Scan>)
    requires |sections| >= 8
    ensures r.Err? ==> r.error == MalformedNumber || r.error == NotEnoughValues
    ensures r == Err(NotEnoughValues) <==>
      && ParseNat(sections[5], 16).Some? && ParseNat(sections[6], 16).Some? && ParseNat(sections[7], 16).Some?
      && |sections| < 8 + ParseNat(sections[7], 16).value
    ensures r.Ok? ==> |r.value.distances| == |r.value.angles|
  {
    var start :- Number(sections[5], 16);
    var step :- Number(sections[6], 16);
    var count :- Number(sections[7], 16);
    if |sections| < 8 + count then Err(NotEnoughValues)
    else
      var distances :- Distances(sections[8..8 + count], scale);
      Ok(Scan(distances, Angles(start, step, count)))
  }

  /** `telegram.strip().split(" ")` (main.py:11). */
  function Tokenize(telegram: string): (tokens: seq<string>)
    ensures |tokens| >= 1
    ensures forall i :: 0 <= i < |tokens| ==> ' ' !in tokens[i]
    ensures Join(tokens) == Strip(telegram)
  {
    Split(Strip(telegram))
  }

  /** `parse_lmdscandata` (main.py:10-57). */
  function Decode(telegram: string): (r: Result<Scan>)
    ensures r == Err(TooShort) <==> |Tokenize(telegram)| < MinTokens
    ensures r == Err(NotScanData) <==> |Tokenize(telegram)| >= MinTokens && !IsScanCommand(Tokenize(telegram))
    ensures r.Ok? ==> |r.value.distances| == |r.value.angles|
  {
    DecodeTokens(Tokenize(telegram))
  }

  /** The value of hexadecimal section `k`. */
  ghost function Hex(sections: seq<string>, k: nat): nat
    requires k < |sections| && ParseNat(sections[k], 16).Some?
  {
    ParseNat(sections[k], 16).value
  }

  /** Sections whose angle fields, count and announced readings are all hexadecimal numbers. */
  ghost predicate ReadingsWellFormed(sections: seq<string>) {
    |sections| >= 8
    && ParseNat(sections[5], 16).Some? && ParseNat(sections[6], 16).Some? && ParseNat(sections[7], 16).Some?
    && |sections| >= 8 + Hex(sections, 7)
    && forall v :: v in Readings(sections) ==> ParseNat(v, 16).Some?
  }

  /** The readings section 7 announces: the sections from 8 on, as many as it says. */
  ghost function Readings(sections: seq<string>): seq<string>
    requires |sections| >= 8 && ParseNat(sections[7], 16).Some? && |sections| >= 8 + Hex(sections, 7)
  {
    sections[8..8 + Hex(sections, 7)]
  }

  /** What an accepted telegram means: as many distances and angles as section 7 announces;
      distance i is reading i times the scale factor; angle i is the start angle (section 5)
      plus i angle steps (section 6). */
  ghost predicate Describes(sections: seq<string>, scale: nat, scan: Scan)
    requires ReadingsWellFormed(sections)
  {
    var readings := Readings(sections);
    var count := |readings|;
    |scan.distances| == count && |scan.angles| == count
    && (forall i :: 0 <= i < count ==> scan.distances[i] == ParseNat(readings[i], 16).value * scale)
    && (forall i :: 0 <= i < count ==> scan.angles[i] == Hex(sections, 5) + i * Hex(sections, 6))
  }

  /** The sections the decoder accepts: no encoder block, at least one 16-bit channel block,
      channel DIST1, a known scale factor, and well-formed readings. */
  ghost predicate SectionsAccepted(sections: seq<string>) {
    |sections| >= 8
    && ParseNat(sections[0], 10) == Some(0)
    && ParseNat(sections[1], 10).Some? && ParseNat(sections[1], 10).value >= 1
    && sections[2] == ChannelName
    && (sections[3] == ScaleOne || sections[3] == ScaleTwo)
    && ReadingsWellFormed(sections)
  }

  /** The telegrams the decoder accepts. */
  ghost predicate Accepted(tokens: seq<string>) {
    |tokens| >= MinTokens && IsScanCommand(tokens) && SectionsAccepted(tokens[HeaderLength..])
  }

  /** The readings decode exactly when they are well formed, and then to what they describe. */
  lemma ReadingsSpec(sections: seq<string>, scale: nat)
    requires |sections| >= 8
    ensures DecodeReadings(sections, scale).Ok? <==> ReadingsWellFormed(sections)
    ensures DecodeReadings(sections, scale).Ok? ==> Describes(sections, scale, DecodeReadings(sections, scale).value)
  {
    var start, step, count := ParseNat(sections[5], 16), ParseNat(sections[6], 16), ParseNat(sections[7], 16);
    if start.Some? && step.Some? && count.Some? && |sections| >= 8 + count.value {
      var readings := Readings(sections);
      var d := Distances(readings, scale);
      assert DecodeReadings(sections, scale) ==
        if d.Ok? then Ok(Scan(d.value, Angles(start.value, step.value, count.value))) else Err(d.error);
      assert d.Ok? <==> forall v :: v in readings ==> ParseNat(v, 16).Some?;
    }
  }

  /** The section checks run in the source's order and the first that fails decides the
      error: each error is returned exactly when every earlier check passed and its own
      check failed. */
  lemma SectionChecksInOrder(sections: seq<string>)
    requires |sections| >= 8
    ensures var enc, chan := ParseNat(sections[0], 10), ParseNat(sections[1], 10);
      && (enc.None? ==> DecodeSections(sections) == Err(MalformedNumber))
      && (enc == Some(0) && chan.None? ==> DecodeSections(sections) == Err(MalformedNumber))
      && (DecodeSections(sections) == Err(UnexpectedEncoderBlocks) <==> enc.Some? && enc.value != 0)
      && (DecodeSections(sections) == Err(NoChannelBlocks) <==>
            enc == Some(0) && chan.Some? && chan.value < 1)
      && (DecodeSections(sections) == Err(WrongChannel) <==>
            enc == Some(0) && chan.Some? && chan.value >= 1 && sections[2] != ChannelName)
      && (DecodeSections(sections) == Err(UnknownScaleFactor) <==>
            enc == Some(0) && chan.Some? && chan.value >= 1 && sections[2] == ChannelName
            && sections[3] != ScaleOne && sections[3] != ScaleTwo)
  {
  }

  /** Section 4 (the scale offset) is never looked at. */
  lemma OffsetIgnored(tokens: seq<string>, other: string)
    requires |tokens| > HeaderLength + 4
    ensures DecodeTokens(tokens[HeaderLength + 4 := other]) == DecodeTokens(tokens)
  {
    var changed := tokens[HeaderLength + 4 := other];
    if |tokens| >= MinTokens && IsScanCommand(tokens) {
      var sections, sections2 := tokens[HeaderLength..], changed[HeaderLength..];
      assert sections2 == sections[4 := other];
      assert forall k :: 8 <= k <= |sections| ==> sections2[8..k] == sections[8..k];
    }
  }

  /** When the encoder block count is 0, the channel block count is positive, the channel
      is DIST1 and the scale pattern is known, the sections decode as their readings do. */
  lemma SectionsOf(sections: seq<string>, channelBlocks: nat)
    requires |sections| >= 8
    requires ParseNat(sections[0], 10) == Some(0)
    requires ParseNat(sections[1], 10) == Some(channelBlocks) && channelBlocks >= 1
    requires sections[2] == ChannelName && (sections[3] == ScaleOne || sections[3] == ScaleTwo)
    ensures DecodeSections(sections) == DecodeReadings(sections, ScaleFactor(sections[3]))
  {
  }

  /** When the angle fields and the count parse and the announced readings decode, the
      readings stage yields those distances and the angles from the start angle in steps. */
  lemma ReadingsOf(sections: seq<string>, scale: nat, start: nat, step: nat, count: nat)
    requires |sections| >= 8 + count
    requires ParseNat(sections[5], 16) == Some(start) && ParseNat(sections[6], 16) == Some(step)
    requires ParseNat(sections[7], 16) == Some(count)
    requires Distances(sections[8..8 + count], scale).Ok?
    ensures DecodeReadings(sections, scale) == Ok(Scan(Distances(sections[8..8 + count], scale).value, Angles(start, step, count)))
  {
  }

  /** The decoder accepts exactly the telegrams of `Accepted`, and an accepted telegram
      decodes to the scan it describes. */
  lemma DecodeSpec(tokens: seq<string>)
    ensures DecodeTokens(tokens).Ok? <==> Accepted(tokens)
    ensures DecodeTokens(tokens).Ok? ==>
      Describes(tokens[HeaderLength..], ScaleFactor(tokens[21]), DecodeTokens(tokens).value)
  {
    if |tokens| >= MinTokens && IsScanCommand(tokens) {
      var sections := tokens[HeaderLength..];
      assert sections[3] == tokens[21];
      ReadingsSpec(sections, ScaleFactor(sections[3]));
    }
  }

  /** Every element doubled. */
  function Twice(s: seq<nat>): (r: seq<nat>)
    ensures |r| == |s| && forall i :: 0 <= i < |s| ==> r[i] == 2 * s[i]
  {
    seq(|s|, i requires 0 <= i < |s| => 2 * s[i])
  }

  /** Distances doubled, angles untouched. */
  function Doubled(r: Result<Scan>): Result<Scan> {
    match r
    case Ok(scan) => Ok(Scan(Twice(scan.distances), scan.angles))
    case Err(e) => Err(e)
  }

  /** For the same raw tokens, scale pattern 40000000 (2.0) gives exactly twice the distances
      of 3F800000 (1.0), the same angles, and the same rejection if any. */
  lemma ScaleDoubles(tokens: seq<string>)
    requires |tokens| > 21 && tokens[21] == ScaleOne
    ensures DecodeTokens(tokens[21 := ScaleTwo]) == Doubled(DecodeTokens(tokens))
  {
    var doubled := tokens[21 := ScaleTwo];
    if |tokens| >= MinTokens && IsScanCommand(tokens) {
      var sections, sections2 := tokens[HeaderLength..], doubled[HeaderLength..];
      assert sections2 == sections[3 := ScaleTwo];
      if ParseNat(sections[0], 10) == Some(0) && ParseNat(sections[1], 10).Some?
        && ParseNat(sections[1], 10).value >= 1 && sections[2] == ChannelName
      {
        ReadingsDouble(sections, sections2);
      }
    }
  }

  lemma ReadingsDouble(sections: seq<string>, sections2: seq<string>)
    requires |sections| >= 8 && sections2 == sections[3 := ScaleTwo]
    ensures DecodeReadings(sections2, 2) == Doubled(DecodeReadings(sections, 1))
  {
    var start, step, count := ParseNat(sections[5], 16), ParseNat(sections[6], 16), ParseNat(sections[7], 16);
    assert sections2[5] == sections[5] && sections2[6] == sections[6] && sections2[7] == sections[7];
    if start.Some? && step.Some? && count.Some? && |sections| >= 8 + count.value {
      var vals := sections[8..8 + count.value];
      assert sections2[8..8 + count.value] == vals;
      DistancesDouble(vals);
      if Distances(vals, 1).Ok? {
        var angles := Angles(start.value, step.value, count.value);
        assert DecodeReadings(sections, 1) == Ok(Scan(Distances(vals, 1).value, angles));
        assert DecodeReadings(sections2, 2) == Ok(Scan(Distances(vals, 2).value, angles));
      }
    }
  }

  lemma DistancesDouble(vals: seq<string>)
    ensures Distances(vals, 2).Ok? == Distances(vals, 1).Ok?
    ensures Distances(vals, 1).Ok? ==> Distances(vals, 2).value == Twice(Distances(vals, 1).value)
  {
  }

  /** Sections after the announced readings are ignored: appending tokens to an accepted
      telegram does not change what it decodes to. */
  lemma TrailingIgnored(tokens: seq<string>, extra: seq<string>)
    requires DecodeTokens(tokens).Ok?
    ensures DecodeTokens(tokens + extra) == DecodeTokens(tokens)
  {
    var longer := tokens + extra;
    var sections, sections2 := tokens[HeaderLength..], longer[HeaderLength..];
    assert sections2 == sections + extra;
    assert sections2[..|sections|] == sections;
    var count := ParseNat(sections[7], 16).value;
    assert sections2[8..8 + count] == sections[8..8 + count];
  }
}
