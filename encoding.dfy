/** The sensor's side of the `LMDscandata` telegram: a description of a scan telegram and
    its rendering as CoLa-A text. It is the partner of the decoder: every telegram built
    here decodes to the scan it carries (main.py:10-57 read backwards). */
module Encoding {
  import opened Util
  import opened Text
  import opened ScanData

  /** The two scale factors the decoder accepts. */
  datatype ScaleField = Unit | Double {
    function Pattern(): string {
      if Unit? then ScaleOne else ScaleTwo
    }

    function Multiplier(): nat {
      if Unit? then 1 else 2
    }
  }

  /** A scan telegram: command type, the 16 header fields after the command name (version,
      device status, counters, frequencies, ...), the number of 16-bit channel blocks, the
      scale, the scale offset field the decoder skips, start angle and angle step in
      1/10000 degree, the raw readings, and whatever follows the readings (remission
      channels, position, name, timestamp, ...). */
  datatype Telegram = Telegram(
    command: string,
    header: seq<string>,
    channelBlocks: nat,
    scale: ScaleField,
    offset: string,
    start: nat,
    step: nat,
    raw: seq<nat>,
    trailer: seq<string>)

  /** The telegrams a sensor sends: an sRA or sSN answer, 16 header fields, at least one
      channel block, fields of printable ASCII, at least 30 fields in all, and a last field
      that is not empty. */
  predicate WellFormed(t: Telegram) {
    (t.command == "sRA" || t.command == "sSN")
    && |t.header| == 16 && AllGraphic(t.header)
    && t.channelBlocks >= 1
    && Graphic(t.offset)
    && |t.raw| + |t.trailer| >= 4
    && AllGraphic(t.trailer)
    && (t.trailer != [] ==> Last(t.trailer) != [])
  }

  /** The readings as upper case hexadecimal fields. */
  function HexFields(raw: seq<nat>): (r: seq<string>)
    ensures |r| == |raw| && forall i :: 0 <= i < |raw| ==> r[i] == Format(raw[i], 16)
  {
    seq(|raw|, i requires 0 <= i < |raw| => Format(raw[i], 16))
  }

  /** Each hexadecimal field parses back to its reading. */
  lemma HexFieldsParse(raw: seq<nat>)
    ensures forall i :: 0 <= i < |raw| ==> ParseNat(HexFields(raw)[i], 16) == Some(raw[i])
  {
    forall i | 0 <= i < |raw| {
      ParseFormat(raw[i], 16);
    }
  }

  /** Hexadecimal fields are printable. */
  lemma HexFieldsGraphic(raw: seq<nat>)
    ensures AllGraphic(HexFields(raw))
  {
    forall i | 0 <= i < |raw| {
      FormatGraphic(raw[i], 16);
    }
  }

  /** The eight sections that come before the readings. */
  function Preamble(t: Telegram): seq<string> {
    ["0", Format(t.channelBlocks, 10), ChannelName, t.scale.Pattern(), t.offset,
     Format(t.start, 16), Format(t.step, 16), Format(|t.raw|, 16)]
  }

  /** The header: command type, command name and the 16 fields after it. */
  function Header(t: Telegram): seq<string> {
    [t.command, CommandName] + t.header
  }

  /** The telegram's fields in order. */
  function Tokens(t: Telegram): seq<string> {
    Header(t) + Preamble(t) + HexFields(t.raw) + t.trailer
  }

  /** The telegram text between STX and ETX: the fields separated by single spaces. */
  function Render(t: Telegram): string {
    Join(Tokens(t))
  }

  /** The scan a telegram carries: each raw reading times the scale factor, and the angle
      of reading i is the start angle plus i steps. */
  function Expected(t: Telegram): Scan {
    Scan(Scaled(t.raw, t.scale.Multiplier()), Angles(t.start, t.step, |t.raw|))
  }

  function Scaled(raw: seq<nat>, m: nat): (r: seq<nat>)
    ensures |r| == |raw| && forall i :: 0 <= i < |raw| ==> r[i] == raw[i] * m
  {
    seq(|raw|, i requires 0 <= i < |raw| => raw[i] * m)
  }

  /** The readings of a well-formed telegram decode to the scaled readings and their angles. */
  lemma ReadingsRoundTrip(t: Telegram)
    ensures DecodeReadings(Preamble(t) + HexFields(t.raw) + t.trailer, t.scale.Multiplier()) == Ok(Expected(t))
  {
    var vals := HexFields(t.raw);
    var sections := Preamble(t) + vals + t.trailer;
    var count := |t.raw|;
    assert sections[5] == Preamble(t)[5] && sections[6] == Preamble(t)[6] && sections[7] == Preamble(t)[7];
    assert sections[8..8 + count] == vals;
    PreambleParses(t);
    HexDistances(t.raw, t.scale.Multiplier());
    ReadingsOf(sections, t.scale.Multiplier(), t.start, t.step, count);
  }

  /** The hexadecimal fields decode to the readings times the scale factor. */
  lemma HexDistances(raw: seq<nat>, scale: nat)
    ensures Distances(HexFields(raw), scale) == Ok(Scaled(raw, scale))
  {
    HexFieldsParse(raw);
    assert Distances(HexFields(raw), scale).value == Scaled(raw, scale);
  }

  /** The angle fields and the count of the preamble parse back to their values. */
  lemma PreambleParses(t: Telegram)
    ensures ParseNat(Preamble(t)[5], 16) == Some(t.start)
    ensures ParseNat(Preamble(t)[6], 16) == Some(t.step)
    ensures ParseNat(Preamble(t)[7], 16) == Some(|t.raw|)
  {
    ParseFormat(t.start, 16);
    ParseFormat(t.step, 16);
    ParseFormat(|t.raw|, 16);
  }

  /** The section checks of a well-formed telegram all pass. */
  lemma SectionsRoundTrip(t: Telegram)
    requires WellFormed(t)
    ensures DecodeSections(Preamble(t) + HexFields(t.raw) + t.trailer) == Ok(Expected(t))
  {
    var sections := Preamble(t) + HexFields(t.raw) + t.trailer;
    PreambleChecks(t, sections);
    assert ScaleFactor(t.scale.Pattern()) == t.scale.Multiplier();
    SectionsOf(sections, t.channelBlocks);
    ReadingsRoundTrip(t);
  }

  /** The encoder block count, the channel block count, the channel name and the scale
      pattern of the preamble pass the decoder's section checks. */
  lemma PreambleChecks(t: Telegram, sections: seq<string>)
    requires WellFormed(t) && sections == Preamble(t) + HexFields(t.raw) + t.trailer
    ensures |sections| >= 8
    ensures ParseNat(sections[0], 10) == Some(0)
    ensures ParseNat(sections[1], 10) == Some(t.channelBlocks)
    ensures sections[2] == ChannelName && sections[3] == t.scale.Pattern()
  {
    var p := Preamble(t);
    assert sections[..8] == p;
    assert sections[2] == p[2] && sections[3] == p[3];
    assert sections[0] == p[0] == Format(0, 10);
    ParseFormat(0, 10);
    assert sections[1] == p[1] == Format(t.channelBlocks, 10);
    ParseFormat(t.channelBlocks, 10);
  }

  /** Every well-formed telegram's fields decode to the scan it carries. */
  lemma DecodeTokensRoundTrip(t: Telegram)
    requires WellFormed(t)
    ensures DecodeTokens(Tokens(t)) == Ok(Expected(t))
  {
    var tokens := Tokens(t);
    var sections := Preamble(t) + HexFields(t.raw) + t.trailer;
    assert tokens == Header(t) + sections by {
      AppendAssoc(Header(t), Preamble(t), HexFields(t.raw));
      AppendAssoc(Header(t), Preamble(t) + HexFields(t.raw), t.trailer);
    }
    assert |Header(t)| == HeaderLength;
    assert tokens[HeaderLength..] == sections;
    assert tokens[0] == t.command && tokens[1] == CommandName;
    SectionsRoundTrip(t);
  }

  /** Every field of a well-formed telegram is printable. */
  lemma TokensGraphic(t: Telegram)
    requires WellFormed(t)
    ensures AllGraphic(Tokens(t))
  {
    assert AllGraphic(Header(t)) by {
      assert forall i :: 2 <= i < 18 ==> Header(t)[i] == t.header[i - 2];
    }
    assert AllGraphic(Preamble(t)) by {
      FormatGraphic(t.channelBlocks, 10);
      FormatGraphic(t.start, 16);
      FormatGraphic(t.step, 16);
      FormatGraphic(|t.raw|, 16);
    }
    HexFieldsGraphic(t.raw);
    AllGraphicAppend(Header(t), Preamble(t));
    AllGraphicAppend(Header(t) + Preamble(t), HexFields(t.raw));
    AllGraphicAppend(Header(t) + Preamble(t) + HexFields(t.raw), t.trailer);
  }

  /** The first and the last field of a well-formed telegram are not empty. */
  lemma TokensEnds(t: Telegram)
    requires WellFormed(t)
    ensures Tokens(t)[0] == t.command
    ensures Last(Tokens(t)) != []
  {
    var front, hex := Header(t) + Preamble(t), HexFields(t.raw);
    assert front[0] == t.command;
    LastOfThree(front, hex, t.trailer);
  }

  /** Every well-formed telegram's text decodes to the scan it carries. */
  lemma DecodeRoundTrip(t: Telegram)
    requires WellFormed(t)
    ensures Decode(Render(t)) == Ok(Expected(t))
  {
    var tokens := Tokens(t);
    TokensGraphic(t);
    TokensEnds(t);
    forall i | 0 <= i < |tokens| {
      GraphicPlain(tokens[i]);
    }
    GraphicPlain(Last(tokens));
    JoinFirst(tokens);
    JoinLast(tokens);
    StripKeeps(Join(tokens));
    SplitJoin(tokens);
    DecodeTokensRoundTrip(t);
  }

  /** The text of a well-formed telegram is printable ASCII: it holds neither STX nor ETX
      and survives the byte-to-text decoding unchanged. */
  lemma RenderPrintable(t: Telegram)
    requires WellFormed(t)
    ensures forall i :: 0 <= i < |Render(t)| ==> ' ' <= Render(t)[i] <= '~'
  {
    TokensGraphic(t);
    JoinPrintable(Tokens(t));
  }

  /** A concrete telegram: an sSN event with two readings 5 and 2 at scale 1.0, start angle
      0 and step 0, followed by the two empty remission/position counts the sensor sends. */
  lemma TwoReadingsExample()
    ensures var t := Telegram("sSN", seq(16, _ => "0"), 1, Unit, "0", 0, 0, [5, 2], ["0", "0"]);
      WellFormed(t) && Decode(Render(t)) == Ok(Scan([5, 2], [0, 0]))
  {
    var t := Telegram("sSN", seq(16, _ => "0"), 1, Unit, "0", 0, 0, [5, 2], ["0", "0"]);
    assert WellFormed(t) by {
      assert Graphic("0");
    }
    DecodeRoundTrip(t);
    assert Expected(t) == Scan([5, 2], [0, 0]) by {
      assert Scaled([5, 2], 1) == [5, 2];
      assert Angles(0, 0, 2) == [0, 0];
    }
  }

  /** Twenty-seven fields are too few: such a telegram is rejected before any field is read. */
  lemma ShortTelegramRejected()
    ensures var tokens := ["sSN", CommandName] + seq(16, _ => "0") + ["0", "1", "0", ChannelName, ScaleOne, "0", "0", "5", "2"];
      |tokens| == 27 && Decode(Join(tokens)) == Err(TooShort)
  {
    var tokens := ["sSN", CommandName] + seq(16, _ => "0") + ["0", "1", "0", ChannelName, ScaleOne, "0", "0", "5", "2"];
    assert AllGraphic(tokens);
    forall i | 0 <= i < |tokens| {
      GraphicPlain(tokens[i]);
    }
    GraphicPlain(tokens[0]);
    GraphicPlain(Last(tokens));
    JoinFirst(tokens);
    JoinLast(tokens);
    StripKeeps(Join(tokens));
    SplitJoin(tokens);
  }
}
