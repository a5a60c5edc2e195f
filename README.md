# SICK LMS scan telegram receiver, modelled in Dafny

The program reads a byte stream from a SICK LMS laser scanner. The stream arrives over a serial
port in chunks. Each chunk is appended to a buffer. Every complete telegram between STX (0x02)
and ETX (0x03) is cut off the front of the buffer. The telegram is turned into text and decoded
as a CoLa-A `LMDscandata` answer into distances and angles. A telegram that does not decode is
dropped. The last scan that decoded is kept for display.

This project models that core in six modules:

- `Util`: the `Option` type and small sequence lemmas.
- `Text`: the string operations the decoder depends on. These are Python's `str.strip()`,
  `str.split(" ")` and `int(token, radix)`. The module also has their partners: joining tokens
  with single spaces, and formatting a number as upper-case digits.
- `ScanData`: `parse_lmdscandata`, with every error condition as a `DecodeError` value. The
  module also gives an independent description of the accepted telegrams and of what they mean
  (`Accepted`, `Describes`), and lemmas connecting the decoder to that description.
- `Encoding`: the sensor's side, a `Telegram` value rendered as CoLa-A text. It is the inverse
  partner of the decoder: every well-formed telegram decodes to the scan it carries.
- `Framing`: the receive buffer as a class, `FrameExtractor`. Its `Feed` method runs the
  extraction loop in place. The method is proved against the function `Extract`. The module
  also proves the properties of `Extract`: draining, uniqueness of a cut, and independence
  from chunking.
- `Receiver`: the receive loop as the class `ScanReceiver`. It holds the frame buffer and the
  last scan. `Process` decodes each frame the buffer yields and keeps the successes.

Distances are in millimetres. Angles are kept in the telegram's unit of 1/10000 degree.

## Model

| member | source | states |
|---|---|---|
| Text.Strip | main.py:11 | the result is the input with only a white-space prefix and a white-space suffix removed, and it neither starts nor ends with white space (Python's `isspace` set) |
| Text.AsciiSpaces | main.py:11 | within ASCII, the white space `strip()` removes is exactly tab, line feed, vertical tab, form feed, carriage return, 0x1C-0x1F and space; no printable character is white space |
| Text.StripIdempotent | main.py:11 | stripping twice is stripping once |
| Text.StripKeeps | main.py:11 | a string without white space at its ends is left unchanged |
| Text.Split | main.py:11 | `split(" ")` gives at least one token, no token holds a space, and joining the tokens with single spaces restores the input |
| Text.SplitJoin | main.py:11 | splitting the join of space-free tokens gives the tokens back |
| Text.DoubleSpace | main.py:11 | two adjacent spaces give an empty token between their neighbours |
| Text.DigitsValue | main.py:43-45 | the value of a digit string, most significant digit first, is below the radix to the power of its length |
| Text.ParseNat | main.py:27 | `int(s, radix)` succeeds exactly when `s` is a non-empty string of digits of the radix |
| Text.DigitsDefined | main.py:43-45 | a digit string has a value exactly when every character is a digit of the radix |
| Text.ParseFormat | main.py:43-45 | parsing the formatted number gives the number back |
| Text.Format | main.py:51 | the inverse partner of `int(v, 16)` (see `Text.ParseFormat`): a formatted number is non-empty and made of upper-case digits only |
| Text.JoinPrintable | main.py:11 | joining printable tokens gives printable ASCII text |
| ScanData.Tokenize | main.py:11 | `strip().split(" ")` gives at least one token, no token holds a space, and the tokens joined by single spaces are the stripped text |
| ScanData.IsScanCommand | main.py:20 | the first two tokens are `sRA LMDscandata` or `sSN LMDscandata` |
| ScanData.ScaleFactor | main.py:41 | the multiplier is 1 or 2, and it is 1 exactly for pattern 3F800000 |
| ScanData.Number | main.py:27 | the number is produced exactly when the token parses; otherwise the error is `MalformedNumber` |
| ScanData.Distances | main.py:50-51 | the readings decode exactly when every one is hexadecimal; distance i is reading i times the scale factor |
| ScanData.Angles | main.py:53-55 | one angle per reading, starting at the start angle and growing by the angle step |
| ScanData.DecodeTokens | main.py:13-21 | `TooShort` exactly when there are fewer than 30 tokens; `NotScanData` exactly when there are enough tokens but the command is not sRA/sSN LMDscandata; a scan has one angle per distance |
| ScanData.DecodeSections | main.py:23-25 | `SectionsTooShort` exactly when there are fewer than 8 sections; header errors never come from the sections; a scan has one angle per distance |
| ScanData.DecodeReadings | main.py:43-51 | the readings stage fails only with `MalformedNumber` or `NotEnoughValues`; `NotEnoughValues` exactly when sections 5-7 parse and fewer than 8 + count sections exist; a scan has one angle per distance |
| ScanData.Decode | main.py:10-21 | `TooShort` and `NotScanData` of the whole telegram text, each stated as an if-and-only-if on its tokens; a scan has one angle per distance |
| ScanData.SectionChecksInOrder | main.py:27-41 | each section error is returned exactly when every earlier check passed and its own check failed; a section 0 that is not a number, or a section 1 that is not a number after a passing section 0, gives `MalformedNumber` |
| ScanData.SectionsOf | main.py:27-41 | proof step for the round trip: when all section checks pass, the result is that of the readings stage with the scale factor (the meaning is stated by `ScanData.DecodeSpec`) |
| ScanData.ReadingsOf | main.py:43-57 | proof step for the round trip: when the angles, the count and the readings parse, the scan is those distances with the angles from the start angle in steps (the meaning is stated by `ScanData.ReadingsSpec`) |
| ScanData.ReadingsSpec | main.py:43-57 | the readings decode exactly when they are well formed, and then to the scan the sections describe |
| ScanData.DecodeSpec | main.py:10-57 | the decoder accepts exactly the telegrams of `Accepted`, and an accepted telegram decodes to the scan it describes |
| ScanData.OffsetIgnored | main.py:38-45 | section 4, the scale offset, does not affect the result |
| ScanData.ScaleDoubles | main.py:39-41 | pattern 40000000 gives twice the distances of 3F800000, the same angles and the same errors |
| ScanData.TrailingIgnored | main.py:47-50 | tokens after the announced readings do not change what an accepted telegram decodes to |
| Encoding.HexFieldsParse | main.py:51 | each hexadecimal reading field parses back to its reading |
| Encoding.DecodeTokensRoundTrip | main.py:13-57 | the fields of every well-formed telegram decode to the scaled readings and their angles |
| Encoding.DecodeRoundTrip | main.py:10-57 | the text of every well-formed telegram decodes to the scan it carries |
| Encoding.RenderPrintable | main.py:10-11 | the text of a well-formed telegram is printable ASCII |
| Encoding.TwoReadingsExample | main.py:10-57 | a concrete telegram with readings 5 and 2 decodes to distances [5, 2] and angles [0, 0] |
| Encoding.ShortTelegramRejected | main.py:13-14 | a 27-field telegram is rejected as too short |
| Framing.Find | main.py:163-164 | `bytes.find`: the first position at or after `from` holding the byte, or -1 when there is none |
| Framing.NextFrame | main.py:163-169 | a cut has STX-free noise, an ETX-free payload, and together with the two markers covers the buffer |
| Framing.NextFrameSplits | main.py:163-169 | the buffer is noise, STX, payload, ETX and the rest, in that order |
| Framing.MarkerMissing | main.py:162 | without an STX or without an ETX nothing is cut |
| Framing.NextFrameFinds | main.py:162-166 | a frame is cut exactly when some STX is followed by an ETX |
| Framing.ExtractStep | main.py:163-169 | one loop turn: the first frame is the payload between the first STX and the next ETX, and draining continues after that ETX |
| Framing.CutUnique | main.py:163-169 | any split into STX-free noise, STX, ETX-free payload, ETX and rest is the one cut |
| Framing.SpuriousStartKept | main.py:163-168 | a second STX before the ETX stays inside the payload |
| Framing.Extract | main.py:162-169 | the residue is no longer than the buffer and no frame contains an ETX |
| Framing.ExtractDrains | main.py:162-166 | after draining, no STX in the buffer is followed by an ETX |
| Framing.ExtractIdle | main.py:162-166 | a buffer without a complete frame is kept whole, noise included; one with a frame yields one and shrinks |
| Framing.ExtractAppend | main.py:158-169 | draining `a` and then the residue plus `b` gives the frames and residue of draining `a + b` |
| Framing.ChunkingInvariant | main.py:156-169 | however the stream is cut into chunks, the frames and the residue are those of the whole stream |
| Framing.FrameExtractor.constructor | main.py:91 | the buffer starts empty, which holds no complete frame |
| Framing.FrameExtractor.Feed | main.py:158-169 | the frames returned and the new buffer are the draining of the old buffer plus the chunk, and the buffer holds no complete frame afterwards |
| Receiver.FrameText | main.py:172 | one character per byte |
| Receiver.FrameTextAscii | main.py:172 | decoding the bytes of ASCII text gives the text back |
| Receiver.DecodeFrame | main.py:172-173 | a frame decodes as its text does: never `SectionsTooShort`, `TooShort` exactly when its text has fewer than 30 tokens, and a scan has one angle per distance |
| Receiver.Decoded | main.py:171-185 | no more scans than frames, and every scan is the decoding of one of the frames |
| Receiver.Latest | main.py:177 | the current scan is the last scan received, or the previous one when none was received |
| Receiver.DecodedAppend | main.py:171-185 | frames decode independently: the scans of `a + b` are those of `a` then those of `b` |
| Receiver.FailedFrameSkipped | main.py:184-185 | a frame that fails to decode is dropped without affecting its neighbours |
| Receiver.DecodedAllOk | main.py:171-177 | when every frame decodes there is one scan per frame, in frame order |
| Receiver.DecodedNoneOk | main.py:184-185 | when no frame decodes there is no scan |
| Receiver.LatestAppend | main.py:177 | receiving two runs of scans leaves the same last scan as receiving them at once |
| Receiver.ChunkedScans | main.py:156-185 | the scans received do not depend on how the stream is cut into chunks |
| Receiver.TelegramReceived | main.py:158-173 | a well-formed telegram framed after STX-free noise is the first frame cut and decodes to the scan it carries |
| Receiver.ScanReceiver.constructor | main.py:133-134 | there is no last scan yet, and the frame buffer starts empty |
| Receiver.ScanReceiver.Dispatch | main.py:171-185 | the scans returned are the decodable frames' scans in frame order, and the last scan is the last of them or the previous one |
| Receiver.ScanReceiver.Process | main.py:158-185 | the new buffer is the residue of draining, the scans are the decodable frames' scans in order, and the last scan is the last of them or the previous one |

## Left out

- The serial port is not modelled: opening it, `read(4096)` and the start/stop commands (main.py:79-89, 188-196). `Process` takes the chunk read as a parameter.
- Plotting, the rotation slider and the mouse read-out (main.py:93-153, 178-182) are not modelled. They are user interface only.
- `polar_to_cartesian` and `apply_rotation` (main.py:60-75) are not modelled. They are floating-point trigonometry.
- ScanData.Angles: keeps the angles in 1/10000 degree. The source divides them by 10000.0 into floating-point degrees (main.py:53-55).
- ScanData.Angles: does not model the overflow of that division. A start angle (section 5) or angle step (section 6) of 2^1024 or more, for example `1` followed by 256 hexadecimal zeros, makes `/ 10000.0` raise `OverflowError` at main.py:53 or 54. The model decodes such a telegram to a scan. The same happens in the source for a distance of 2^1024 or more, inside the left-out `polar_to_cartesian` (main.py:61).
- Receiver.ScanReceiver.Process: does not model the end of the receive loop on that `OverflowError`. `except ValueError` at main.py:184 does not catch it, so in the source the loop ends and main.py:195-198 closes the port. The model keeps such a scan as the last scan and goes on with the next frame.
- Receiver.FrameText: does not model UTF-8 decoding of multi-byte sequences. Any byte of 0x80 or above becomes one U+FFFD. Python turns a valid multi-byte sequence into its character, and an incomplete multi-byte prefix into a single U+FFFD. The two agree on ASCII telegrams, which is what the sensor sends. U+FFFD is not white space, so the tokens line up either way. The outcome can differ in two cases. The first is text that starts or ends with a multi-byte white-space character such as U+00A0, which Python strips and the model does not. The second is a numeric field (main.py:27, 31, 43-45, 51) holding a multi-byte digit such as U+FF10 or multi-byte white space such as U+00A0. Python's `int` maps these to ASCII digits and white space before it parses, so the field parses in the source. In the model the field holds U+FFFD and gives `MalformedNumber`.
- Text.ParseNat: accepts only plain digit strings. Python's `int` also accepts a sign, surrounding white space, underscores between digits, a `0x` prefix in radix 16 and non-ASCII digits. The sensor writes plain digits.
- Text.ParseNat: has no length limit. CPython 3.11 and later rejects a base-10 string of more than 4300 digits (`int_max_str_digits`), which would make main.py:27 and 31 raise `ValueError`. The model accepts such a string. Base 16 has no such limit.
- Receiver.ScanReceiver: keeps the last decoded `Scan` instead of the Cartesian points `last_x`, `last_y`. Those are a float function of the scan.
- Receiver.ScanReceiver.Process: cuts all frames of a chunk first and then decodes them in order. The source interleaves cutting and decoding, which gives the same frames, scans and final state because decoding does not touch the buffer.
- `KeyboardInterrupt` handling (main.py:187-198) is not modelled. It is process control around the loop.
- ScanData.DecodeSections: the `SectionsTooShort` error (main.py:24-25) is modelled but cannot occur. At least 30 tokens always leave at least 12 sections.
