# pyipr_sensor_lib telegram pipeline in Dafny

This project models the telegram pipeline of `pyipr_sensor_lib`. The pipeline turns bytes captured from an IPR strain, environment and acceleration sensor into measurements, in four stages:

- **Splitting** (module `Splitter`). The loop of `IPRSensorDecoder.load_from_binary_file` cuts the captured bytes at every 0x08 delimiter. It renders each segment as lowercase hex text (module `Hex`).
- **De-stuffing** (module `Stuffing`, and `IprParser.Parser.HexToByte` with its loop `IprParser.UnescapeChunks`). The parser chunks a telegram into bytes, turns `07 55` into 0x08 and `07 aa` into 0x07, and drops every other pair that starts with 0x07.
- **Validation and extraction** (modules `Layout` and `IprParser`).
  - `parser_check_telegram_validity` tests a one-bit CRC on the first byte as received, and demands more than 20 hex characters. It records each rejected telegram in a list and a counter.
  - The `parser_get_*` methods read the header and the fields of each packet kind from fixed mask and shift windows, into the parser's arrays.
  - Each field is proved equal to a window of the telegram read as a little-endian bit stream (module `Bits`), and proved bounded by the width of that window.
- **Scaling and the decoder facade** (modules `Scaling` and `IprSensorDecoder`).
  - `convert_numeric_to_scale` is an affine map that sends 0 to 0. It sends every other value v to `slope * v + out_min - slope`.
  - `analyse_packet` builds a fresh parser for each telegram, dispatches on the packet id, and sets `packet_type` and `is_packet_valid`. Their resulting values are specified by the function `IprSensorDecoder.Analyse`.

How the model represents the source:

- **Telegrams.** A telegram is held as its bytes. The hex text that the parser receives is `Hex.ToHex` of those bytes, so `len(telegram)` is `Hex.HexLength`, twice the byte count.
- **Raw and scaled values.** Raw field values are unbounded integers and scaled values are reals.
- **Classes.** The parser and the decoder are classes. Their fields and fixed-size arrays are updated in place, as the source does.
- **IndexError.** Reading past the end of the de-stuffed bytes raises an IndexError in the source. The model returns an `IndexError` outcome instead, after writing the same fields the source writes before it raises.

The model keeps these behaviours of the code:

- A valid telegram with id 3 matches none of the three branches of `ipr_sensor_decoder.py:141-170`, so both decoder flags keep their values (`IprSensorDecoder.UnknownIdIgnored`).
- Reading fields past the end of the de-stuffed bytes raises an IndexError (`ipr_parser.py:138-237`), which escapes `analyse_packet` and leaves the fields written so far in the arrays.
- The splitter at `ipr_sensor_decoder.py:76-86` only cuts at 0x08; de-stuffing happens afterwards, in `parser_hex_to_byte` (`ipr_parser.py:93-109`).
- `analyse_packet` builds a fresh parser at `ipr_sensor_decoder.py:132`, so after each call the rejection list holds at most that one telegram and the counter is 0 or 1.
- The escape pair is compared with the lowercase text `"aa"` (`ipr_parser.py:101`).
- The environment and acceleration branches need 20 hex characters (`ipr_parser.py:14-15`), and the humidity field masks byte 8 with 0x03 (`ipr_parser.py:224`).
- The parser's arrays start at -1 (`ipr_parser.py:36-45`); a getter that scales an array no branch wrote scales that -1 (`Scaling.SentinelOutOfRange`).

One consequence of checking the CRC on the received first byte is stated as `IprSensorDecoder.StuffedDelimiterFirstRejected`:

- A payload that starts with 0x08 passes the CRC.
- Once stuffed, it starts with 0x07, which fails the CRC.
- So such a packet is rejected.

## Model

| member | source | states |
|---|---|---|
| Splitter.LoadFromBinaryFile | pyipr_sensor_lib/ipr_sensor_decoder.py:76-86 | returns one packet per 0x08 byte of the input; the i-th packet is the hex text of the i-th telegram closed by a delimiter |
| Splitter.Pending | pyipr_sensor_lib/ipr_sensor_decoder.py:77-84 | the bytes held in `tmp_str` contain no delimiter and are no more than the input |
| Splitter.Telegrams | pyipr_sensor_lib/ipr_sensor_decoder.py:79-84 | there are exactly as many telegrams as 0x08 bytes in the input, and none contains 0x08 |
| Splitter.SplitRoundTrip | pyipr_sensor_lib/ipr_sensor_decoder.py:79-84 | the telegrams, each followed by 0x08, and then the pending tail, rebuild the input |
| Splitter.SplitUnique | pyipr_sensor_lib/ipr_sensor_decoder.py:79-84 | delimiter-free telegrams, framed and followed by a delimiter-free tail, split back into exactly those telegrams and that tail |
| Splitter.TailDiscarded | pyipr_sensor_lib/ipr_sensor_decoder.py:82-86 | appending bytes without a delimiter adds no telegram; it only extends the dropped tail |
| Splitter.AdjacentDelimiters | pyipr_sensor_lib/ipr_sensor_decoder.py:80-82 | two adjacent delimiters yield an empty telegram |
| Splitter.NoDelimiterChunk | pyipr_sensor_lib/ipr_sensor_decoder.py:84 | no aligned two-character chunk of a packet is "08" |
| Splitter.PacketsReframe | pyipr_sensor_lib/ipr_sensor_decoder.py:79-86 | hex-decoding the packets gives the telegrams back, and those, each with its 0x08, rebuild the input up to and including its last 0x08 |
| Hex.ByteToHex | pyipr_sensor_lib/ipr_sensor_decoder.py:84 | a byte renders as two lowercase hex digits |
| Hex.ByteToHexInjective | pyipr_sensor_lib/ipr_sensor_decoder.py:84 | distinct bytes render differently |
| Hex.ByteHexRoundTrip | pyipr_sensor_lib/ipr_sensor_decoder.py:84 | reading a rendered byte back with base 16 gives the byte |
| Hex.DigitValue | pyipr_sensor_lib/ipr_parser.py:140 | a character has a value exactly when it is a lowercase hex digit, and that digit renders the value |
| Hex.ChunkToByte | pyipr_sensor_lib/ipr_parser.py:140 | a two-character chunk reads as a byte exactly when both characters are hex digits |
| Hex.HexLength | pyipr_sensor_lib/ipr_parser.py:127 | `len(telegram)` is the length of the hex text of the telegram's bytes |
| Hex.HexRoundTrip | pyipr_sensor_lib/ipr_parser.py:90-91 | reading hex text back two characters at a time gives the original bytes |
| Hex.ToHexAppend | pyipr_sensor_lib/ipr_sensor_decoder.py:84 | appending a byte appends its two digits to the text |
| Hex.ToHex | pyipr_sensor_lib/ipr_sensor_decoder.py:84 | the `tmp_str` text of a telegram, the text the parser receives: two characters per byte, every one a lowercase hex digit |
| Hex.ToHexChunk | pyipr_sensor_lib/ipr_parser.py:90-91 | the i-th two-character chunk of the text is the rendering of the i-th byte |
| Stuffing.Unescaped | pyipr_sensor_lib/ipr_parser.py:97-102 | after 0x07, 0x55 stands for 0x08, 0xaa for 0x07, and any other byte for nothing |
| Stuffing.Unescape | pyipr_sensor_lib/ipr_parser.py:94-107 | de-stuffing never lengthens the chunks |
| Stuffing.Destuff | pyipr_sensor_lib/ipr_parser.py:93-109 | fewer than two chunks are left unchanged and never lengthened |
| Stuffing.UnescapeEscaped | pyipr_sensor_lib/ipr_parser.py:97-102 | an escape and the byte after it produce that byte's meaning, then the rest is de-stuffed |
| Stuffing.UnescapeCopied | pyipr_sensor_lib/ipr_parser.py:103-107 | a byte that is not an escape is copied, then the rest is de-stuffed |
| Stuffing.Stuff | pyipr_sensor_lib/ipr_parser.py:97-102 | the sender's escaping never shortens a payload and leaves no 0x08 in it |
| Stuffing.UnescapeStuff | pyipr_sensor_lib/ipr_parser.py:94-107 | de-stuffing a stuffed payload gives the payload |
| Stuffing.DestuffStuff | pyipr_sensor_lib/ipr_parser.py:93-109 | `parser_hex_to_byte`'s de-stuffing recovers every stuffed payload, short ones included |
| Stuffing.UnescapePlain | pyipr_sensor_lib/ipr_parser.py:103-107 | chunks without an escape byte are copied unchanged |
| Stuffing.FrameRoundTrip | pyipr_sensor_lib/ipr_sensor_decoder.py:79-84 | stuffed payloads, framed with 0x08 and split again, come back as the stuffed payloads, which de-stuff to the payloads |
| Layout.ComputeCrc | pyipr_sensor_lib/ipr_parser.py:54-59 | the XOR of bits 1 and 0 of byte 0; proved to be even parity of bits 0..2 by CrcIsEvenParity |
| Layout.CrcMatches | pyipr_sensor_lib/ipr_parser.py:127 | the CRC bit of byte 0 equals the computed CRC |
| Layout.Id | pyipr_sensor_lib/ipr_parser.py:140 | byte 0 masked with 0x03 (stream bits 0..1, IdWindow) |
| Layout.IdCrc | pyipr_sensor_lib/ipr_parser.py:164 | bit 2 of byte 0 (IdCrcWindow) |
| Layout.Sequence | pyipr_sensor_lib/ipr_parser.py:169 | byte 0 masked with 0x38, unshifted (SequenceWindow) |
| Layout.Timestamp | pyipr_sensor_lib/ipr_parser.py:177-181 | the five-term sum over bytes 0..4 (stream bits 6..32, TimestampWindow) |
| Layout.StrainX | pyipr_sensor_lib/ipr_parser.py:200 | the masks and shifts of strain X (StrainXWindow) |
| Layout.StrainY | pyipr_sensor_lib/ipr_parser.py:201-202 | the masks and shifts of strain Y (StrainYWindow) |
| Layout.StrainZ | pyipr_sensor_lib/ipr_parser.py:203 | the masks and shifts of strain Z (StrainZWindow) |
| Layout.StrainP1 | pyipr_sensor_lib/ipr_parser.py:206 | the masks and shifts of P1 (StrainP1Window) |
| Layout.StrainP2 | pyipr_sensor_lib/ipr_parser.py:207-209 | the masks and shifts of P2 (StrainP2Window, P2Hole) |
| Layout.StrainAngle | pyipr_sensor_lib/ipr_parser.py:210 | the masks and shifts of the angle (StrainAngleWindow) |
| Layout.StrainFields | pyipr_sensor_lib/ipr_parser.py:191-211 | the six values `parser_get_strain` returns on a complete telegram: field i is the i-th strain reading (X, Y, Z, P1, P2, angle) |
| Layout.Battery | pyipr_sensor_lib/ipr_parser.py:222 | the masks and shifts of the battery (BatteryWindow, BatteryHole) |
| Layout.Pressure | pyipr_sensor_lib/ipr_parser.py:223 | the masks and shifts of the pressure (PressureWindow) |
| Layout.Humidity | pyipr_sensor_lib/ipr_parser.py:224 | the masks and shifts of the humidity (HumidityWindow) |
| Layout.Temperature | pyipr_sensor_lib/ipr_parser.py:225 | the masks and shifts of the temperature (TemperatureWindow) |
| Layout.EnvironmentFields | pyipr_sensor_lib/ipr_parser.py:213-226 | the four values `parser_get_environment` returns on a complete telegram: battery, pressure, humidity, temperature in that order |
| Layout.AccX | pyipr_sensor_lib/ipr_parser.py:233 | the masks and shifts of acceleration X (AccXWindow) |
| Layout.AccY | pyipr_sensor_lib/ipr_parser.py:234-235 | the masks and shifts of acceleration Y (AccYWindow) |
| Layout.AccZ | pyipr_sensor_lib/ipr_parser.py:236 | the masks and shifts of acceleration Z (AccZWindow) |
| Layout.AccelerationFields | pyipr_sensor_lib/ipr_parser.py:228-237 | the three values `parser_get_acceleration` returns on a complete telegram: X, Y, Z in that order |
| Layout.CrcIsEvenParity | pyipr_sensor_lib/ipr_parser.py:54-59 | the CRC comparison holds exactly when bits 0, 1 and 2 of byte 0 have even parity |
| Layout.CrcRejectsC4 | pyipr_sensor_lib/ipr_parser.py:54-59 | byte 0xc4 has id 0 and CRC bit 1 but computes 0, so it fails the CRC |
| Layout.IdWindow | pyipr_sensor_lib/ipr_parser.py:140 | the id is stream bits 0..1 |
| Layout.IdCrcWindow | pyipr_sensor_lib/ipr_parser.py:164 | the CRC bit is stream bit 2 |
| Layout.SequenceWindow | pyipr_sensor_lib/ipr_parser.py:169 | the sequence is stream bits 3..5, left unshifted (times 8) |
| Layout.TimestampWindow | pyipr_sensor_lib/ipr_parser.py:177-181 | the timestamp is stream bits 6..32 |
| Layout.HeaderWindows | pyipr_sensor_lib/ipr_parser.py:138-182 | the four header fields fill stream bits 0..32 without gaps |
| Layout.ByteZeroBounds | pyipr_sensor_lib/ipr_parser.py:138-170 | id < 4, CRC bit <= 1, sequence a multiple of 8 at most 56 |
| Layout.TimestampBound | pyipr_sensor_lib/ipr_parser.py:177-181 | the timestamp is below 2^27 |
| Layout.HeaderBounds | pyipr_sensor_lib/ipr_parser.py:138-182 | all header bounds at once |
| Layout.StrainXWindow | pyipr_sensor_lib/ipr_parser.py:200 | strain X is stream bits 33..45 |
| Layout.StrainYWindow | pyipr_sensor_lib/ipr_parser.py:201-202 | strain Y is stream bits 46..58 |
| Layout.StrainZWindow | pyipr_sensor_lib/ipr_parser.py:203 | strain Z is stream bits 59..71 |
| Layout.StrainP1Window | pyipr_sensor_lib/ipr_parser.py:206 | P1 is stream bits 72..84 |
| Layout.StrainP2Window | pyipr_sensor_lib/ipr_parser.py:207-209 | P2 is stream bits 85..92 plus bits 96..97 placed at bit 11, skipping 93..95 |
| Layout.StrainAngleWindow | pyipr_sensor_lib/ipr_parser.py:210 | the angle is stream bits 98..110 |
| Layout.StrainWindows | pyipr_sensor_lib/ipr_parser.py:199-210 | all six strain windows at once |
| Layout.StrainBounds | pyipr_sensor_lib/ipr_parser.py:200-210 | every strain field is below 8192; P2 has bits 8..10 clear and is at most 6399 |
| Layout.P2Hole | pyipr_sensor_lib/ipr_parser.py:207-209 | P2 never sets bits 8..10 |
| Layout.StrainDependsOnItsBits | pyipr_sensor_lib/ipr_parser.py:200-210 | telegrams that agree on stream bits 33..110, except 93..95, have the same strain fields |
| Layout.StrainXyzDepend | pyipr_sensor_lib/ipr_parser.py:200-203 | X, Y and Z depend on stream bits 33..71 only |
| Layout.StrainPrincipalDepend | pyipr_sensor_lib/ipr_parser.py:206-210 | P1, P2 and the angle depend on stream bits 72..110 except 93..95 only |
| Layout.BatteryWindow | pyipr_sensor_lib/ipr_parser.py:222 | the battery is stream bits 33..39 plus bit 41 placed at bit 8, skipping bit 40 |
| Layout.PressureWindow | pyipr_sensor_lib/ipr_parser.py:223 | the pressure is stream bits 42..55 |
| Layout.HumidityWindow | pyipr_sensor_lib/ipr_parser.py:224 | the humidity is stream bits 56..65 |
| Layout.TemperatureWindow | pyipr_sensor_lib/ipr_parser.py:225 | the temperature is stream bits 66..76 |
| Layout.EnvironmentWindows | pyipr_sensor_lib/ipr_parser.py:222-225 | all four environment windows at once |
| Layout.EnvironmentBounds | pyipr_sensor_lib/ipr_parser.py:222-225 | battery < 512, pressure < 16384, humidity < 1024, temperature < 2048; battery bit 7 clear |
| Layout.BatteryHole | pyipr_sensor_lib/ipr_parser.py:222 | the battery never sets bit 7 and is at most 383 |
| Layout.EnvironmentDependsOnItsBits | pyipr_sensor_lib/ipr_parser.py:222-225 | telegrams that agree on stream bits 33..76, except 40, have the same environment fields |
| Layout.BatteryPressureDepend | pyipr_sensor_lib/ipr_parser.py:222-223 | battery and pressure depend on stream bits 33..55 except 40 only |
| Layout.HumidityTemperatureDepend | pyipr_sensor_lib/ipr_parser.py:224-225 | humidity and temperature depend on stream bits 56..76 only |
| Layout.AccXWindow | pyipr_sensor_lib/ipr_parser.py:233 | acceleration X is stream bits 33..44 |
| Layout.AccYWindow | pyipr_sensor_lib/ipr_parser.py:234-235 | acceleration Y is stream bits 45..56 |
| Layout.AccZWindow | pyipr_sensor_lib/ipr_parser.py:236 | acceleration Z is stream bits 57..68 |
| Layout.AccelerationWindows | pyipr_sensor_lib/ipr_parser.py:233-236 | all three acceleration windows at once |
| Layout.AccelerationBounds | pyipr_sensor_lib/ipr_parser.py:233-236 | every acceleration field is below 4096 |
| Layout.AccelerationDependsOnItsBits | pyipr_sensor_lib/ipr_parser.py:233-236 | telegrams that agree on stream bits 33..68 have the same acceleration fields |
| Scaling.Slope | pyipr_sensor_lib/ipr_parser.py:78 | `_slope` times the input span is the output span, and a rising range has a positive slope |
| Scaling.ConvertNumericToScale | pyipr_sensor_lib/ipr_parser.py:62-82 | a raw 0 always scales to 0 |
| Scaling.ScaleOnLine | pyipr_sensor_lib/ipr_parser.py:78-81 | a nonzero value lies on the line of the range's slope through (1, out_min) |
| Scaling.ScaleEnds | pyipr_sensor_lib/ipr_parser.py:78-81 | 1 scales to out_min, and with in_min = 1, in_max scales to out_max |
| Scaling.ScaleAffine | pyipr_sensor_lib/ipr_parser.py:78-81 | for nonzero a and b, scale(a) - scale(b) = slope * (a - b) |
| Scaling.ScaleIncreasing | pyipr_sensor_lib/ipr_parser.py:78-81 | with a rising range, the scale is strictly increasing on nonzero values |
| Scaling.ParserRangesWellFormed | pyipr_sensor_lib/ipr_parser.py:241-275 | every range the parser uses has in_min = 1, in_max > 1, a rising output and 0 within it |
| Scaling.ScaleInRange | pyipr_sensor_lib/ipr_parser.py:241-275 | a raw value from 0 to in_max scales into the output range |
| Scaling.SentinelOutOfRange | pyipr_sensor_lib/ipr_parser.py:36-45 | the initial raw value -1 scales to below out_min |
| Scaling.Midpoints | pyipr_sensor_lib/ipr_parser.py:241-275 | raw 4096 scales to 0 strain and 0 degrees, raw 2048 to 0 g |
| Scaling.RangeEnds | pyipr_sensor_lib/ipr_parser.py:241-275 | each parser range maps 1 to out_min and in_max to out_max (e.g. strain 8191 to 3000) |
| IprParser.HeaderWritten | pyipr_sensor_lib/ipr_parser.py:184-189 | without 5 bytes the timestamp keeps its previous value |
| IprParser.StrainWritten | pyipr_sensor_lib/ipr_parser.py:191-211 | with 14 bytes every strain field is written; with fewer than 6, none |
| IprParser.EnvironmentWritten | pyipr_sensor_lib/ipr_parser.py:213-226 | with 10 bytes every environment field is written; with fewer than 6, none |
| IprParser.AccelerationWritten | pyipr_sensor_lib/ipr_parser.py:228-237 | with 9 bytes every acceleration field is written; with fewer than 6, none |
| IprParser.IsValidTelegram | pyipr_sensor_lib/ipr_parser.py:111-136 | accepted exactly when non-empty, the CRC bit of the raw first byte matches, and the hex text exceeds 20 characters |
| IprParser.IdName | pyipr_sensor_lib/ipr_parser.py:143-160 | ids 0, 1, 2 are STRAIN, ENVIRONMENT, ACCELERATION; any other is PACKET ERROR |
| IprParser.ScaledStrain | pyipr_sensor_lib/ipr_parser.py:239-255 | slots 0..4 on the strain range and slot 5 on the angle range |
| IprParser.ScaledEnvironment | pyipr_sensor_lib/ipr_parser.py:257-269 | battery, pressure, humidity and temperature each on its own range |
| IprParser.ScaledAcceleration | pyipr_sensor_lib/ipr_parser.py:271-276 | the three axes on the acceleration range |
| IprParser.Parser.Snapshot | pyipr_sensor_lib/ipr_parser.py:36-45 | the contents of the six measurement arrays, each of its fixed size |
| IprParser.ScaledStrainInRange | pyipr_sensor_lib/ipr_parser.py:239-255 | scaled strains of a complete telegram lie in -3000..3000 and the angle in -90..90 |
| IprParser.ScaledEnvironmentInRange | pyipr_sensor_lib/ipr_parser.py:257-269 | scaled environment values lie in 0..4 V, 0..1200 hPa, 0..100 % and -60..115 C |
| IprParser.ScaledAccelerationInRange | pyipr_sensor_lib/ipr_parser.py:271-276 | scaled accelerations lie in -16..16 g |
| IprParser.EscapeFailsCrc | pyipr_sensor_lib/ipr_parser.py:54-59 | 0x07 fails the CRC test |
| IprParser.ValidKeepsFirstByte | pyipr_sensor_lib/ipr_parser.py:123-127 | a telegram that passes the check does not start with the escape byte, so de-stuffing keeps its first byte first |
| IprParser.ResumeStep | pyipr_sensor_lib/ipr_parser.py:96-107 | one iteration of the de-stuffing loop keeps its invariant: after an escape it emits 0x08 for 0x55, 0x07 for 0xaa and nothing otherwise; outside a pair an escape emits nothing and any other chunk is copied |
| IprParser.ResumeDone | pyipr_sensor_lib/ipr_parser.py:109 | once every chunk is consumed the output is complete; an escape left open at the end is lost |
| IprParser.UnescapeChunks | pyipr_sensor_lib/ipr_parser.py:93-109 | the loop carrying `previous_byte` computes the de-stuffing rules |
| IprParser.Parser.constructor | pyipr_sensor_lib/ipr_parser.py:17-47 | empty byte list and rejection list, counter 0, no type, every array filled with -1 |
| IprParser.Parser.SetPacket | pyipr_sensor_lib/ipr_parser.py:49-51 | replaces the packet and nothing else |
| IprParser.Parser.HexToByte | pyipr_sensor_lib/ipr_parser.py:84-109 | the byte list becomes the de-stuffed first length/2 bytes |
| IprParser.Parser.CheckTelegramValidity | pyipr_sensor_lib/ipr_parser.py:111-136 | true exactly for a non-empty telegram whose CRC bit matches and whose hex text exceeds 20 characters; a rejection appends the telegram and adds exactly 1 to the counter, an acceptance changes neither; only the first chunk is decoded and only the CRC slot of the header is written |
| IprParser.Parser.GetId | pyipr_sensor_lib/ipr_parser.py:138-141 | writes and returns the id of byte 0; IndexError on no bytes |
| IprParser.Parser.GetIdName | pyipr_sensor_lib/ipr_parser.py:143-160 | names id 0, 1, 2 and anything else, and records the name as the parser's packet type |
| IprParser.Parser.GetIdCrc | pyipr_sensor_lib/ipr_parser.py:162-165 | writes and returns the CRC bit of byte 0 |
| IprParser.Parser.GetSequence | pyipr_sensor_lib/ipr_parser.py:167-170 | writes and returns the sequence bits of byte 0 |
| IprParser.Parser.GetTimestamp | pyipr_sensor_lib/ipr_parser.py:172-182 | writes and returns the timestamp; IndexError with fewer than 5 bytes |
| IprParser.Parser.GetHeader | pyipr_sensor_lib/ipr_parser.py:184-189 | writes the header fields whose bytes exist; IndexError exactly when fewer than 5 bytes |
| IprParser.Parser.GetStrain | pyipr_sensor_lib/ipr_parser.py:191-211 | writes the strain fields in order while their bytes exist; returns them, or IndexError with fewer than 14 bytes |
| IprParser.Parser.GetEnvironment | pyipr_sensor_lib/ipr_parser.py:213-226 | the same for the environment fields, complete at 10 bytes |
| IprParser.Parser.GetAcceleration | pyipr_sensor_lib/ipr_parser.py:228-237 | the same for the acceleration fields, complete at 9 bytes |
| IprParser.Parser.ScaleStrainXyz | pyipr_sensor_lib/ipr_parser.py:239-244 | scales X, Y and Z into slots 0..2 and leaves slots 3..5 as they were |
| IprParser.Parser.ScaleStrainP1P2 | pyipr_sensor_lib/ipr_parser.py:246-255 | scales P1, P2 and the angle into slots 3..5 and leaves 0..2 as they were |
| IprParser.Parser.ScaleEnvironment | pyipr_sensor_lib/ipr_parser.py:257-269 | scales each environment field with its own range |
| IprParser.Parser.ScaleAcceleration | pyipr_sensor_lib/ipr_parser.py:271-276 | scales X, Y and Z onto -16..16 g |
| IprSensorDecoder.AnalyseSound | pyipr_sensor_lib/ipr_sensor_decoder.py:141-170 | a packet marked valid afresh passed the check, its first byte names the recorded type, and its de-stuffed bytes hold every field of that type |
| IprSensorDecoder.AnalyseComplete | pyipr_sensor_lib/ipr_sensor_decoder.py:141-170 | a valid telegram of id 0, 1 or 2 with all its field bytes (and 27 hex characters for strain) sets that type and marks the packet valid |
| IprSensorDecoder.ShortGuardsAlwaysHold | pyipr_sensor_lib/ipr_sensor_decoder.py:152-170 | the environment and acceleration length guards never fail after validation |
| IprSensorDecoder.ShortStrainRejected | pyipr_sensor_lib/ipr_sensor_decoder.py:141-150 | a valid strain telegram under 27 hex characters is marked invalid and keeps the old type |
| IprSensorDecoder.UnknownIdIgnored | pyipr_sensor_lib/ipr_sensor_decoder.py:141-170 | a valid telegram with id 3 leaves both flags unchanged |
| IprSensorDecoder.AnalyseKeepsType | pyipr_sensor_lib/ipr_sensor_decoder.py:141-170 | the recorded type stays one of 0, 1, 2 |
| IprSensorDecoder.StuffedPayloadDecodes | pyipr_sensor_lib/ipr_sensor_decoder.py:132-170 | a CRC-correct payload of a known kind with all its fields, stuffed, passes the check, de-stuffs back to itself and is decoded in full |
| IprSensorDecoder.StuffedDelimiterFirstRejected | pyipr_sensor_lib/ipr_parser.py:123-127 | a payload starting with 0x08 passes the CRC, but its stuffed form does not |
| IprSensorDecoder.FieldBytes | pyipr_sensor_lib/ipr_sensor_decoder.py:141-170 | the de-stuffed bytes each kind's getter reads: 14 for strain, 10 for environment, 9 for acceleration |
| IprSensorDecoder.Branch | pyipr_sensor_lib/ipr_sensor_decoder.py:142-150 | a raise comes after the type is recorded and before the flag is set; a packet marked valid without a raise has the kind's type and all its field bytes |
| IprSensorDecoder.Dispatch | pyipr_sensor_lib/ipr_sensor_decoder.py:141-170 | the type only ever changes to the id byte 0 names |
| IprSensorDecoder.Analyse | pyipr_sensor_lib/ipr_sensor_decoder.py:112-172 | only an accepted telegram can raise, and a raise leaves the validity flag as it was |
| IprSensorDecoder.StrainRead | pyipr_sensor_lib/ipr_parser.py:191-255 | the strain arrays after the getter and both scalers: raw written up to the first missing byte, scaled only when all 14 bytes are there; the other kinds untouched |
| IprSensorDecoder.EnvironmentRead | pyipr_sensor_lib/ipr_parser.py:213-269 | the same for the environment arrays and 10 bytes |
| IprSensorDecoder.AccelerationRead | pyipr_sensor_lib/ipr_parser.py:228-276 | the same for the acceleration arrays and 9 bytes |
| IprSensorDecoder.DispatchMeasurements | pyipr_sensor_lib/ipr_sensor_decoder.py:141-170 | only the kind byte 0 names is read, and only past its length guard |
| IprSensorDecoder.AnalyseMeasurements | pyipr_sensor_lib/ipr_sensor_decoder.py:132-172 | the fresh parser's arrays: -1 throughout for a rejected or short telegram, otherwise as the dispatch leaves them |
| IprSensorDecoder.CheckedBytes | pyipr_sensor_lib/ipr_parser.py:123-124 | the validity check leaves only the first chunk, not de-stuffed, in the byte list |
| IprSensorDecoder.CheckedHeader | pyipr_sensor_lib/ipr_parser.py:124-127 | the validity check writes only the CRC slot of the header |
| IprSensorDecoder.ParsedType | pyipr_sensor_lib/ipr_parser.py:143-160 | the parser records the id's name once the header has been read, and none before |
| IprSensorDecoder.OnlyNamedKindMeasured | pyipr_sensor_lib/ipr_sensor_decoder.py:132-172 | every kind other than the one byte 0 names, and every kind of a rejected telegram, keeps -1 in both its arrays |
| IprSensorDecoder.RaisedBeforeScaling | pyipr_sensor_lib/ipr_sensor_decoder.py:141-170 | after a raise every scaled array still holds -1 and the named kind's raw array holds the fields written before it |
| IprSensorDecoder.ValidPacketMeasured | pyipr_sensor_lib/ipr_sensor_decoder.py:141-170 | a packet marked valid afresh holds all fields of its kind, raw and scaled |
| IprSensorDecoder.Decoder.constructor | pyipr_sensor_lib/ipr_sensor_decoder.py:39-54 | a parser built with the default packet: empty byte list and rejection list, counter 0, no type, -1 in the header and every measurement array, each array a newly allocated one (ipr_parser.py:31-45); decoder type 0, not valid |
| IprSensorDecoder.Decoder.AnalysePacket | pyipr_sensor_lib/ipr_sensor_decoder.py:112-172 | a fresh parser per packet, with newly allocated arrays, so the list and counter end [] and 0 or [packet] and 1; the flags and the IndexError end as `Analyse` says; the parser's byte list, header and packet type name end as the check and the header read leave them; every measurement array ends as `AnalyseMeasurements` says, partial writes before a raise included; a decoded kind holds its raw and scaled fields |
| IprSensorDecoder.Decoder.CheckAndDecode | pyipr_sensor_lib/ipr_sensor_decoder.py:135-172 | on a fresh parser: a rejected telegram marks the packet invalid, keeps the type, leaves only the first chunk and the CRC slot written and every measurement array at -1; an accepted one is decoded as `Analyse` and `AnalyseMeasurements` say |
| IprSensorDecoder.Decoder.DecodeTelegram | pyipr_sensor_lib/ipr_sensor_decoder.py:137-170 | de-stuffs the whole telegram and reads the header; under 5 bytes it raises with the measurement arrays and the type name untouched, otherwise it dispatches as `DispatchMeasurements` says and records the id's name |
| IprSensorDecoder.Decoder.DispatchOnId | pyipr_sensor_lib/ipr_sensor_decoder.py:141-170 | runs only the branch of the kind byte 0 names, and none for id 3; the measurement arrays end as `DispatchMeasurements` says, the header as it was, and the parser records the id's name |
| IprSensorDecoder.Decoder.StrainBranch | pyipr_sensor_lib/ipr_sensor_decoder.py:142-150 | under 27 hex characters marks invalid and leaves every measurement array as it was; otherwise records type 0 and leaves the arrays as `StrainRead` says: raw fields written up to the first missing byte, then a raise, or all six written and scaled and the packet marked valid |
| IprSensorDecoder.Decoder.EnvironmentBranch | pyipr_sensor_lib/ipr_sensor_decoder.py:153-160 | the same for type 1, the 20-character guard, the four environment fields and `EnvironmentRead` |
| IprSensorDecoder.Decoder.AccelerationBranch | pyipr_sensor_lib/ipr_sensor_decoder.py:163-170 | the same for type 2, the 20-character guard, the three acceleration fields and `AccelerationRead` |
| IprSensorDecoder.Decoder.GetStrainXyz | pyipr_sensor_lib/ipr_sensor_decoder.py:220-237 | axis 0 and scaled by default; -1 outside axes 0..2; else the freshly scaled value, or the raw field read again (IndexError when incomplete) |
| IprSensorDecoder.Decoder.GetAccelerationXyz | pyipr_sensor_lib/ipr_sensor_decoder.py:239-256 | the same defaults and results for the acceleration axes |
| IprSensorDecoder.Decoder.GetEnvironment | pyipr_sensor_lib/ipr_sensor_decoder.py:258-275 | index 0 and scaled by default; -1 outside 0..3; else battery, pressure, humidity or temperature, scaled or raw |
| IprSensorDecoder.Decoder.GetPacketType | pyipr_sensor_lib/ipr_sensor_decoder.py:277-284 | returns the type, always one of 0, 1, 2 |
| IprSensorDecoder.Decoder.IsPacketValid | pyipr_sensor_lib/ipr_sensor_decoder.py:286-293 | returns the validity flag |

## Left out

- `ipr_serial_interface.py` is not part of this model. It is serial-port I/O: it reads bytes one at a time with a timeout and exchanges command text.
- File I/O is left out: the file read in `load_from_binary_file` and `save_binary_data`. The splitter works on the bytes the file holds.
- Printing is left out: `print_strain`, `print_environment`, `print_acceleration` and the diagnostic messages of `analyse_packet`. They produce only output.
- Float32 storage is not modelled:
  - The source's arrays are `array('f')`. Raw values are modelled as exact integers and scaled values as exact reals.
  - Rounding to float32 is not modelled. This includes the loss of precision for timestamps above 2^24.
- Non-hex or odd-length telegram text cannot occur, because telegrams are held as bytes. The `int(…, 16)` errors on such text are therefore not modelled.
- IprParser.Parser.HexToByte: requires an even length no longer than the telegram's hex text, which is how its two callers use it. For other lengths, the source's slicing of a partial last chunk is not modelled.
- `IPRSensorDecoder._list_of_data` is left out. It is set to 0 and never used.
- IprParser.Parser.GetStrain, IprParser.Parser.GetEnvironment, IprParser.Parser.GetAcceleration and the four scale methods: return the array's contents as a sequence, not the array itself. Aliasing of the returned array is therefore not captured.
- The parser's `packet_type` strings are the datatype `PacketName`.
- Scaling.ConvertNumericToScale: requires in_min != in_max; the source returns 0 for a raw 0 and otherwise divides by zero for equal bounds, which no range the parser uses has (`Scaling.ParserRangesWellFormed`).
- The getters return −1 out of range as the real −1.0, since Python returns the integer −1 there and floats otherwise.
- An IndexError that escapes `analyse_packet` or a getter is a returned outcome.
- The decoder's `analyse_packet` body is split across methods of `Decoder`: `CheckAndDecode`, `DecodeTelegram`, `DispatchOnId` and the three branches, which run in the source's order. The de-stuffing loop of `parser_hex_to_byte` is the separate method `UnescapeChunks`.
- `parser_get_id` is called again for each comparison in `parser_get_id_name`, and `parser_get_id_name` for each comparison in `analyse_packet`. The model repeats both calls, but they rewrite the same value, so the repetition cannot be observed.
