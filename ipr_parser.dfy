/** `IPRParser`: validates one telegram, de-stuffs it and extracts its
    header and measurement fields into fixed-size arrays, then scales them.

    A telegram is held as its bytes; its hex text, which the parser receives,
    is `Hex.ToHex` of them, so `len(telegram)` is `Hex.HexLength(t)`, twice
    the number of bytes. An extraction that indexes past the end of the
    de-stuffed bytes raises an IndexError in the source; here it returns
    `IndexError`, after the same fields have been written. */
module IprParser {
  import opened Bits
  import opened Hex
  import opened Stuffing
  import opened Layout
  import opened Scaling

  /** Minimum hex lengths the decoder demands per packet kind. */
  const MinPacketLengthStrain: nat := 27
  const MinPacketLengthEnvironment: nat := 20
  const MinPacketLengthAcceleration: nat := 20

  /** The hex length a telegram must exceed to be valid. */
  const MinValidLength: nat := 20

  datatype PacketName = Strain | Environment | Acceleration | PacketError

  /** A result, or the IndexError raised by reading past the de-stuffed bytes. */
  datatype Outcome<T> = Ok(value: T) | IndexError

  /** The name `parser_get_id_name` gives to a packet id. */
  function IdName(id: nat): PacketName
  {
    if id == 0 then Strain
    else if id == 1 then Environment
    else if id == 2 then Acceleration
    else PacketError
  }

  /** What `parser_check_telegram_validity` accepts: a non-empty telegram whose
      CRC bit matches and whose hex text is longer than 20 characters. */
  predicate IsValidTelegram(t: seq<Byte>)
  {
    HexLength(t) >= 1 && CrcMatches(t[0]) && HexLength(t) > MinValidLength
  }

  /** The raw header after `parser_get_header`: id, CRC bit and sequence need
      byte 0, the timestamp bytes 0..4; a field whose bytes are missing keeps
      its previous value. */
  function HeaderWritten(d: seq<Byte>, prev: seq<int>): (r: seq<int>)
    requires |prev| == 4
    ensures |r| == 4
    ensures |d| < 5 ==> r[3] == prev[3]
  {
    if |d| == 0 then prev
    else [Id(d[0]), IdCrc(d[0]), Sequence(d[0]), if |d| >= 5 then Timestamp(d) else prev[3]]
  }

  /** The raw strain array after `parser_get_strain`: fields are written in
      order until one reads past the end, and the rest keep their values. */
  function StrainWritten(d: seq<Byte>, prev: seq<int>): (r: seq<int>)
    requires |prev| == 6
    ensures |r| == 6
    ensures |d| >= 14 ==> r == StrainFields(d)
    ensures |d| < 6 ==> r == prev
  {
    seq(6, i requires 0 <= i < 6 => if |d| >= StrainNeeds[i] then StrainField(d, i) else prev[i])
  }

  function EnvironmentWritten(d: seq<Byte>, prev: seq<int>): (r: seq<int>)
    requires |prev| == 4
    ensures |r| == 4
    ensures |d| >= 10 ==> r == EnvironmentFields(d)
    ensures |d| < 6 ==> r == prev
  {
    seq(4, i requires 0 <= i < 4 => if |d| >= EnvironmentNeeds[i] then EnvironmentField(d, i) else prev[i])
  }

  function AccelerationWritten(d: seq<Byte>, prev: seq<int>): (r: seq<int>)
    requires |prev| == 3
    ensures |r| == 3
    ensures |d| >= 9 ==> r == AccelerationFields(d)
    ensures |d| < 6 ==> r == prev
  {
    seq(3, i requires 0 <= i < 3 => if |d| >= AccelerationNeeds[i] then AccelerationField(d, i) else prev[i])
  }

  /** `scaled_strain` once both strain scalers have run over raw values. */
  function ScaledStrain(raw: seq<int>): (r: seq<real>)
    requires |raw| == 6
    ensures |r| == 6
    ensures forall i :: 0 <= i < 5 ==> r[i] == StrainRange.Scale(raw[i])
    ensures r[5] == AngleRange.Scale(raw[5])
  {
    [StrainRange.Scale(raw[0]), StrainRange.Scale(raw[1]), StrainRange.Scale(raw[2]),
     StrainRange.Scale(raw[3]), StrainRange.Scale(raw[4]), AngleRange.Scale(raw[5])]
  }

  /** `scaled_env` once the environment scaler has run over raw values. */
  function ScaledEnvironment(raw: seq<int>): (r: seq<real>)
    requires |raw| == 4
    ensures |r| == 4
  {
    [BatteryRange.Scale(raw[0]), PressureRange.Scale(raw[1]),
     HumidityRange.Scale(raw[2]), TemperatureRange.Scale(raw[3])]
  }

  /** `scaled_acc` once the acceleration scaler has run over raw values. */
  function ScaledAcceleration(raw: seq<int>): (r: seq<real>)
    requires |raw| == 3
    ensures |r| == 3
  {
    [AccelerationRange.Scale(raw[0]), AccelerationRange.Scale(raw[1]), AccelerationRange.Scale(raw[2])]
  }

  /** The contents of the parser's six measurement arrays, raw and scaled. */
  datatype Measurements = Measurements(
    rawStrain: seq<int>, scaledStrain: seq<real>,
    rawEnv: seq<int>, scaledEnv: seq<real>,
    rawAcc: seq<int>, scaledAcc: seq<real>)
  {
    predicate WellSized()
    {
      |rawStrain| == 6 && |scaledStrain| == 6 && |rawEnv| == 4 && |scaledEnv| == 4
        && |rawAcc| == 3 && |scaledAcc| == 3
    }
  }

  /** Every measurement array as the constructor fills it: -1 throughout. */
  const Unmeasured: Measurements := Measurements(
    [-1, -1, -1, -1, -1, -1], [-1.0, -1.0, -1.0, -1.0, -1.0, -1.0],
    [-1, -1, -1, -1], [-1.0, -1.0, -1.0, -1.0],
    [-1, -1, -1], [-1.0, -1.0, -1.0])

  /** Scaled strains of a complete telegram lie within -3000 .. 3000
      microstrain and the angle within -90 .. 90 degrees. */
  lemma ScaledStrainInRange(d: seq<Byte>)
    requires |d| >= 14
    ensures forall i :: 0 <= i < 5 ==> -3000.0 <= ScaledStrain(StrainFields(d))[i] <= 3000.0
    ensures -90.0 <= ScaledStrain(StrainFields(d))[5] <= 90.0
  {
    var raw := StrainFields(d);
    StrainBounds(d);
    forall i | 0 <= i < 5
      ensures -3000.0 <= ScaledStrain(raw)[i] <= 3000.0
    {
      ScaleInRange(raw[i], StrainRange);
    }
    ScaleInRange(raw[5], AngleRange);
  }

  /** Scaled environment values of a complete telegram lie within their
      documented ranges: 0 .. 4 V, 0 .. 1200 hPa, 0 .. 100 % and -60 .. 115 C. */
  lemma ScaledEnvironmentInRange(d: seq<Byte>)
    requires |d| >= 10
    ensures var r := ScaledEnvironment(EnvironmentFields(d));
      && 0.0 <= r[0] <= 4.0 && 0.0 <= r[1] <= 1200.0
      && 0.0 <= r[2] <= 100.0 && -60.0 <= r[3] <= 115.0
  {
    EnvironmentBounds(d);
    ScaleInRange(Battery(d), BatteryRange);
    ScaleInRange(Pressure(d), PressureRange);
    ScaleInRange(Humidity(d), HumidityRange);
    ScaleInRange(Temperature(d), TemperatureRange);
  }

  /** Scaled accelerations of a complete telegram lie within -16 .. 16 g. */
  lemma ScaledAccelerationInRange(d: seq<Byte>)
    requires |d| >= 9
    ensures forall i :: 0 <= i < 3 ==> -16.0 <= ScaledAcceleration(AccelerationFields(d))[i] <= 16.0
  {
    var raw := AccelerationFields(d);
    AccelerationBounds(d);
    forall i | 0 <= i < 3
      ensures -16.0 <= ScaledAcceleration(raw)[i] <= 16.0
    {
      ScaleInRange(raw[i], AccelerationRange);
    }
  }

  /** 0x07 carries CRC bit 1 but computes 0, so no valid telegram starts with it. */
  lemma EscapeFailsCrc()
    ensures !CrcMatches(Escape)
  {
    assert IdCrc(Escape) == 1 && !ComputeCrc(Escape);
  }

  /** A telegram that passes the check does not start with an escape byte,
      so de-stuffing keeps its first byte in front. */
  lemma ValidKeepsFirstByte(t: seq<Byte>)
    requires IsValidTelegram(t)
    ensures |Destuff(t)| >= 1 && Destuff(t)[0] == t[0]
  {
    EscapeFailsCrc();
    assert t == [t[0]] + t[1..];
    UnescapeCopied(t[0], t[1..]);
  }

  class Parser {
    var byteData: seq<Byte>
    var invalidDataList: seq<seq<Byte>>
    var invalidDataNumber: nat
    /** The telegram handed to the constructor; None for the default 0. */
    var packet: Option<seq<Byte>>
    var packetType: Option<PacketName>
    /** [id, CRC bit, sequence, timestamp] */
    const rawHeader: array<int>
    /** [X, Y, Z, P1, P2, angle] */
    const rawStrain: array<int>
    /** [battery, pressure, humidity, temperature] */
    const rawEnv: array<int>
    /** [X, Y, Z] */
    const rawAcc: array<int>
    const scaledStrain: array<real>
    const scaledEnv: array<real>
    const scaledAcc: array<real>

    /** The arrays have their fixed sizes; the two of size 4 are distinct. */
    predicate Valid()
    {
      rawHeader.Length == 4 && rawStrain.Length == 6 && rawEnv.Length == 4 && rawAcc.Length == 3
        && scaledStrain.Length == 6 && scaledEnv.Length == 4 && scaledAcc.Length == 3
        && rawHeader != rawEnv
    }

    /** The current contents of the measurement arrays. */
    function Snapshot(): (m: Measurements)
      reads this, rawStrain, scaledStrain, rawEnv, scaledEnv, rawAcc, scaledAcc
      ensures Valid() ==> m.WellSized()
    {
      Measurements(rawStrain[..], scaledStrain[..], rawEnv[..], scaledEnv[..], rawAcc[..], scaledAcc[..])
    }

    constructor (packet: Option<seq<Byte>>)
      ensures Valid()
      ensures byteData == [] && invalidDataList == [] && invalidDataNumber == 0
      ensures this.packet == packet && packetType == None
      ensures rawHeader[..] == [-1, -1, -1, -1] && rawStrain[..] == [-1, -1, -1, -1, -1, -1]
      ensures rawEnv[..] == [-1, -1, -1, -1] && rawAcc[..] == [-1, -1, -1]
      ensures scaledStrain[..] == [-1.0, -1.0, -1.0, -1.0, -1.0, -1.0]
      ensures scaledEnv[..] == [-1.0, -1.0, -1.0, -1.0] && scaledAcc[..] == [-1.0, -1.0, -1.0]
      ensures Snapshot() == Unmeasured
      ensures fresh(rawHeader) && fresh(rawStrain) && fresh(rawEnv) && fresh(rawAcc)
      ensures fresh(scaledStrain) && fresh(scaledEnv) && fresh(scaledAcc)
    {
      byteData := [];
      invalidDataList := [];
      invalidDataNumber := 0;
      rawHeader := new int[4](_ => -1);
      packetType := None;
      rawStrain := new int[6](_ => -1);
      rawEnv := new int[4](_ => -1);
      rawAcc := new int[3](_ => -1);
      scaledStrain := new real[6](_ => -1.0);
      scaledEnv := new real[4](_ => -1.0);
      scaledAcc := new real[3](_ => -1.0);
      this.packet := packet;
      new;
      assert rawHeader[..] == [-1, -1, -1, -1];
      assert rawStrain[..] == [-1, -1, -1, -1, -1, -1];
      assert rawEnv[..] == [-1, -1, -1, -1];
      assert rawAcc[..] == [-1, -1, -1];
      assert scaledStrain[..] == [-1.0, -1.0, -1.0, -1.0, -1.0, -1.0];
      assert scaledEnv[..] == [-1.0, -1.0, -1.0, -1.0];
      assert scaledAcc[..] == [-1.0, -1.0, -1.0];
    }

    method SetPacket(packet: seq<Byte>)
      modifies this
      ensures this.packet == Some(packet)
      ensures byteData == old(byteData) && invalidDataList == old(invalidDataList)
      ensures invalidDataNumber == old(invalidDataNumber) && packetType == old(packetType)
    {
      this.packet := Some(packet);
    }

    /** `parser_hex_to_byte(data, length)`: the first length / 2 bytes of the
        telegram, de-stuffed when there are at least two of them. */
    method HexToByte(data: seq<Byte>, length: nat)
      requires length % 2 == 0 && length <= HexLength(data)
      modifies this`byteData
      ensures byteData == Destuff(data[..length / 2])
    {
      var chunks: seq<Byte> := [];
      var i := 0;
      while i < length
        invariant i % 2 == 0 && i <= length
        invariant chunks == data[..i / 2]
      {
        chunks := chunks + [data[i / 2]];
        assert data[..(i + 2) / 2] == data[..i / 2] + [data[i / 2]];
        i := i + 2;
      }
      byteData := chunks;
      if |byteData| >= 2 {
        byteData := UnescapeChunks(byteData);
      }
    }

    /** `parser_check_telegram_validity`: reads the first chunk without
        de-stuffing, compares its CRC bit, and records a rejected telegram. */
    method CheckTelegramValidity(telegram: seq<Byte>) returns (isValid: bool)
      requires Valid()
      modifies this`byteData, this`invalidDataList, this`invalidDataNumber, rawHeader
      ensures isValid == IsValidTelegram(telegram)
      ensures |telegram| >= 1 ==> byteData == [telegram[0]]
      ensures |telegram| >= 1 ==> rawHeader[..] == old(rawHeader[..])[1 := IdCrc(telegram[0])]
      ensures |telegram| == 0 ==> byteData == old(byteData) && rawHeader[..] == old(rawHeader[..])
      ensures isValid ==> invalidDataList == old(invalidDataList) && invalidDataNumber == old(invalidDataNumber)
      ensures !isValid ==> invalidDataList == old(invalidDataList) + [telegram]
      ensures !isValid ==> invalidDataNumber == old(invalidDataNumber) + 1
    {
      isValid := false;
      if HexLength(telegram) >= 1 {
        HexToByte(telegram, 2);
        assert byteData == [telegram[0]];
        var idCrcComputed := ComputeCrc(byteData[0]);
        var idCrc := GetIdCrc();
        if idCrc != Ok(if idCrcComputed then 1 else 0) || HexLength(telegram) <= MinValidLength {
          invalidDataList := invalidDataList + [telegram];
          invalidDataNumber := invalidDataNumber + 1;
        } else {
          isValid := true;
        }
      } else {
        invalidDataList := invalidDataList + [telegram];
        invalidDataNumber := invalidDataNumber + 1;
      }
    }

    /** `parser_get_id`: writes and returns the id of byte 0. */
    method GetId() returns (r: Outcome<nat>)
      requires Valid()
      modifies rawHeader
      ensures r == if |byteData| == 0 then IndexError else Ok(Id(byteData[0]))
      ensures rawHeader[..] == if |byteData| == 0 then old(rawHeader[..]) else old(rawHeader[..])[0 := Id(byteData[0])]
    {
      if |byteData| == 0 {
        return IndexError;
      }
      rawHeader[0] := Id(byteData[0]);
      return Ok(rawHeader[0]);
    }

    /** `parser_get_id_name`: names the id, asking for it again before each
        further comparison as the source does. */
    method GetIdName() returns (r: Outcome<PacketName>)
      requires Valid()
      modifies rawHeader, this`packetType
      ensures r == if |byteData| == 0 then IndexError else Ok(IdName(Id(byteData[0])))
      ensures r.Ok? ==> packetType == Some(r.value)
      ensures r.IndexError? ==> packetType == old(packetType)
      ensures rawHeader[..] == if |byteData| == 0 then old(rawHeader[..]) else old(rawHeader[..])[0 := Id(byteData[0])]
    {
      var id := GetId();
      if id.IndexError? {
        return IndexError;
      }
      if id == Ok(0) {
        packetType := Some(Strain);
      } else {
        id := GetId();
        if id == Ok(1) {
          packetType := Some(Environment);
        } else {
          id := GetId();
          if id == Ok(2) {
            packetType := Some(Acceleration);
          } else {
            packetType := Some(PacketError);
          }
        }
      }
      return Ok(packetType.value);
    }

    /** `parser_get_id_crc`: writes and returns the CRC bit of byte 0. */
    method GetIdCrc() returns (r: Outcome<nat>)
      requires Valid()
      modifies rawHeader
      ensures r == if |byteData| == 0 then IndexError else Ok(IdCrc(byteData[0]))
      ensures rawHeader[..] == if |byteData| == 0 then old(rawHeader[..]) else old(rawHeader[..])[1 := IdCrc(byteData[0])]
    {
      if |byteData| == 0 {
        return IndexError;
      }
      rawHeader[1] := IdCrc(byteData[0]);
      return Ok(rawHeader[1]);
    }

    /** `parser_get_sequence`: writes and returns the sequence bits of byte 0. */
    method GetSequence() returns (r: Outcome<nat>)
      requires Valid()
      modifies rawHeader
      ensures r == if |byteData| == 0 then IndexError else Ok(Sequence(byteData[0]))
      ensures rawHeader[..] == if |byteData| == 0 then old(rawHeader[..]) else old(rawHeader[..])[2 := Sequence(byteData[0])]
    {
      if |byteData| == 0 {
        return IndexError;
      }
      rawHeader[2] := Sequence(byteData[0]);
      return Ok(rawHeader[2]);
    }

    /** `parser_get_timestamp`: writes and returns the timestamp of bytes 0..4. */
    method GetTimestamp() returns (r: Outcome<nat>)
      requires Valid()
      modifies rawHeader
      ensures r == if |byteData| < 5 then IndexError else Ok(Timestamp(byteData))
      ensures rawHeader[..] == if |byteData| < 5 then old(rawHeader[..]) else old(rawHeader[..])[3 := Timestamp(byteData)]
    {
      if |byteData| < 5 {
        return IndexError;
      }
      rawHeader[3] := Timestamp(byteData);
      return Ok(rawHeader[3]);
    }

    /** `parser_get_header`: the four header getters in order; the first one
        that reads past the end stops the rest. */
    method GetHeader() returns (r: Outcome<()>)
      requires Valid()
      modifies rawHeader
      ensures r == if |byteData| < 5 then IndexError else Ok(())
      ensures rawHeader[..] == HeaderWritten(byteData, old(rawHeader[..]))
    {
      var o := GetId();
      if o.IndexError? {
        return IndexError;
      }
      o := GetIdCrc();
      o := GetSequence();
      o := GetTimestamp();
      if o.IndexError? {
        return IndexError;
      }
      return Ok(());
    }

    /** `parser_get_strain`: the six strain fields in order. A field is written
        only when every byte it reads is present; the first missing one raises. */
    method GetStrain() returns (r: Outcome<seq<int>>)
      requires Valid()
      modifies rawStrain
      ensures rawStrain[..] == StrainWritten(byteData, old(rawStrain[..]))
      ensures r == if |byteData| >= 14 then Ok(rawStrain[..]) else IndexError
    {
      var d := byteData;
      if |d| < 6 {
        return IndexError;
      }
      rawStrain[0] := StrainX(d);
      if |d| < 8 {
        return IndexError;
      }
      rawStrain[1] := StrainY(d);
      if |d| < 9 {
        return IndexError;
      }
      rawStrain[2] := StrainZ(d);
      if |d| < 11 {
        return IndexError;
      }
      rawStrain[3] := StrainP1(d);
      if |d| < 13 {
        return IndexError;
      }
      rawStrain[4] := StrainP2(d);
      if |d| < 14 {
        return IndexError;
      }
      rawStrain[5] := StrainAngle(d);
      return Ok(rawStrain[..]);
    }

    /** `parser_get_environment`: battery, pressure, humidity and temperature. */
    method GetEnvironment() returns (r: Outcome<seq<int>>)
      requires Valid()
      modifies rawEnv
      ensures rawEnv[..] == EnvironmentWritten(byteData, old(rawEnv[..]))
      ensures r == if |byteData| >= 10 then Ok(rawEnv[..]) else IndexError
    {
      var d := byteData;
      if |d| < 6 {
        return IndexError;
      }
      rawEnv[0] := Battery(d);
      if |d| < 7 {
        return IndexError;
      }
      rawEnv[1] := Pressure(d);
      if |d| < 9 {
        return IndexError;
      }
      rawEnv[2] := Humidity(d);
      if |d| < 10 {
        return IndexError;
      }
      rawEnv[3] := Temperature(d);
      return Ok(rawEnv[..]);
    }

    /** `parser_get_acceleration`: the X, Y and Z acceleration fields. */
    method GetAcceleration() returns (r: Outcome<seq<int>>)
      requires Valid()
      modifies rawAcc
      ensures rawAcc[..] == AccelerationWritten(byteData, old(rawAcc[..]))
      ensures r == if |byteData| >= 9 then Ok(rawAcc[..]) else IndexError
    {
      var d := byteData;
      if |d| < 6 {
        return IndexError;
      }
      rawAcc[0] := AccX(d);
      if |d| < 8 {
        return IndexError;
      }
      rawAcc[1] := AccY(d);
      if |d| < 9 {
        return IndexError;
      }
      rawAcc[2] := AccZ(d);
      return Ok(rawAcc[..]);
    }

    /** `parser_scale_strain_xyz`: scales strain X, Y and Z; P1, P2 and the
        angle keep their scaled values. */
    method ScaleStrainXyz() returns (r: seq<real>)
      requires Valid()
      modifies scaledStrain
      ensures scaledStrain[0] == StrainRange.Scale(rawStrain[0])
      ensures scaledStrain[1] == StrainRange.Scale(rawStrain[1])
      ensures scaledStrain[2] == StrainRange.Scale(rawStrain[2])
      ensures scaledStrain[3] == old(scaledStrain[3]) && scaledStrain[4] == old(scaledStrain[4])
      ensures scaledStrain[5] == old(scaledStrain[5])
      ensures r == scaledStrain[..]
    {
      scaledStrain[0] := StrainRange.Scale(rawStrain[0]);
      scaledStrain[1] := StrainRange.Scale(rawStrain[1]);
      scaledStrain[2] := StrainRange.Scale(rawStrain[2]);
      return scaledStrain[..];
    }

    /** `parser_scale_strain_p1p2`: scales P1 and P2 as strains and the angle
        onto degrees; X, Y and Z keep their scaled values. */
    method ScaleStrainP1P2() returns (r: seq<real>)
      requires Valid()
      modifies scaledStrain
      ensures scaledStrain[0] == old(scaledStrain[0]) && scaledStrain[1] == old(scaledStrain[1])
      ensures scaledStrain[2] == old(scaledStrain[2])
      ensures scaledStrain[3] == StrainRange.Scale(rawStrain[3])
      ensures scaledStrain[4] == StrainRange.Scale(rawStrain[4])
      ensures scaledStrain[5] == AngleRange.Scale(rawStrain[5])
      ensures r == scaledStrain[..]
    {
      scaledStrain[3] := StrainRange.Scale(rawStrain[3]);
      scaledStrain[4] := StrainRange.Scale(rawStrain[4]);
      scaledStrain[5] := AngleRange.Scale(rawStrain[5]);
      return scaledStrain[..];
    }

    /** `parser_scale_environment`: each environment field in its own range. */
    method ScaleEnvironment() returns (r: seq<real>)
      requires Valid()
      modifies scaledEnv
      ensures scaledEnv[0] == BatteryRange.Scale(rawEnv[0])
      ensures scaledEnv[1] == PressureRange.Scale(rawEnv[1])
      ensures scaledEnv[2] == HumidityRange.Scale(rawEnv[2])
      ensures scaledEnv[3] == TemperatureRange.Scale(rawEnv[3])
      ensures r == scaledEnv[..]
    {
      scaledEnv[0] := BatteryRange.Scale(rawEnv[0]);
      scaledEnv[1] := PressureRange.Scale(rawEnv[1]);
      scaledEnv[2] := HumidityRange.Scale(rawEnv[2]);
      scaledEnv[3] := TemperatureRange.Scale(rawEnv[3]);
      return scaledEnv[..];
    }

    /** `parser_scale_acceleration`: X, Y and Z onto -16 .. 16 g. */
    method ScaleAcceleration() returns (r: seq<real>)
      requires Valid()
      modifies scaledAcc
      ensures scaledAcc[0] == AccelerationRange.Scale(rawAcc[0])
      ensures scaledAcc[1] == AccelerationRange.Scale(rawAcc[1])
      ensures scaledAcc[2] == AccelerationRange.Scale(rawAcc[2])
      ensures r == scaledAcc[..]
    {
      scaledAcc[0] := AccelerationRange.Scale(rawAcc[0]);
      scaledAcc[1] := AccelerationRange.Scale(rawAcc[1]);
      scaledAcc[2] := AccelerationRange.Scale(rawAcc[2]);
      return scaledAcc[..];
    }
  }

  /** What is left to de-stuff of rest, when the chunk before it was an
      escape (escaped) or not. */
  function Resume(escaped: bool, rest: seq<Byte>): seq<Byte>
  {
    if escaped then Unescape([Escape] + rest) else Unescape(rest)
  }

  /** One iteration of the de-stuffing loop on chunk k, with before the
      output so far: after an escape it emits 0x08 for 0x55, 0x07 for 0xaa
      and nothing for any other chunk, and ends the pair; outside a pair an
      escape emits nothing and starts one, and any other chunk is copied. */
  lemma {:induction false} ResumeStep(target: seq<Byte>, before: seq<Byte>, escaped: bool, chunks: seq<Byte>, k: nat)
    requires k < |chunks| && before + Resume(escaped, chunks[k..]) == target
    ensures escaped && chunks[k] == EscapedDelimiter ==> (before + [0x08]) + Resume(false, chunks[k + 1..]) == target
    ensures escaped && chunks[k] == EscapedEscape ==> (before + [0x07]) + Resume(false, chunks[k + 1..]) == target
    ensures escaped && chunks[k] != EscapedDelimiter && chunks[k] != EscapedEscape ==>
      before + Resume(false, chunks[k + 1..]) == target
    ensures !escaped && chunks[k] == Escape ==> before + Resume(true, chunks[k + 1..]) == target
    ensures !escaped && chunks[k] != Escape ==> (before + [chunks[k]]) + Resume(false, chunks[k + 1..]) == target
  {
    var c, rest := chunks[k], chunks[k + 1..];
    assert chunks[k..] == [c] + rest;
    if escaped {
      UnescapeEscaped(c, rest);
      ConcatAssoc(before, Unescaped(c), Resume(false, rest));
      if c != EscapedDelimiter && c != EscapedEscape {
        assert before + Unescaped(c) == before;
      }
    } else if c != Escape {
      UnescapeCopied(c, rest);
      ConcatAssoc(before, [c], Resume(false, rest));
    }
  }

  /** Once every chunk is consumed the output is complete: an escape left
      open at the end stands for nothing. */
  lemma ResumeDone(target: seq<Byte>, output: seq<Byte>, escaped: bool, chunks: seq<Byte>)
    requires output + Resume(escaped, chunks[|chunks|..]) == target
    ensures output == target
  {
    assert chunks[|chunks|..] == [] && Unescape([Escape]) == [];
  }

  /** The de-stuffing loop of `parser_hex_to_byte`, which carries the
      previous chunk to recognise an escape pair. */
  method UnescapeChunks(chunks: seq<Byte>) returns (newByteList: seq<Byte>)
    ensures newByteList == Unescape(chunks)
  {
    var previousByte: Byte := 0x00;
    newByteList := [];
    for k := 0 to |chunks|
      invariant newByteList + Resume(previousByte == Escape, chunks[k..]) == Unescape(chunks)
    {
      var currentByte := chunks[k];
      ResumeStep(Unescape(chunks), newByteList, previousByte == Escape, chunks, k);
      if previousByte == Escape {
        previousByte := 0x00;
        if currentByte == EscapedDelimiter {
          newByteList := newByteList + [0x08];
        } else if currentByte == EscapedEscape {
          newByteList := newByteList + [0x07];
        }
      } else {
        if currentByte == Escape {
          previousByte := currentByte;
        } else {
          newByteList := newByteList + [currentByte];
        }
      }
    }
    ResumeDone(Unescape(chunks), newByteList, previousByte == Escape, chunks);
  }
}
