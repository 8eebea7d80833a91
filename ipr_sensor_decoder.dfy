/** `IPRSensorDecoder`: analyses one telegram at a time with a fresh parser,
    records the kind of the last telegram it decoded and whether that
    telegram was decoded in full, and hands out single measurements.

    The splitting loop of `load_from_binary_file` is module Splitter. An
    IndexError that `analyse_packet` lets escape from the parser is returned
    as `IndexError`; the decoder's fields then hold what they held when the
    exception was raised. */
module IprSensorDecoder {
  import opened Bits
  import opened Hex
  import opened Stuffing
  import opened Layout
  import opened Scaling
  import opened IprParser

  const TypeStrain: nat := 0
  const TypeEnvironment: nat := 1
  const TypeAcceleration: nat := 2

  /** The decoder's `packet_type` and `is_packet_valid` after `analyse_packet`,
      and whether an IndexError escaped from it. */
  datatype Verdict = Verdict(packetType: nat, isPacketValid: bool, raised: bool)

  /** The de-stuffed bytes a telegram of kind id needs for all its fields. */
  function FieldBytes(id: nat): nat
  {
    if id == TypeStrain then 14 else if id == TypeEnvironment then 10 else 9
  }

  /** One kind's branch of `analyse_packet`: a hex text shorter than the
      kind's minimum marks the packet invalid; otherwise the type is recorded
      and the fields are read, which raises when the de-stuffed bytes are too
      few and else marks the packet valid. */
  function Branch(kind: nat, minLength: nat, hexLength: nat, count: nat, oldType: nat, oldValid: bool): (r: Verdict)
    ensures r.raised ==> r.packetType == kind && r.isPacketValid == oldValid
    ensures r.isPacketValid && !r.raised ==> r.packetType == kind && count >= FieldBytes(kind)
  {
    if hexLength < minLength then Verdict(oldType, false, false)
    else if count < FieldBytes(kind) then Verdict(kind, oldValid, true)
    else Verdict(kind, true, false)
  }

  /** What `analyse_packet` does to the decoder's two flags. A rejected
      telegram is marked invalid. Otherwise the whole telegram is de-stuffed
      and its header read, which raises with fewer than 5 bytes; then the
      branch of the kind the first byte names runs. Id 3 matches no kind and
      leaves both flags as they were. */
  function Analyse(packet: seq<Byte>, oldType: nat, oldValid: bool): (r: Verdict)
    ensures r.raised ==> IsValidTelegram(packet) && r.isPacketValid == oldValid
  {
    if !IsValidTelegram(packet) then Verdict(oldType, false, false)
    else
      var d := Destuff(packet);
      if |d| < 5 then Verdict(oldType, oldValid, true)
      else Dispatch(d, HexLength(packet), oldType, oldValid)
  }

  /** The dispatch of `analyse_packet` on the name of the id in byte 0 of the
      de-stuffed bytes d, for a telegram of hexLength characters. */
  function Dispatch(d: seq<Byte>, hexLength: nat, oldType: nat, oldValid: bool): (r: Verdict)
    requires |d| >= 1
    ensures r.packetType == oldType || r.packetType == Id(d[0])
  {
    match IdName(Id(d[0]))
    case Strain => Branch(TypeStrain, MinPacketLengthStrain, hexLength, |d|, oldType, oldValid)
    case Environment => Branch(TypeEnvironment, MinPacketLengthEnvironment, hexLength, |d|, oldType, oldValid)
    case Acceleration => Branch(TypeAcceleration, MinPacketLengthAcceleration, hexLength, |d|, oldType, oldValid)
    case PacketError => Verdict(oldType, oldValid, false)
  }

  /** The measurement arrays after `parser_get_strain` and the two strain
      scalers ran on the bytes d: the raw fields are written up to the first
      one whose bytes are missing, and the scalers run only when none is. */
  function StrainRead(d: seq<Byte>, prev: Measurements): (m: Measurements)
    requires prev.WellSized()
    ensures m.WellSized()
  {
    prev.(rawStrain := StrainWritten(d, prev.rawStrain),
          scaledStrain := if |d| >= 14 then ScaledStrain(StrainFields(d)) else prev.scaledStrain)
  }

  /** The same for `parser_get_environment` and its scaler. */
  function EnvironmentRead(d: seq<Byte>, prev: Measurements): (m: Measurements)
    requires prev.WellSized()
    ensures m.WellSized()
  {
    prev.(rawEnv := EnvironmentWritten(d, prev.rawEnv),
          scaledEnv := if |d| >= 10 then ScaledEnvironment(EnvironmentFields(d)) else prev.scaledEnv)
  }

  /** The same for `parser_get_acceleration` and its scaler. */
  function AccelerationRead(d: seq<Byte>, prev: Measurements): (m: Measurements)
    requires prev.WellSized()
    ensures m.WellSized()
  {
    prev.(rawAcc := AccelerationWritten(d, prev.rawAcc),
          scaledAcc := if |d| >= 9 then ScaledAcceleration(AccelerationFields(d)) else prev.scaledAcc)
  }

  /** The measurement arrays after the dispatch of `analyse_packet`: only the
      kind named by byte 0 is read, and only when its length guard holds. */
  function DispatchMeasurements(d: seq<Byte>, hexLength: nat, prev: Measurements): (m: Measurements)
    requires |d| >= 1 && prev.WellSized()
    ensures m.WellSized()
  {
    match IdName(Id(d[0]))
    case Strain => if hexLength < MinPacketLengthStrain then prev else StrainRead(d, prev)
    case Environment => if hexLength < MinPacketLengthEnvironment then prev else EnvironmentRead(d, prev)
    case Acceleration => if hexLength < MinPacketLengthAcceleration then prev else AccelerationRead(d, prev)
    case PacketError => prev
  }

  /** The fresh parser's measurement arrays after `analyse_packet(packet)`. */
  function AnalyseMeasurements(packet: seq<Byte>): (m: Measurements)
    ensures m.WellSized()
  {
    if !IsValidTelegram(packet) then Unmeasured
    else
      var d := Destuff(packet);
      if |d| < 5 then Unmeasured else DispatchMeasurements(d, HexLength(packet), Unmeasured)
  }

  /** The fresh parser's byte list after the validity check: the first chunk
      of the telegram, not de-stuffed. */
  function CheckedBytes(packet: seq<Byte>): seq<Byte>
  {
    if |packet| == 0 then [] else [packet[0]]
  }

  /** The fresh parser's header after the validity check: only the CRC slot
      is written. */
  function CheckedHeader(packet: seq<Byte>): seq<int>
  {
    if |packet| == 0 then [-1, -1, -1, -1] else [-1, IdCrc(packet[0]) as int, -1, -1]
  }

  /** The packet type name the fresh parser records: the name of byte 0's id
      once the header has been read, and none before. */
  function ParsedType(packet: seq<Byte>): Option<PacketName>
  {
    if IsValidTelegram(packet) && |Destuff(packet)| >= 5 then Some(IdName(Id(packet[0]))) else None
  }

  /** A kind whose branch did not run keeps the -1 its arrays were built
      with: every kind, for a rejected telegram, and every kind but the one
      byte 0 names, for an accepted one. */
  lemma OnlyNamedKindMeasured(packet: seq<Byte>)
    ensures var m := AnalyseMeasurements(packet);
      && (!IsValidTelegram(packet) || Id(packet[0]) != TypeStrain ==>
            m.rawStrain == Unmeasured.rawStrain && m.scaledStrain == Unmeasured.scaledStrain)
      && (!IsValidTelegram(packet) || Id(packet[0]) != TypeEnvironment ==>
            m.rawEnv == Unmeasured.rawEnv && m.scaledEnv == Unmeasured.scaledEnv)
      && (!IsValidTelegram(packet) || Id(packet[0]) != TypeAcceleration ==>
            m.rawAcc == Unmeasured.rawAcc && m.scaledAcc == Unmeasured.scaledAcc)
  {
    if IsValidTelegram(packet) {
      ValidKeepsFirstByte(packet);
    }
  }

  /** An IndexError escapes before any scaler runs, so every scaled array
      still holds -1; the raw array of the kind being read holds the fields
      written before the raise. */
  lemma RaisedBeforeScaling(packet: seq<Byte>, oldType: nat, oldValid: bool)
    requires Analyse(packet, oldType, oldValid).raised
    ensures var m := AnalyseMeasurements(packet);
      && m.scaledStrain == Unmeasured.scaledStrain && m.scaledEnv == Unmeasured.scaledEnv
      && m.scaledAcc == Unmeasured.scaledAcc
    ensures var m, d := AnalyseMeasurements(packet), Destuff(packet);
      && (Id(packet[0]) == TypeStrain ==> m.rawStrain == StrainWritten(d, Unmeasured.rawStrain))
      && (Id(packet[0]) == TypeEnvironment ==> m.rawEnv == EnvironmentWritten(d, Unmeasured.rawEnv))
      && (Id(packet[0]) == TypeAcceleration ==> m.rawAcc == AccelerationWritten(d, Unmeasured.rawAcc))
  {
    assert IsValidTelegram(packet);
    ValidKeepsFirstByte(packet);
  }

  /** A packet marked valid afresh has every field of its kind in the raw
      array and its scaled form in the scaled array. */
  lemma ValidPacketMeasured(packet: seq<Byte>, oldType: nat)
    requires Analyse(packet, oldType, false).isPacketValid
    ensures IsValidTelegram(packet)
    ensures var m, d := AnalyseMeasurements(packet), Destuff(packet);
      && (Id(packet[0]) == TypeStrain ==>
            |d| >= 14 && m.rawStrain == StrainFields(d) && m.scaledStrain == ScaledStrain(m.rawStrain))
      && (Id(packet[0]) == TypeEnvironment ==>
            |d| >= 10 && m.rawEnv == EnvironmentFields(d) && m.scaledEnv == ScaledEnvironment(m.rawEnv))
      && (Id(packet[0]) == TypeAcceleration ==>
            |d| >= 9 && m.rawAcc == AccelerationFields(d) && m.scaledAcc == ScaledAcceleration(m.rawAcc))
  {
    AnalyseSound(packet, oldType);
    ValidKeepsFirstByte(packet);
  }

  /** The parser holds every strain field of its bytes, raw and scaled. */
  predicate StrainDecoded(p: Parser)
    reads p, p.rawStrain, p.scaledStrain
  {
    p.Valid() && |p.byteData| >= 14
      && p.rawStrain[..] == StrainFields(p.byteData) && p.scaledStrain[..] == ScaledStrain(p.rawStrain[..])
  }

  /** The parser holds every environment field of its bytes, raw and scaled. */
  predicate EnvironmentDecoded(p: Parser)
    reads p, p.rawEnv, p.scaledEnv
  {
    p.Valid() && |p.byteData| >= 10
      && p.rawEnv[..] == EnvironmentFields(p.byteData) && p.scaledEnv[..] == ScaledEnvironment(p.rawEnv[..])
  }

  /** The parser holds every acceleration field of its bytes, raw and scaled. */
  predicate AccelerationDecoded(p: Parser)
    reads p, p.rawAcc, p.scaledAcc
  {
    p.Valid() && |p.byteData| >= 9
      && p.rawAcc[..] == AccelerationFields(p.byteData) && p.scaledAcc[..] == ScaledAcceleration(p.rawAcc[..])
  }

  /** A packet is marked valid afresh only when it passed the check, its
      first byte names the recorded kind and its de-stuffed bytes hold every
      field of that kind. */
  lemma AnalyseSound(packet: seq<Byte>, oldType: nat)
    requires Analyse(packet, oldType, false).isPacketValid
    ensures IsValidTelegram(packet)
    ensures var v := Analyse(packet, oldType, false);
      && !v.raised && v.packetType == Id(packet[0]) && v.packetType <= 2
      && |Destuff(packet)| >= FieldBytes(v.packetType)
  {
    ValidKeepsFirstByte(packet);
  }

  /** Conversely, a valid telegram of kind 0, 1 or 2 whose de-stuffed bytes
      hold every field of its kind, and whose hex text reaches 27 characters
      for a strain telegram, is decoded in full whatever the flags were. */
  lemma AnalyseComplete(packet: seq<Byte>, oldType: nat, oldValid: bool)
    requires IsValidTelegram(packet) && Id(packet[0]) <= 2
    requires |Destuff(packet)| >= FieldBytes(Id(packet[0]))
    requires Id(packet[0]) == TypeStrain ==> HexLength(packet) >= MinPacketLengthStrain
    ensures Analyse(packet, oldType, oldValid) == Verdict(Id(packet[0]), true, false)
  {
    ValidKeepsFirstByte(packet);
  }

  /** The environment and acceleration length guards can never fail: the
      validity check already demands more than 20 hex characters. */
  lemma ShortGuardsAlwaysHold(packet: seq<Byte>)
    requires IsValidTelegram(packet)
    ensures HexLength(packet) >= MinPacketLengthEnvironment
    ensures HexLength(packet) >= MinPacketLengthAcceleration
  {
  }

  /** A valid strain telegram of 11 to 13 bytes (22 to 26 hex characters)
      fails only the strain length guard: it is marked invalid and keeps the
      old type. */
  lemma ShortStrainRejected(packet: seq<Byte>, oldType: nat, oldValid: bool)
    requires IsValidTelegram(packet) && Id(packet[0]) == TypeStrain && |packet| < 14
    requires |Destuff(packet)| >= 5
    ensures Analyse(packet, oldType, oldValid) == Verdict(oldType, false, false)
  {
    ValidKeepsFirstByte(packet);
  }

  /** A valid telegram with id 3 changes neither flag. */
  lemma UnknownIdIgnored(packet: seq<Byte>, oldType: nat, oldValid: bool)
    requires IsValidTelegram(packet) && Id(packet[0]) == 3 && |Destuff(packet)| >= 5
    ensures Analyse(packet, oldType, oldValid) == Verdict(oldType, oldValid, false)
  {
    ValidKeepsFirstByte(packet);
  }

  /** The recorded type is always one of the three kinds. */
  lemma AnalyseKeepsType(packet: seq<Byte>, oldType: nat, oldValid: bool)
    requires oldType <= 2
    ensures Analyse(packet, oldType, oldValid).packetType <= 2
  {
  }

  /** The sender's side round trip: a payload of kind 0, 1 or 2 that passes
      the CRC check, holds all its fields and at least the 11 bytes the check
      demands, and does not start with 0x08, is decoded in full once stuffed. */
  lemma StuffedPayloadDecodes(payload: seq<Byte>, oldType: nat, oldValid: bool)
    requires |payload| >= 11 && CrcMatches(payload[0]) && payload[0] != Splitter.Delimiter
    requires Id(payload[0]) <= 2 && |payload| >= FieldBytes(Id(payload[0]))
    ensures var t := Stuff(payload);
      && IsValidTelegram(t) && Destuff(t) == payload
      && Analyse(t, oldType, oldValid) == Verdict(Id(payload[0]), true, false)
  {
    var t := Stuff(payload);
    DestuffStuff(payload);
    EscapeFailsCrc();
    assert t[0] == payload[0] by {
      assert payload == [payload[0]] + payload[1..];
    }
    AnalyseComplete(t, oldType, oldValid);
  }

  /** The check reads the CRC bit of the first byte as received, before
      de-stuffing. A payload whose first byte is 0x08 passes the CRC, but it
      is sent as 07 55 and the received first byte 0x07 fails it, so the
      telegram is rejected. */
  lemma StuffedDelimiterFirstRejected(payload: seq<Byte>)
    requires |payload| >= 1 && payload[0] == Splitter.Delimiter
    ensures CrcMatches(payload[0])
    ensures !IsValidTelegram(Stuff(payload))
  {
    EscapeFailsCrc();
    assert IdCrc(Splitter.Delimiter) == 0 && !ComputeCrc(Splitter.Delimiter);
    assert Stuff(payload)[0] == Escape;
  }

  class Decoder {
    var parser: Parser
    var packetType: nat
    var isPacketValid: bool

    /** The parser's arrays have their sizes and the type is one of the kinds. */
    predicate Valid()
      reads this
    {
      parser.Valid() && packetType <= 2
    }

    /** `IPRSensorDecoder()`: a parser built with the default packet, type 0
        (strain) and no valid packet yet. */
    constructor ()
      ensures Valid() && fresh(parser)
      ensures packetType == TypeStrain && !isPacketValid
      ensures parser.packet == None && parser.byteData == [] && parser.packetType == None
      ensures parser.invalidDataList == [] && parser.invalidDataNumber == 0
      ensures parser.rawHeader[..] == [-1, -1, -1, -1] && parser.Snapshot() == Unmeasured
      ensures fresh(parser.rawHeader) && fresh(parser.rawStrain) && fresh(parser.rawEnv) && fresh(parser.rawAcc)
      ensures fresh(parser.scaledStrain) && fresh(parser.scaledEnv) && fresh(parser.scaledAcc)
    {
      parser := new Parser(None);
      packetType := TypeStrain;
      isPacketValid := false;
    }

    /** `analyse_packet(packet)`: replaces the parser by a fresh one for this
        telegram and runs it; the flags end as `Analyse` says, and the parser
        holds the telegram's bytes, header and, for a decoded kind, its fields. */
    method AnalysePacket(packet: seq<Byte>) returns (r: Outcome<()>)
      requires Valid()
      modifies this
      ensures Valid() && fresh(parser) && parser.packet == Some(packet)
      ensures fresh(parser.rawHeader) && fresh(parser.rawStrain) && fresh(parser.rawEnv) && fresh(parser.rawAcc)
      ensures fresh(parser.scaledStrain) && fresh(parser.scaledEnv) && fresh(parser.scaledAcc)
      ensures Verdict(packetType, isPacketValid, r.IndexError?) == Analyse(packet, old(packetType), old(isPacketValid))
      ensures parser.invalidDataList == if IsValidTelegram(packet) then [] else [packet]
      ensures parser.invalidDataNumber == if IsValidTelegram(packet) then 0 else 1
      ensures parser.byteData == if IsValidTelegram(packet) then Destuff(packet) else CheckedBytes(packet)
      ensures parser.rawHeader[..] == if IsValidTelegram(packet) then HeaderWritten(Destuff(packet), CheckedHeader(packet))
        else CheckedHeader(packet)
      ensures parser.packetType == ParsedType(packet)
      ensures parser.Snapshot() == AnalyseMeasurements(packet)
      ensures r.Ok? && IsValidTelegram(packet) && Id(packet[0]) == TypeStrain && isPacketValid ==> StrainDecoded(parser)
      ensures r.Ok? && IsValidTelegram(packet) && Id(packet[0]) == TypeEnvironment ==> EnvironmentDecoded(parser)
      ensures r.Ok? && IsValidTelegram(packet) && Id(packet[0]) == TypeAcceleration ==> AccelerationDecoded(parser)
    {
      var p := new Parser(Some(packet));
      parser := p;
      r := CheckAndDecode(p, packet);
    }

    /** `analyse_packet` once the fresh parser is built: the validity check,
        then the accepted path. */
    method CheckAndDecode(p: Parser, packet: seq<Byte>) returns (r: Outcome<()>)
      requires p.Valid() && packetType <= 2
      requires p.invalidDataList == [] && p.invalidDataNumber == 0 && p.rawHeader[..] == [-1, -1, -1, -1]
      requires p.byteData == [] && p.packetType == None && p.Snapshot() == Unmeasured
      modifies this`packetType, this`isPacketValid, p`byteData, p`packetType, p`invalidDataList, p`invalidDataNumber
      modifies p.rawHeader, p.rawStrain, p.scaledStrain, p.rawEnv, p.scaledEnv, p.rawAcc, p.scaledAcc
      ensures packetType <= 2
      ensures Verdict(packetType, isPacketValid, r.IndexError?) == Analyse(packet, old(packetType), old(isPacketValid))
      ensures p.invalidDataList == if IsValidTelegram(packet) then [] else [packet]
      ensures p.invalidDataNumber == if IsValidTelegram(packet) then 0 else 1
      ensures p.byteData == if IsValidTelegram(packet) then Destuff(packet) else CheckedBytes(packet)
      ensures p.rawHeader[..] == if IsValidTelegram(packet) then HeaderWritten(Destuff(packet), CheckedHeader(packet))
        else CheckedHeader(packet)
      ensures p.packetType == ParsedType(packet)
      ensures p.Snapshot() == AnalyseMeasurements(packet)
      ensures r.Ok? && IsValidTelegram(packet) && Id(packet[0]) == TypeStrain && isPacketValid ==> StrainDecoded(p)
      ensures r.Ok? && IsValidTelegram(packet) && Id(packet[0]) == TypeEnvironment ==> EnvironmentDecoded(p)
      ensures r.Ok? && IsValidTelegram(packet) && Id(packet[0]) == TypeAcceleration ==> AccelerationDecoded(p)
    {
      var valid := p.CheckTelegramValidity(packet);
      if !valid {
        isPacketValid := false;
        return Ok(());
      }
      assert p.rawHeader[..] == [-1, IdCrc(packet[0]) as int, -1, -1];
      r := DecodeTelegram(p, packet);
    }

    /** The accepted path of `analyse_packet`: de-stuffs the whole telegram,
        reads its header and dispatches on its id. */
    method DecodeTelegram(p: Parser, packet: seq<Byte>) returns (r: Outcome<()>)
      requires p.Valid() && IsValidTelegram(packet) && packetType <= 2
      modifies this`packetType, this`isPacketValid, p`byteData, p`packetType, p.rawHeader
      modifies p.rawStrain, p.scaledStrain, p.rawEnv, p.scaledEnv, p.rawAcc, p.scaledAcc
      ensures packetType <= 2
      ensures Verdict(packetType, isPacketValid, r.IndexError?) == Analyse(packet, old(packetType), old(isPacketValid))
      ensures p.byteData == Destuff(packet)
      ensures p.rawHeader[..] == HeaderWritten(Destuff(packet), old(p.rawHeader[..]))
      ensures r.Ok? && Id(packet[0]) == TypeStrain && isPacketValid ==> StrainDecoded(p)
      ensures r.Ok? && Id(packet[0]) == TypeEnvironment ==> EnvironmentDecoded(p)
      ensures r.Ok? && Id(packet[0]) == TypeAcceleration ==> AccelerationDecoded(p)
      ensures p.Snapshot() == if |Destuff(packet)| < 5 then old(p.Snapshot())
        else DispatchMeasurements(Destuff(packet), HexLength(packet), old(p.Snapshot()))
      ensures p.packetType == if |Destuff(packet)| < 5 then old(p.packetType) else Some(IdName(Id(packet[0])))
    {
      ValidKeepsFirstByte(packet);
      assert packet[..HexLength(packet) / 2] == packet;
      p.HexToByte(packet, HexLength(packet));
      var header := p.GetHeader();
      if header.IndexError? {
        return IndexError;
      }
      ghost var written := p.rawHeader[..];
      r := DispatchOnId(p, HexLength(packet));
      assert p.rawHeader[..] == written;
    }

    /** The chain of `parser_get_id_name()` comparisons of `analyse_packet`,
        each asking the parser for the name again. */
    method DispatchOnId(p: Parser, hexLength: nat) returns (r: Outcome<()>)
      requires p.Valid() && |p.byteData| >= 1 && packetType <= 2 && hexLength > MinValidLength
      requires p.rawHeader[0] == Id(p.byteData[0])
      modifies this`packetType, this`isPacketValid, p`packetType, p.rawHeader
      modifies p.rawStrain, p.scaledStrain, p.rawEnv, p.scaledEnv, p.rawAcc, p.scaledAcc
      ensures packetType <= 2 && p.rawHeader[..] == old(p.rawHeader[..])
      ensures Verdict(packetType, isPacketValid, r.IndexError?)
        == Dispatch(p.byteData, hexLength, old(packetType), old(isPacketValid))
      ensures r.Ok? && Id(p.byteData[0]) == TypeStrain && isPacketValid ==> StrainDecoded(p)
      ensures r.Ok? && Id(p.byteData[0]) == TypeEnvironment ==> EnvironmentDecoded(p)
      ensures r.Ok? && Id(p.byteData[0]) == TypeAcceleration ==> AccelerationDecoded(p)
      ensures p.Snapshot() == DispatchMeasurements(p.byteData, hexLength, old(p.Snapshot()))
      ensures p.packetType == Some(IdName(Id(p.byteData[0])))
    {
      var name := p.GetIdName();
      assert p.rawHeader[..] == old(p.rawHeader[..]);
      if name == Ok(Strain) {
        r := StrainBranch(p, hexLength);
        return;
      }
      name := p.GetIdName();
      if name == Ok(Environment) {
        r := EnvironmentBranch(p, hexLength);
        return;
      }
      name := p.GetIdName();
      if name == Ok(Acceleration) {
        r := AccelerationBranch(p, hexLength);
        return;
      }
      return Ok(());
    }

    /** The STRAIN branch of `analyse_packet`, for a telegram of hexLength characters. */
    method StrainBranch(p: Parser, hexLength: nat) returns (r: Outcome<()>)
      requires p.Valid()
      modifies this`packetType, this`isPacketValid, p.rawStrain, p.scaledStrain
      ensures Verdict(packetType, isPacketValid, r.IndexError?)
        == Branch(TypeStrain, MinPacketLengthStrain, hexLength, |p.byteData|, old(packetType), old(isPacketValid))
      ensures r.Ok? && isPacketValid ==> StrainDecoded(p)
      ensures p.Snapshot() == if hexLength < MinPacketLengthStrain then old(p.Snapshot()) else StrainRead(p.byteData, old(p.Snapshot()))
    {
      if hexLength >= MinPacketLengthStrain {
        packetType := TypeStrain;
        var raw := p.GetStrain();
        if raw.IndexError? {
          assert p.Snapshot() == old(p.Snapshot()).(rawStrain := p.rawStrain[..]);
          return IndexError;
        }
        var scaled := p.ScaleStrainXyz();
        scaled := p.ScaleStrainP1P2();
        assert p.scaledStrain[..] == ScaledStrain(p.rawStrain[..]);
        isPacketValid := true;
      } else {
        isPacketValid := false;
      }
      return Ok(());
    }

    /** The ENVIRONMENT branch of `analyse_packet`. */
    method EnvironmentBranch(p: Parser, hexLength: nat) returns (r: Outcome<()>)
      requires p.Valid()
      modifies this`packetType, this`isPacketValid, p.rawEnv, p.scaledEnv
      ensures Verdict(packetType, isPacketValid, r.IndexError?)
        == Branch(TypeEnvironment, MinPacketLengthEnvironment, hexLength, |p.byteData|, old(packetType), old(isPacketValid))
      ensures r.Ok? && isPacketValid ==> EnvironmentDecoded(p)
      ensures p.Snapshot() == if hexLength < MinPacketLengthEnvironment then old(p.Snapshot()) else EnvironmentRead(p.byteData, old(p.Snapshot()))
    {
      if hexLength >= MinPacketLengthEnvironment {
        packetType := TypeEnvironment;
        var raw := p.GetEnvironment();
        if raw.IndexError? {
          return IndexError;
        }
        var scaled := p.ScaleEnvironment();
        assert p.scaledEnv[..] == ScaledEnvironment(p.rawEnv[..]);
        isPacketValid := true;
      } else {
        isPacketValid := false;
      }
      return Ok(());
    }

    /** The ACCELERATION branch of `analyse_packet`. */
    method AccelerationBranch(p: Parser, hexLength: nat) returns (r: Outcome<()>)
      requires p.Valid()
      modifies this`packetType, this`isPacketValid, p.rawAcc, p.scaledAcc
      ensures Verdict(packetType, isPacketValid, r.IndexError?)
        == Branch(TypeAcceleration, MinPacketLengthAcceleration, hexLength, |p.byteData|, old(packetType), old(isPacketValid))
      ensures r.Ok? && isPacketValid ==> AccelerationDecoded(p)
      ensures p.Snapshot() == if hexLength < MinPacketLengthAcceleration then old(p.Snapshot()) else AccelerationRead(p.byteData, old(p.Snapshot()))
    {
      if hexLength >= MinPacketLengthAcceleration {
        packetType := TypeAcceleration;
        var raw := p.GetAcceleration();
        if raw.IndexError? {
          return IndexError;
        }
        var scaled := p.ScaleAcceleration();
        assert p.scaledAcc[..] == ScaledAcceleration(p.rawAcc[..]);
        isPacketValid := true;
      } else {
        isPacketValid := false;
      }
      return Ok(());
    }

    /** `get_strain_xyz(axis=0, scaled=True)`: -1 for an axis outside 0..2; the
        freshly scaled value, or the raw value read again from the parser's
        bytes, which raises when the strain fields are incomplete. */
    method GetStrainXyz(axis: int := 0, scaled: bool := true) returns (r: Outcome<real>)
      requires Valid()
      modifies parser.rawStrain, parser.scaledStrain
      ensures Valid()
      ensures !(0 <= axis < 3) ==> r == Ok(-1.0)
      ensures !(0 <= axis < 3) || scaled ==> parser.rawStrain[..] == old(parser.rawStrain[..])
      ensures !(0 <= axis < 3) || !scaled ==> parser.scaledStrain[..] == old(parser.scaledStrain[..])
      ensures 0 <= axis < 3 && scaled ==>
        && r == Ok(StrainRange.Scale(parser.rawStrain[axis]))
        && parser.scaledStrain[..] == ScaledStrain(parser.rawStrain[..])[..3] + old(parser.scaledStrain[3..])
      ensures 0 <= axis < 3 && !scaled ==>
        && parser.rawStrain[..] == StrainWritten(parser.byteData, old(parser.rawStrain[..]))
        && r == if |parser.byteData| >= 14 then Ok(StrainFields(parser.byteData)[axis] as real) else IndexError
    {
      if 0 <= axis < 3 {
        if scaled {
          var values := parser.ScaleStrainXyz();
          return Ok(values[axis]);
        } else {
          var values := parser.GetStrain();
          if values.IndexError? {
            return IndexError;
          }
          return Ok(values.value[axis] as real);
        }
      }
      return Ok(-1.0);
    }

    /** `get_acceleration_xyz(axis=0, scaled=True)`, as `get_strain_xyz` for the
        acceleration fields. */
    method GetAccelerationXyz(axis: int := 0, scaled: bool := true) returns (r: Outcome<real>)
      requires Valid()
      modifies parser.rawAcc, parser.scaledAcc
      ensures Valid()
      ensures !(0 <= axis < 3) ==> r == Ok(-1.0)
      ensures !(0 <= axis < 3) || scaled ==> parser.rawAcc[..] == old(parser.rawAcc[..])
      ensures !(0 <= axis < 3) || !scaled ==> parser.scaledAcc[..] == old(parser.scaledAcc[..])
      ensures 0 <= axis < 3 && scaled ==>
        && r == Ok(AccelerationRange.Scale(parser.rawAcc[axis]))
        && parser.scaledAcc[..] == ScaledAcceleration(parser.rawAcc[..])
      ensures 0 <= axis < 3 && !scaled ==>
        && parser.rawAcc[..] == AccelerationWritten(parser.byteData, old(parser.rawAcc[..]))
        && r == if |parser.byteData| >= 9 then Ok(AccelerationFields(parser.byteData)[axis] as real) else IndexError
    {
      if 0 <= axis < 3 {
        if scaled {
          var values := parser.ScaleAcceleration();
          return Ok(values[axis]);
        } else {
          var values := parser.GetAcceleration();
          if values.IndexError? {
            return IndexError;
          }
          return Ok(values.value[axis] as real);
        }
      }
      return Ok(-1.0);
    }

    /** `get_environment(axis=0, scaled=True)`: -1 for an index outside 0..3;
        otherwise battery, pressure, humidity or temperature, scaled or raw. */
    method GetEnvironment(axis: int := 0, scaled: bool := true) returns (r: Outcome<real>)
      requires Valid()
      modifies parser.rawEnv, parser.scaledEnv
      ensures Valid()
      ensures !(0 <= axis < 4) ==> r == Ok(-1.0)
      ensures !(0 <= axis < 4) || scaled ==> parser.rawEnv[..] == old(parser.rawEnv[..])
      ensures !(0 <= axis < 4) || !scaled ==> parser.scaledEnv[..] == old(parser.scaledEnv[..])
      ensures 0 <= axis < 4 && scaled ==>
        && parser.scaledEnv[..] == ScaledEnvironment(parser.rawEnv[..])
        && r == Ok(parser.scaledEnv[axis])
      ensures 0 <= axis < 4 && !scaled ==>
        && parser.rawEnv[..] == EnvironmentWritten(parser.byteData, old(parser.rawEnv[..]))
        && r == if |parser.byteData| >= 10 then Ok(EnvironmentFields(parser.byteData)[axis] as real) else IndexError
    {
      if 0 <= axis < 4 {
        if scaled {
          var values := parser.ScaleEnvironment();
          return Ok(values[axis]);
        } else {
          var values := parser.GetEnvironment();
          if values.IndexError? {
            return IndexError;
          }
          return Ok(values.value[axis] as real);
        }
      }
      return Ok(-1.0);
    }

    /** `get_packet_type()`: always one of the three kinds. */
    method GetPacketType() returns (r: nat)
      requires Valid()
      ensures r == packetType
      ensures r == TypeStrain || r == TypeEnvironment || r == TypeAcceleration
    {
      return packetType;
    }

    /** `ipr_decoder_is_packet_valid()`. */
    method IsPacketValid() returns (r: bool)
      ensures r == isPacketValid
    {
      return isPacketValid;
    }
  }
}
