/** Where the header and measurement fields sit in a de-stuffed telegram.

    Each field is written with the masks and shifts of the `parser_get_*`
    methods. Each is proved equal to a window of the telegram read as a
    little-endian bit stream (module Bits), which shows the layout at a
    glance: the header fills stream bits 0..32, the strain fields 33..110,
    the environment fields 33..76 and the acceleration fields 33..68. Two
    fields leave holes: strain P2 never reads stream bits 93..95, so its bits
    8..10 are always clear, and the battery never reads stream bit 40, so its
    bit 7 is always clear. Every field names the number of bytes it reads;
    with fewer, `parser_get_*` fails with an IndexError. */
module Layout {
  import opened Bits

  // ---- Header: byte 0, and bytes 0..4 for the timestamp ----

  /** `parser_get_id`: the packet id. */
  function Id(b0: Byte): nat
  {
    And(b0, 0x03)
  }

  /** `parser_get_id_crc`: the transmitted CRC bit. */
  function IdCrc(b0: Byte): nat
  {
    Shr(And(b0, 0x04), 2)
  }

  /** `parser_get_sequence`: the sequence bits, left in place (not shifted down). */
  function Sequence(b0: Byte): nat
  {
    And(b0, 0x38)
  }

  /** `parser_get_timestamp`: 27 bits spread over bytes 0..4. */
  function Timestamp(d: seq<Byte>): nat
    requires |d| >= 5
  {
    Shl(And(d[4], 0x01), 26) + Shl(d[3], 18) + Shl(d[2], 10)
      + Shl(d[1], 2) + Shr(And(d[0], 0xC0), 6)
  }

  /** `parser_compute_crc`: bit 1 of byte 0 XOR bit 0 of byte 0. */
  function ComputeCrc(b0: Byte): bool
  {
    (And(b0, 0x02) != 0) != (And(b0, 0x01) != 0)
  }

  /** The comparison of `parser_check_telegram_validity`: the transmitted CRC
      bit equals the computed one, read as 0 or 1. */
  predicate CrcMatches(b0: Byte)
  {
    IdCrc(b0) == (if ComputeCrc(b0) then 1 else 0)
  }

  /** The CRC holds exactly when bits 0, 1 and 2 of byte 0 have even parity. */
  lemma CrcIsEvenParity(b0: Byte)
    ensures CrcMatches(b0) <==> (BitAt([b0], 0) + BitAt([b0], 1) + BitAt([b0], 2)) % 2 == 0
  {
    var d := [b0];
    WindowIsLowMasked(d, 0, 1, 0x01);
    WindowInPlace(d, 0, 1, 2, 0x02);
    WindowIsMasked(d, 0, 2, 3, 0x04);
    assert BitAt(d, 0) == Window(d, 0, 1);
    assert BitAt(d, 1) == Window(d, 1, 2);
    assert BitAt(d, 2) == Window(d, 2, 3);
  }

  /** Header byte 0xc4 (id 0, CRC bit 1, bits 1 and 0 clear) fails the CRC. */
  lemma CrcRejectsC4()
    ensures Id(0xc4) == 0 && IdCrc(0xc4) == 1 && !ComputeCrc(0xc4) && !CrcMatches(0xc4)
  {
  }

  lemma IdWindow(d: seq<Byte>)
    requires |d| >= 1
    ensures Id(d[0]) == Window(d, 0, 2)
  {
    WindowIsLowMasked(d, 0, 2, 0x03);
  }

  lemma IdCrcWindow(d: seq<Byte>)
    requires |d| >= 1
    ensures IdCrc(d[0]) == Window(d, 2, 3)
  {
    WindowIsMasked(d, 0, 2, 3, 0x04);
  }

  lemma SequenceWindow(d: seq<Byte>)
    requires |d| >= 1
    ensures Sequence(d[0]) == 8 * Window(d, 3, 6)
  {
    Pow2Values();
    WindowInPlace(d, 0, 3, 6, 0x38);
    ShlBy(Window(d, 3, 6), 3, 8);
  }

  /** Bytes 1..3 whole are stream bits 8..31. */
  lemma TimestampMiddle(d: seq<Byte>)
    requires |d| >= 4
    ensures Window(d, 8, 32) == d[1] as int + 256 * (d[2] as int) + 65536 * (d[3] as int)
  {
    Pow2Values();
    WindowSplit(d, 8, 16, 32, 256);
    WindowSplit(d, 16, 24, 32, 256);
    WindowIsByte(d, 1);
    WindowIsByte(d, 2);
    WindowIsByte(d, 3);
  }

  lemma TimestampWindow(d: seq<Byte>)
    requires |d| >= 5
    ensures Timestamp(d) == Window(d, 6, 33)
  {
    Pow2Values();
    // 2 bits of byte 0, bytes 1..3 whole, 1 bit of byte 4.
    WindowSplit(d, 6, 8, 33, 4);
    WindowSplit(d, 8, 32, 33, 16777216);
    TimestampMiddle(d);
    WindowIsMasked(d, 0, 6, 8, 0xC0);
    WindowIsLowMasked(d, 4, 1, 0x01);
    ShlBy(And(d[4], 0x01), 26, 67108864);
    ShlBy(d[3], 18, 262144);
    ShlBy(d[2], 10, 1024);
    ShlBy(d[1], 2, 4);
  }

  /** The header fields are the stream windows 0..1, 2, 3..5 (kept in place,
      so eight times the window) and 6..32. */
  lemma HeaderWindows(d: seq<Byte>)
    requires |d| >= 5
    ensures Id(d[0]) == Window(d, 0, 2)
    ensures IdCrc(d[0]) == Window(d, 2, 3)
    ensures Sequence(d[0]) == 8 * Window(d, 3, 6)
    ensures Timestamp(d) == Window(d, 6, 33)
  {
    IdWindow(d);
    IdCrcWindow(d);
    SequenceWindow(d);
    TimestampWindow(d);
  }

  /** Id, CRC bit and sequence keep to their ranges. */
  lemma ByteZeroBounds(b0: Byte)
    ensures Id(b0) < 4 && IdCrc(b0) <= 1
    ensures Sequence(b0) % 8 == 0 && Sequence(b0) <= 56
  {
    var d := [b0];
    Pow2Values();
    assert Id(b0) < 4 by { IdWindow(d); WindowBound(d, 0, 2); }
    assert IdCrc(b0) <= 1 by { IdCrcWindow(d); WindowBound(d, 2, 3); }
    assert Sequence(b0) == 8 * Window(d, 3, 6) && Window(d, 3, 6) < 8 by {
      SequenceWindow(d);
      WindowBound(d, 3, 6);
    }
  }

  /** The timestamp has 27 bits. */
  lemma TimestampBound(d: seq<Byte>)
    requires |d| >= 5
    ensures Timestamp(d) < 134217728
  {
    Pow2Values();
    TimestampWindow(d);
    WindowBound(d, 6, 33);
  }

  /** The header fields keep to their ranges. */
  lemma HeaderBounds(d: seq<Byte>)
    requires |d| >= 5
    ensures Id(d[0]) < 4 && IdCrc(d[0]) <= 1
    ensures Sequence(d[0]) % 8 == 0 && Sequence(d[0]) <= 56
    ensures Timestamp(d) < 134217728
  {
    ByteZeroBounds(d[0]);
    TimestampBound(d);
  }

  // ---- Strain telegram: six 13-bit fields in bytes 4..13 ----

  /** Bytes each strain field reads: X, Y, Z, P1, P2, angle. */
  const StrainNeeds: seq<nat> := [6, 8, 9, 11, 13, 14]

  function StrainX(d: seq<Byte>): nat
    requires |d| >= 6
  {
    Shl(And(d[5], 0x3F), 7) + Shr(And(d[4], 0xFE), 1)
  }

  function StrainY(d: seq<Byte>): nat
    requires |d| >= 8
  {
    Shl(And(d[7], 0x07), 10) + Shl(d[6], 2) + Shr(And(d[5], 0xC0), 6)
  }

  function StrainZ(d: seq<Byte>): nat
    requires |d| >= 9
  {
    Shl(d[8], 5) + Shr(And(d[7], 0xF8), 3)
  }

  function StrainP1(d: seq<Byte>): nat
    requires |d| >= 11
  {
    Shl(And(d[10], 0x1F), 8) + d[9]
  }

  function StrainP2(d: seq<Byte>): nat
    requires |d| >= 13
  {
    Shl(And(d[12], 0x03), 11) + Shl(And(d[11], 0x1F), 3) + Shr(And(d[10], 0xE0), 5)
  }

  function StrainAngle(d: seq<Byte>): nat
    requires |d| >= 14
  {
    Shl(And(d[13], 0x7F), 6) + Shr(And(d[12], 0xFC), 2)
  }

  /** Strain field i (X, Y, Z, P1, P2, angle) of `parser_get_strain`. */
  function StrainField(d: seq<Byte>, i: nat): nat
    requires i < 6 && |d| >= StrainNeeds[i]
  {
    match i
    case 0 => StrainX(d)
    case 1 => StrainY(d)
    case 2 => StrainZ(d)
    case 3 => StrainP1(d)
    case 4 => StrainP2(d)
    case 5 => StrainAngle(d)
  }

  /** `parser_get_strain` on a telegram long enough for all six fields. */
  function StrainFields(d: seq<Byte>): (r: seq<int>)
    requires |d| >= 14
    ensures |r| == 6 && forall i :: 0 <= i < 6 ==> r[i] == StrainField(d, i)
  {
    [StrainX(d), StrainY(d), StrainZ(d), StrainP1(d), StrainP2(d), StrainAngle(d)]
  }

  lemma StrainXWindow(d: seq<Byte>)
    requires |d| >= 6
    ensures StrainX(d) == Window(d, 33, 46)
  {
    Pow2Values();
    WindowSplit(d, 33, 40, 46, 128);
    WindowIsMasked(d, 4, 1, 8, 0xFE);
    WindowIsLowMasked(d, 5, 6, 0x3F);
    ShlBy(And(d[5], 0x3F), 7, 128);
  }

  lemma StrainYWindow(d: seq<Byte>)
    requires |d| >= 8
    ensures StrainY(d) == Window(d, 46, 59)
  {
    Pow2Values();
    WindowSplit(d, 46, 48, 59, 4);
    WindowSplit(d, 48, 56, 59, 256);
    WindowIsMasked(d, 5, 6, 8, 0xC0);
    WindowIsByte(d, 6);
    WindowIsLowMasked(d, 7, 3, 0x07);
    ShlBy(And(d[7], 0x07), 10, 1024);
    ShlBy(d[6], 2, 4);
  }

  lemma StrainZWindow(d: seq<Byte>)
    requires |d| >= 9
    ensures StrainZ(d) == Window(d, 59, 72)
  {
    Pow2Values();
    WindowSplit(d, 59, 64, 72, 32);
    WindowIsMasked(d, 7, 3, 8, 0xF8);
    WindowIsByte(d, 8);
    ShlBy(d[8], 5, 32);
  }

  lemma StrainP1Window(d: seq<Byte>)
    requires |d| >= 11
    ensures StrainP1(d) == Window(d, 72, 85)
  {
    Pow2Values();
    WindowSplit(d, 72, 80, 85, 256);
    WindowIsByte(d, 9);
    WindowIsLowMasked(d, 10, 5, 0x1F);
    ShlBy(And(d[10], 0x1F), 8, 256);
  }

  /** P2 takes stream bits 85..92 as its bits 0..7 and 96..97 as its bits
      11..12: bits 93..95 of the stream are never read. */
  lemma StrainP2Window(d: seq<Byte>)
    requires |d| >= 13
    ensures StrainP2(d) == Window(d, 85, 93) + 2048 * Window(d, 96, 98)
  {
    Pow2Values();
    WindowSplit(d, 85, 88, 93, 8);
    WindowIsMasked(d, 10, 5, 8, 0xE0);
    WindowIsLowMasked(d, 11, 5, 0x1F);
    WindowIsLowMasked(d, 12, 2, 0x03);
    ShlBy(And(d[12], 0x03), 11, 2048);
    ShlBy(And(d[11], 0x1F), 3, 8);
  }

  lemma StrainAngleWindow(d: seq<Byte>)
    requires |d| >= 14
    ensures StrainAngle(d) == Window(d, 98, 111)
  {
    Pow2Values();
    WindowSplit(d, 98, 104, 111, 64);
    WindowIsMasked(d, 12, 2, 8, 0xFC);
    WindowIsLowMasked(d, 13, 7, 0x7F);
    ShlBy(And(d[13], 0x7F), 6, 64);
  }

  /** The strain fields are the 13-bit stream windows at 33, 46, 59, 72 and
      98, except P2 (see StrainP2Window). */
  lemma StrainWindows(d: seq<Byte>)
    requires |d| >= 14
    ensures StrainX(d) == Window(d, 33, 46)
    ensures StrainY(d) == Window(d, 46, 59)
    ensures StrainZ(d) == Window(d, 59, 72)
    ensures StrainP1(d) == Window(d, 72, 85)
    ensures StrainP2(d) == Window(d, 85, 93) + 2048 * Window(d, 96, 98)
    ensures StrainAngle(d) == Window(d, 98, 111)
  {
    StrainXWindow(d);
    StrainYWindow(d);
    StrainZWindow(d);
    StrainP1Window(d);
    StrainP2Window(d);
    StrainAngleWindow(d);
  }

  /** A 13-bit window is below 8192. */
  lemma Bound13(d: seq<Byte>, lo: nat)
    requires lo + 13 <= 8 * |d|
    ensures Window(d, lo, lo + 13) < 8192
  {
    Pow2Values();
    WindowBound(d, lo, lo + 13);
  }

  /** Every strain field is below 8192; P2 never has bits 8..10 set, so it
      stays at or below 6399. */
  lemma StrainBounds(d: seq<Byte>)
    requires |d| >= 14
    ensures forall i :: 0 <= i < 6 ==> 0 <= StrainFields(d)[i] < 8192
    ensures (StrainP2(d) / 256) % 8 == 0 && StrainP2(d) <= 6399
  {
    assert StrainX(d) < 8192 by { StrainXWindow(d); Bound13(d, 33); }
    assert StrainY(d) < 8192 by { StrainYWindow(d); Bound13(d, 46); }
    assert StrainZ(d) < 8192 by { StrainZWindow(d); Bound13(d, 59); }
    assert StrainP1(d) < 8192 by { StrainP1Window(d); Bound13(d, 72); }
    assert StrainAngle(d) < 8192 by { StrainAngleWindow(d); Bound13(d, 98); }
    P2Hole(d);
  }

  lemma P2Hole(d: seq<Byte>)
    requires |d| >= 13
    ensures (StrainP2(d) / 256) % 8 == 0 && StrainP2(d) <= 6399
  {
    Pow2Values();
    StrainP2Window(d);
    var a, b := Window(d, 85, 93), Window(d, 96, 98);
    WindowBound(d, 85, 93);
    WindowBound(d, 96, 98);
    DivModUnique(StrainP2(d), 256, 8 * b, a);
    DivModUnique(8 * b, 8, b, 0);
  }

  /** The strain fields depend on stream bits 33..110 except 93..95, and on
      nothing else. */
  lemma StrainDependsOnItsBits(d: seq<Byte>, e: seq<Byte>)
    requires |d| >= 14 && |e| >= 14
    requires forall k :: 33 <= k < 111 && !(93 <= k < 96) ==> BitAt(d, k) == BitAt(e, k)
    ensures StrainFields(d) == StrainFields(e)
  {
    StrainXyzDepend(d, e);
    StrainPrincipalDepend(d, e);
  }

  lemma StrainXyzDepend(d: seq<Byte>, e: seq<Byte>)
    requires |d| >= 9 && |e| >= 9
    requires forall k :: 33 <= k < 72 ==> BitAt(d, k) == BitAt(e, k)
    ensures StrainX(d) == StrainX(e) && StrainY(d) == StrainY(e) && StrainZ(d) == StrainZ(e)
  {
    StrainXWindow(d);
    StrainXWindow(e);
    WindowDependsOnItsBits(d, e, 33, 46);
    StrainYWindow(d);
    StrainYWindow(e);
    WindowDependsOnItsBits(d, e, 46, 59);
    StrainZWindow(d);
    StrainZWindow(e);
    WindowDependsOnItsBits(d, e, 59, 72);
  }

  lemma StrainPrincipalDepend(d: seq<Byte>, e: seq<Byte>)
    requires |d| >= 14 && |e| >= 14
    requires forall k :: 72 <= k < 111 && !(93 <= k < 96) ==> BitAt(d, k) == BitAt(e, k)
    ensures StrainP1(d) == StrainP1(e) && StrainP2(d) == StrainP2(e)
    ensures StrainAngle(d) == StrainAngle(e)
  {
    StrainP1Window(d);
    StrainP1Window(e);
    WindowDependsOnItsBits(d, e, 72, 85);
    StrainP2Window(d);
    StrainP2Window(e);
    WindowDependsOnItsBits(d, e, 85, 93);
    WindowDependsOnItsBits(d, e, 96, 98);
    StrainAngleWindow(d);
    StrainAngleWindow(e);
    WindowDependsOnItsBits(d, e, 98, 111);
  }

  // ---- Environment telegram: four fields in bytes 4..9 ----

  /** Bytes each environment field reads: battery, pressure, humidity, temperature. */
  const EnvironmentNeeds: seq<nat> := [6, 7, 9, 10]

  /** Battery voltage; bit 7 is never set. */
  function Battery(d: seq<Byte>): nat
    requires |d| >= 6
  {
    Shl(And(d[5], 0x02), 7) + Shr(And(d[4], 0xFE), 1)
  }

  function Pressure(d: seq<Byte>): nat
    requires |d| >= 7
  {
    Shl(d[6], 6) + Shr(And(d[5], 0xFC), 2)
  }

  function Humidity(d: seq<Byte>): nat
    requires |d| >= 9
  {
    Shl(And(d[8], 0x03), 8) + d[7]
  }

  function Temperature(d: seq<Byte>): nat
    requires |d| >= 10
  {
    Shl(And(d[9], 0x1F), 6) + Shr(And(d[8], 0xFC), 2)
  }

  /** Environment field i (battery, pressure, humidity, temperature) of `parser_get_environment`. */
  function EnvironmentField(d: seq<Byte>, i: nat): nat
    requires i < 4 && |d| >= EnvironmentNeeds[i]
  {
    match i
    case 0 => Battery(d)
    case 1 => Pressure(d)
    case 2 => Humidity(d)
    case 3 => Temperature(d)
  }

  /** `parser_get_environment` on a telegram long enough for all four fields. */
  function EnvironmentFields(d: seq<Byte>): (r: seq<int>)
    requires |d| >= 10
    ensures |r| == 4 && forall i :: 0 <= i < 4 ==> r[i] == EnvironmentField(d, i)
  {
    [Battery(d), Pressure(d), Humidity(d), Temperature(d)]
  }

  /** The battery takes stream bits 33..39 as its bits 0..6 and bit 41 as its
      bit 8: stream bit 40 is never read. */
  lemma BatteryWindow(d: seq<Byte>)
    requires |d| >= 6
    ensures Battery(d) == Window(d, 33, 40) + 256 * Window(d, 41, 42)
  {
    Pow2Values();
    WindowIsMasked(d, 4, 1, 8, 0xFE);
    WindowInPlace(d, 5, 1, 2, 0x02);
    var b := Window(d, 41, 42);
    ShlBy(b, 1, 2);
    ShlBy(2 * b, 7, 128);
  }

  lemma PressureWindow(d: seq<Byte>)
    requires |d| >= 7
    ensures Pressure(d) == Window(d, 42, 56)
  {
    Pow2Values();
    WindowSplit(d, 42, 48, 56, 64);
    WindowIsMasked(d, 5, 2, 8, 0xFC);
    WindowIsByte(d, 6);
    ShlBy(d[6], 6, 64);
  }

  lemma HumidityWindow(d: seq<Byte>)
    requires |d| >= 9
    ensures Humidity(d) == Window(d, 56, 66)
  {
    Pow2Values();
    WindowSplit(d, 56, 64, 66, 256);
    WindowIsByte(d, 7);
    WindowIsLowMasked(d, 8, 2, 0x03);
    ShlBy(And(d[8], 0x03), 8, 256);
  }

  lemma TemperatureWindow(d: seq<Byte>)
    requires |d| >= 10
    ensures Temperature(d) == Window(d, 66, 77)
  {
    Pow2Values();
    WindowSplit(d, 66, 72, 77, 64);
    WindowIsMasked(d, 8, 2, 8, 0xFC);
    WindowIsLowMasked(d, 9, 5, 0x1F);
    ShlBy(And(d[9], 0x1F), 6, 64);
  }

  /** Pressure, humidity and temperature are the stream windows at 42, 56
      and 66; the battery is BatteryWindow. */
  lemma EnvironmentWindows(d: seq<Byte>)
    requires |d| >= 10
    ensures Battery(d) == Window(d, 33, 40) + 256 * Window(d, 41, 42)
    ensures Pressure(d) == Window(d, 42, 56)
    ensures Humidity(d) == Window(d, 56, 66)
    ensures Temperature(d) == Window(d, 66, 77)
  {
    BatteryWindow(d);
    PressureWindow(d);
    HumidityWindow(d);
    TemperatureWindow(d);
  }

  /** The environment fields fit their ranges; the battery never has bit 7
      set, so it stays at or below 383. */
  lemma EnvironmentBounds(d: seq<Byte>)
    requires |d| >= 10
    ensures 0 <= Battery(d) < 512 && 0 <= Pressure(d) < 16384
    ensures 0 <= Humidity(d) < 1024 && 0 <= Temperature(d) < 2048
    ensures (Battery(d) / 128) % 2 == 0 && Battery(d) <= 383
  {
    Pow2Values();
    assert Pressure(d) < 16384 by {
      PressureWindow(d);
      WindowBound(d, 42, 56);
    }
    assert Humidity(d) < 1024 by {
      HumidityWindow(d);
      WindowBound(d, 56, 66);
    }
    assert Temperature(d) < 2048 by {
      TemperatureWindow(d);
      WindowBound(d, 66, 77);
    }
    BatteryHole(d);
  }

  lemma BatteryHole(d: seq<Byte>)
    requires |d| >= 6
    ensures (Battery(d) / 128) % 2 == 0 && Battery(d) <= 383
  {
    Pow2Values();
    BatteryWindow(d);
    var a, b := Window(d, 33, 40), Window(d, 41, 42);
    WindowBound(d, 33, 40);
    WindowBound(d, 41, 42);
    DivModUnique(Battery(d), 128, 2 * b, a);
    DivModUnique(2 * b, 2, b, 0);
  }

  /** The environment fields depend on stream bits 33..76 except 40, and on
      nothing else. */
  lemma EnvironmentDependsOnItsBits(d: seq<Byte>, e: seq<Byte>)
    requires |d| >= 10 && |e| >= 10
    requires forall k :: 33 <= k < 77 && k != 40 ==> BitAt(d, k) == BitAt(e, k)
    ensures EnvironmentFields(d) == EnvironmentFields(e)
  {
    BatteryPressureDepend(d, e);
    HumidityTemperatureDepend(d, e);
  }

  lemma BatteryPressureDepend(d: seq<Byte>, e: seq<Byte>)
    requires |d| >= 7 && |e| >= 7
    requires forall k :: 33 <= k < 56 && k != 40 ==> BitAt(d, k) == BitAt(e, k)
    ensures Battery(d) == Battery(e) && Pressure(d) == Pressure(e)
  {
    BatteryWindow(d);
    BatteryWindow(e);
    WindowDependsOnItsBits(d, e, 33, 40);
    WindowDependsOnItsBits(d, e, 41, 42);
    PressureWindow(d);
    PressureWindow(e);
    WindowDependsOnItsBits(d, e, 42, 56);
  }

  lemma HumidityTemperatureDepend(d: seq<Byte>, e: seq<Byte>)
    requires |d| >= 10 && |e| >= 10
    requires forall k :: 56 <= k < 77 ==> BitAt(d, k) == BitAt(e, k)
    ensures Humidity(d) == Humidity(e) && Temperature(d) == Temperature(e)
  {
    HumidityWindow(d);
    HumidityWindow(e);
    WindowDependsOnItsBits(d, e, 56, 66);
    TemperatureWindow(d);
    TemperatureWindow(e);
    WindowDependsOnItsBits(d, e, 66, 77);
  }

  // ---- Acceleration telegram: three 12-bit fields in bytes 4..8 ----

  /** Bytes each acceleration field reads: X, Y, Z. */
  const AccelerationNeeds: seq<nat> := [6, 8, 9]

  function AccX(d: seq<Byte>): nat
    requires |d| >= 6
  {
    Shl(And(d[5], 0x1F), 7) + Shr(And(d[4], 0xFE), 1)
  }

  function AccY(d: seq<Byte>): nat
    requires |d| >= 8
  {
    Shl(And(d[7], 0x01), 11) + Shl(d[6], 3) + Shr(And(d[5], 0xE0), 5)
  }

  function AccZ(d: seq<Byte>): nat
    requires |d| >= 9
  {
    Shl(And(d[8], 0x1F), 7) + Shr(And(d[7], 0xFE), 1)
  }

  /** Acceleration field i (X, Y, Z) of `parser_get_acceleration`. */
  function AccelerationField(d: seq<Byte>, i: nat): nat
    requires i < 3 && |d| >= AccelerationNeeds[i]
  {
    match i
    case 0 => AccX(d)
    case 1 => AccY(d)
    case 2 => AccZ(d)
  }

  /** `parser_get_acceleration` on a telegram long enough for all three fields. */
  function AccelerationFields(d: seq<Byte>): (r: seq<int>)
    requires |d| >= 9
    ensures |r| == 3 && forall i :: 0 <= i < 3 ==> r[i] == AccelerationField(d, i)
  {
    [AccX(d), AccY(d), AccZ(d)]
  }

  lemma AccXWindow(d: seq<Byte>)
    requires |d| >= 6
    ensures AccX(d) == Window(d, 33, 45)
  {
    Pow2Values();
    WindowSplit(d, 33, 40, 45, 128);
    WindowIsMasked(d, 4, 1, 8, 0xFE);
    WindowIsLowMasked(d, 5, 5, 0x1F);
    ShlBy(And(d[5], 0x1F), 7, 128);
  }

  lemma AccYWindow(d: seq<Byte>)
    requires |d| >= 8
    ensures AccY(d) == Window(d, 45, 57)
  {
    Pow2Values();
    WindowSplit(d, 45, 48, 57, 8);
    WindowSplit(d, 48, 56, 57, 256);
    WindowIsMasked(d, 5, 5, 8, 0xE0);
    WindowIsByte(d, 6);
    WindowIsLowMasked(d, 7, 1, 0x01);
    ShlBy(And(d[7], 0x01), 11, 2048);
    ShlBy(d[6], 3, 8);
  }

  /** AccZ reads bits 1..7 of byte 7, so it does not overlap the bit 0 that
      AccY takes from that byte. */
  lemma AccZWindow(d: seq<Byte>)
    requires |d| >= 9
    ensures AccZ(d) == Window(d, 57, 69)
  {
    Pow2Values();
    WindowSplit(d, 57, 64, 69, 128);
    WindowIsMasked(d, 7, 1, 8, 0xFE);
    WindowIsLowMasked(d, 8, 5, 0x1F);
    ShlBy(And(d[8], 0x1F), 7, 128);
  }

  /** The acceleration fields are the 12-bit stream windows at 33, 45 and 57. */
  lemma AccelerationWindows(d: seq<Byte>)
    requires |d| >= 9
    ensures AccX(d) == Window(d, 33, 45)
    ensures AccY(d) == Window(d, 45, 57)
    ensures AccZ(d) == Window(d, 57, 69)
  {
    AccXWindow(d);
    AccYWindow(d);
    AccZWindow(d);
  }

  /** A 12-bit window is below 4096. */
  lemma Bound12(d: seq<Byte>, lo: nat)
    requires lo + 12 <= 8 * |d|
    ensures Window(d, lo, lo + 12) < 4096
  {
    Pow2Values();
    WindowBound(d, lo, lo + 12);
  }

  lemma AccelerationBounds(d: seq<Byte>)
    requires |d| >= 9
    ensures forall i :: 0 <= i < 3 ==> 0 <= AccelerationFields(d)[i] < 4096
  {
    assert AccX(d) < 4096 by { AccXWindow(d); Bound12(d, 33); }
    assert AccY(d) < 4096 by { AccYWindow(d); Bound12(d, 45); }
    assert AccZ(d) < 4096 by { AccZWindow(d); Bound12(d, 57); }
  }

  /** The acceleration fields depend on stream bits 33..68 and on nothing else. */
  lemma AccelerationDependsOnItsBits(d: seq<Byte>, e: seq<Byte>)
    requires |d| >= 9 && |e| >= 9
    requires forall k :: 33 <= k < 69 ==> BitAt(d, k) == BitAt(e, k)
    ensures AccelerationFields(d) == AccelerationFields(e)
  {
    assert AccX(d) == AccX(e) by {
      AccXWindow(d);
      AccXWindow(e);
      WindowDependsOnItsBits(d, e, 33, 45);
    }
    assert AccY(d) == AccY(e) by {
      AccYWindow(d);
      AccYWindow(e);
      WindowDependsOnItsBits(d, e, 45, 57);
    }
    assert AccZ(d) == AccZ(e) by {
      AccZWindow(d);
      AccZWindow(e);
      WindowDependsOnItsBits(d, e, 57, 69);
    }
  }
}
