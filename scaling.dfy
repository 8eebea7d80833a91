/** The linear map `convert_numeric_to_scale` that turns raw field values
    into physical units, and the ranges the parser uses it with.

    A raw value of 0 always maps to 0. Any other value v maps to
    `slope * v + out_min - slope` with `slope = (out_max - out_min) /
    (in_max - in_min)`: the line goes through (1, out_min), whatever in_min
    is. Every range of the parser has in_min = 1, so the line also goes
    through (in_max, out_max). Arithmetic is exact here; the float32 storage
    of the parser's arrays is not modelled. */
module Scaling {

  /** The slope of a range: the output span per unit of input span. */
  function Slope(inMin: int, inMax: int, outMin: int, outMax: int): (r: real)
    requires inMax != inMin
    ensures r * (inMax - inMin) as real == (outMax - outMin) as real
    ensures inMin < inMax && outMin < outMax ==> r > 0.0
  {
    (outMax - outMin) as real / (inMax - inMin) as real
  }

  /** `convert_numeric_to_scale(value, in_min, in_max, out_min, out_max)`. */
  function ConvertNumericToScale(value: int, inMin: int, inMax: int, outMin: int, outMax: int): (r: real)
    requires inMax != inMin
    ensures value == 0 ==> r == 0.0
  {
    if value == 0 then 0.0
    else
      var slope := Slope(inMin, inMax, outMin, outMax);
      var offset := outMin as real - slope;
      slope * value as real + offset
  }

  /** One of the ranges the parser passes to the scaler. */
  datatype Range = Range(inMin: int, inMax: int, outMin: int, outMax: int)
  {
    /** The shape of every range of the parser: inputs from 1, outputs rising. */
    predicate WellFormed()
    {
      inMin == 1 && inMax > 1 && outMin < outMax
    }

    function Scale(value: int): real
      requires inMax != inMin
    {
      ConvertNumericToScale(value, inMin, inMax, outMin, outMax)
    }
  }

  /** Strain X, Y, Z, P1 and P2: 13 bits onto -3000 .. 3000 microstrain. */
  const StrainRange := Range(1, 8191, -3000, 3000)
  /** Principal strain angle: 13 bits onto -90 .. 90 degrees. */
  const AngleRange := Range(1, 8191, -90, 90)
  /** Battery voltage: 9 bits onto 0 .. 4 V. */
  const BatteryRange := Range(1, 511, 0, 4)
  /** Pressure: 14 bits onto 0 .. 1200 hPa. */
  const PressureRange := Range(1, 16383, 0, 1200)
  /** Humidity: 10 bits onto 0 .. 100 %. */
  const HumidityRange := Range(1, 1023, 0, 100)
  /** Temperature: 11 bits onto -60 .. 115 degrees Celsius. */
  const TemperatureRange := Range(1, 2047, -60, 115)
  /** Acceleration X, Y, Z: 12 bits onto -16 .. 16 g. */
  const AccelerationRange := Range(1, 4095, -16, 16)

  /** The ranges of the parser, each with in_min = 1 and a rising output. */
  predicate IsParserRange(rg: Range)
  {
    rg == StrainRange || rg == AngleRange || rg == BatteryRange || rg == PressureRange
      || rg == HumidityRange || rg == TemperatureRange || rg == AccelerationRange
  }

  lemma ParserRangesWellFormed(rg: Range)
    requires IsParserRange(rg)
    ensures rg.WellFormed() && rg.outMin <= 0 <= rg.outMax
  {
  }

  /** A nonzero value lies on the line of slope `Slope` through (1, out_min). */
  lemma {:induction false} ScaleOnLine(value: int, inMin: int, inMax: int, outMin: int, outMax: int)
    requires inMax != inMin && value != 0
    ensures ConvertNumericToScale(value, inMin, inMax, outMin, outMax)
      == outMin as real + Slope(inMin, inMax, outMin, outMax) * (value - 1) as real
  {
    var s := Slope(inMin, inMax, outMin, outMax);
    assert s * value as real + (outMin as real - s) == outMin as real + s * (value as real - 1.0);
  }

  /** Raw 1 maps to out_min; with in_min = 1, raw in_max maps to out_max. */
  lemma ScaleEnds(inMin: int, inMax: int, outMin: int, outMax: int)
    requires inMax != inMin
    ensures ConvertNumericToScale(1, inMin, inMax, outMin, outMax) == outMin as real
    ensures inMin == 1 && inMax != 0 ==> ConvertNumericToScale(inMax, inMin, inMax, outMin, outMax) == outMax as real
  {
    ScaleOnLine(1, inMin, inMax, outMin, outMax);
    if inMin == 1 && inMax != 0 {
      ScaleOnLine(inMax, inMin, inMax, outMin, outMax);
      var s := Slope(inMin, inMax, outMin, outMax);
      assert s * (inMax - 1) as real == (outMax - outMin) as real;
    }
  }

  /** On nonzero inputs the map is affine: a difference of inputs scales by the slope. */
  lemma ScaleAffine(a: int, b: int, inMin: int, inMax: int, outMin: int, outMax: int)
    requires inMax != inMin && a != 0 && b != 0
    ensures ConvertNumericToScale(a, inMin, inMax, outMin, outMax) - ConvertNumericToScale(b, inMin, inMax, outMin, outMax)
      == Slope(inMin, inMax, outMin, outMax) * (a - b) as real
  {
    ScaleOnLine(a, inMin, inMax, outMin, outMax);
    ScaleOnLine(b, inMin, inMax, outMin, outMax);
    var s := Slope(inMin, inMax, outMin, outMax);
    assert s * (a - 1) as real - s * (b - 1) as real == s * (a - b) as real;
  }

  /** With a rising range the map is strictly increasing on nonzero inputs. */
  lemma ScaleIncreasing(a: int, b: int, inMin: int, inMax: int, outMin: int, outMax: int)
    requires inMin < inMax && outMin < outMax && a != 0 && b != 0 && a < b
    ensures ConvertNumericToScale(a, inMin, inMax, outMin, outMax) < ConvertNumericToScale(b, inMin, inMax, outMin, outMax)
  {
    ScaleAffine(b, a, inMin, inMax, outMin, outMax);
    var s := Slope(inMin, inMax, outMin, outMax);
    assert s > 0.0;
    assert s * (b - a) as real > 0.0;
  }

  /** A raw value of a parser range between 0 and in_max scales into the
      output range. */
  lemma ScaleInRange(value: int, rg: Range)
    requires IsParserRange(rg) && 0 <= value <= rg.inMax
    ensures rg.outMin as real <= rg.Scale(value) <= rg.outMax as real
  {
    ParserRangesWellFormed(rg);
    if value != 0 {
      ScaleEnds(rg.inMin, rg.inMax, rg.outMin, rg.outMax);
      if value > 1 {
        ScaleIncreasing(1, value, rg.inMin, rg.inMax, rg.outMin, rg.outMax);
      }
      if value < rg.inMax {
        ScaleIncreasing(value, rg.inMax, rg.inMin, rg.inMax, rg.outMin, rg.outMax);
      }
    }
  }

  /** The initial value -1 of the parser's raw arrays scales to below out_min,
      outside every output range. */
  lemma SentinelOutOfRange(rg: Range)
    requires rg.WellFormed()
    ensures rg.Scale(-1) < rg.outMin as real
  {
    ScaleEnds(rg.inMin, rg.inMax, rg.outMin, rg.outMax);
    ScaleIncreasing(-1, 1, rg.inMin, rg.inMax, rg.outMin, rg.outMax);
  }

  /** The middle raw values of the symmetric ranges map to 0. */
  lemma Midpoints()
    ensures StrainRange.Scale(4096) == 0.0
    ensures AngleRange.Scale(4096) == 0.0
    ensures AccelerationRange.Scale(2048) == 0.0
  {
  }

  /** The ends of every parser range. */
  lemma RangeEnds(rg: Range)
    requires IsParserRange(rg)
    ensures rg.Scale(1) == rg.outMin as real && rg.Scale(rg.inMax) == rg.outMax as real
  {
    ScaleEnds(rg.inMin, rg.inMax, rg.outMin, rg.outMax);
  }
}
