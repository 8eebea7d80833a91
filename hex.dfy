/** The two-hex-digits-per-byte text form in which telegrams are handed around.

    The splitter renders each byte with `f"{byte:02x}"` and the parser reads
    each two-character chunk back with `int(chunk, 16)`. Reading back is
    modelled for the lowercase text the splitter produces only; the other
    spellings `int` also accepts (uppercase, a sign, spaces) are not. */
module Hex {
  import opened Bits

  datatype Option<+T> = None | Some(value: T)

  /** A lowercase hex digit. */
  predicate IsHexDigit(c: char)
  {
    '0' <= c <= '9' || 'a' <= c <= 'f'
  }

  /** The lowercase hex digit of a nibble. */
  function HexDigit(n: nat): (c: char)
    requires n < 16
    ensures IsHexDigit(c)
  {
    if n < 10 then (48 + n) as char else (87 + n) as char
  }

  /** `f"{b:02x}"`: two lowercase hex digits, high nibble first. */
  function ByteToHex(b: Byte): (s: string)
    ensures |s| == 2 && IsHexDigit(s[0]) && IsHexDigit(s[1])
  {
    [HexDigit(b / 16), HexDigit(b % 16)]
  }

  /** The value of one lowercase hex digit. */
  function DigitValue(c: char): (r: Option<nat>)
    ensures r.Some? <==> IsHexDigit(c)
    ensures r.Some? ==> r.value < 16 && HexDigit(r.value) == c
  {
    if '0' <= c <= '9' then Some(c as int - '0' as int)
    else if 'a' <= c <= 'f' then Some(c as int - 'a' as int + 10)
    else None
  }

  lemma DigitValueOfDigit(h: nat)
    requires h < 16
    ensures DigitValue(HexDigit(h)) == Some(h)
  {
  }

  /** `int(chunk, 16)` for one two-character chunk of the lowercase text
      ToHex produces; None for any other chunk. */
  function ChunkToByte(s: string): (r: Option<Byte>)
    requires |s| == 2
    ensures r.Some? <==> IsHexDigit(s[0]) && IsHexDigit(s[1])
  {
    match (DigitValue(s[0]), DigitValue(s[1]))
    case (Some(h), Some(l)) => Some(16 * h + l)
    case _ => None
  }

  /** The hex text of a byte sequence. */
  function ToHex(bs: seq<Byte>): (s: string)
    ensures |s| == 2 * |bs|
    ensures forall i :: 0 <= i < |s| ==> IsHexDigit(s[i])
  {
    if bs == [] then "" else ByteToHex(bs[0]) + ToHex(bs[1..])
  }

  /** Reads hex text back two characters at a time; None on odd length or a non-digit. */
  function FromHex(s: string): (r: Option<seq<Byte>>)
    ensures r.Some? ==> 2 * |r.value| == |s|
    decreases |s|
  {
    if s == "" then Some([])
    else if |s| == 1 then None
    else match (ChunkToByte(s[..2]), FromHex(s[2..]))
      case (Some(b), Some(rest)) => Some([b] + rest)
      case _ => None
  }

  /** `len(packet)` of a telegram held as bytes: the length of its hex text. */
  function HexLength(bs: seq<Byte>): (n: nat)
    ensures n == |ToHex(bs)|
  {
    2 * |bs|
  }

  lemma ByteHexRoundTrip(b: Byte)
    ensures ChunkToByte(ByteToHex(b)) == Some(b)
  {
    var h, l := b / 16, b % 16;
    assert 16 * h + l == b;
    DigitValueOfDigit(h);
    DigitValueOfDigit(l);
  }

  lemma ByteToHexInjective(a: Byte, b: Byte)
    requires ByteToHex(a) == ByteToHex(b)
    ensures a == b
  {
    ByteHexRoundTrip(a);
    ByteHexRoundTrip(b);
  }

  lemma {:induction false} HexRoundTrip(bs: seq<Byte>)
    ensures FromHex(ToHex(bs)) == Some(bs)
  {
    if bs != [] {
      var s := ToHex(bs);
      assert s[..2] == ByteToHex(bs[0]) && s[2..] == ToHex(bs[1..]);
      ByteHexRoundTrip(bs[0]);
      HexRoundTrip(bs[1..]);
      assert [bs[0]] + bs[1..] == bs;
    }
  }

  lemma {:induction false} ToHexAppend(bs: seq<Byte>, b: Byte)
    ensures ToHex(bs + [b]) == ToHex(bs) + ByteToHex(b)
  {
    if bs != [] {
      assert (bs + [b])[1..] == bs[1..] + [b];
      ToHexAppend(bs[1..], b);
    } else {
      assert [b][1..] == [];
    }
  }

  /** The i-th aligned two-character chunk of the text is the i-th byte's rendering. */
  lemma {:induction false} ToHexChunk(bs: seq<Byte>, i: nat)
    requires i < |bs|
    ensures ToHex(bs)[2 * i..2 * i + 2] == ByteToHex(bs[i])
  {
    if i > 0 {
      ToHexChunk(bs[1..], i - 1);
      var h, t := ByteToHex(bs[0]), ToHex(bs[1..]);
      var s := ToHex(bs);
      assert s == h + t;
      assert s[2 * i..2 * i + 2] == t[2 * i - 2..2 * i];
    }
  }
}
