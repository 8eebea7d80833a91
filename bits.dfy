/** Bytes, the bit operations of the parser, and the telegram read as a
    little-endian bit stream.

    A byte is the value `int(chunk, 16)` gives for a two-digit chunk, and the
    parser combines such values with Python's `&`, `>>` and `<<` on
    non-negative integers; here they are `And`, `Shr` and `Shl`.

    The bit stream is the reference layout against which every header and
    measurement field is checked: bit k of a telegram is bit (k % 8) of byte
    (k / 8), and a field is a window of consecutive stream bits, least
    significant first. */
module Bits {

  type Byte = x: int | 0 <= x < 256

  function Pow2(n: nat): (r: nat)
    ensures r >= 1
  {
    if n == 0 then 1 else 2 * Pow2(n - 1)
  }

  /** The powers of two the field layout uses. */
  lemma Pow2Values()
    ensures Pow2(1) == 2 && Pow2(2) == 4 && Pow2(3) == 8 && Pow2(5) == 32
    ensures Pow2(6) == 64 && Pow2(7) == 128 && Pow2(8) == 256 && Pow2(10) == 1024
    ensures Pow2(11) == 2048 && Pow2(12) == 4096 && Pow2(13) == 8192 && Pow2(14) == 16384
    ensures Pow2(18) == 262144 && Pow2(24) == 16777216 && Pow2(26) == 67108864
    ensures Pow2(27) == 134217728
  {
    assert Pow2(1) == 2;
    assert Pow2(2) == 4;
    assert Pow2(3) == 8;
    assert Pow2(4) == 16;
    assert Pow2(5) == 32;
    assert Pow2(6) == 64;
    assert Pow2(7) == 128;
    assert Pow2(8) == 256;
    assert Pow2(9) == 512;
    assert Pow2(10) == 1024;
    assert Pow2(11) == 2048;
    assert Pow2(12) == 4096;
    assert Pow2(13) == 8192;
    assert Pow2(14) == 16384;
    assert Pow2(15) == 32768;
    assert Pow2(16) == 65536;
    assert Pow2(17) == 131072;
    assert Pow2(18) == 262144;
    assert Pow2(19) == 524288;
    assert Pow2(20) == 1048576;
    assert Pow2(21) == 2097152;
    assert Pow2(22) == 4194304;
    assert Pow2(23) == 8388608;
    assert Pow2(24) == 16777216;
    assert Pow2(25) == 33554432;
    assert Pow2(26) == 67108864;
    assert Pow2(27) == 134217728;
  }

  /** `x << n`. */
  function Shl(x: nat, n: nat): nat
  {
    if n == 0 then x else 2 * Shl(x, n - 1)
  }

  /** `x >> n`, one halving per bit. */
  function Shr(x: nat, n: nat): nat
  {
    if n == 0 then x else Shr(x, n - 1) / 2
  }

  /** `a & m`, bit by bit from the least significant one. */
  function And(a: nat, m: nat): nat
  {
    if a == 0 || m == 0 then 0
    else 2 * And(a / 2, m / 2) + (if a % 2 == 1 && m % 2 == 1 then 1 else 0)
  }

  /** The low n bits of x. */
  function Low(x: nat, n: nat): nat
  {
    if n == 0 then 0 else x % 2 + 2 * Low(x / 2, n - 1)
  }

  /** The mask with bits lo .. hi - 1 set, such as 0xFE for bits 1..7. */
  function Mask(lo: nat, hi: nat): nat
    requires lo <= hi
  {
    if lo == 0 then Pow2(hi) - 1 else 2 * Mask(lo - 1, hi - 1)
  }

  /** Bit k of the stream: bit (k % 8) of byte (k / 8). */
  function BitAt(d: seq<Byte>, k: nat): (r: nat)
    requires k < 8 * |d|
    ensures r <= 1
  {
    Shr(d[k / 8], k % 8) % 2
  }

  /** Stream bits lo .. hi - 1 as an unsigned number whose least significant
      bit is bit lo. */
  function Window(d: seq<Byte>, lo: nat, hi: nat): nat
    requires lo <= hi <= 8 * |d|
    decreases hi - lo
  {
    if lo == hi then 0 else BitAt(d, lo) + 2 * Window(d, lo + 1, hi)
  }

  // ---- Shifts and masks ----

  lemma {:induction false} ShlIsMul(w: nat, n: nat)
    ensures Shl(w, n) == Pow2(n) * w
  {
    if n > 0 {
      ShlIsMul(w, n - 1);
      assert Pow2(n) * w == 2 * (Pow2(n - 1) * w);
    }
  }

  /** `w << n` for a shift whose power of two is known. */
  lemma ShlBy(w: nat, n: nat, p: nat)
    requires p == Pow2(n)
    ensures Shl(w, n) == p * w
  {
    ShlIsMul(w, n);
  }

  /** Shifting right by n halves first and then shifts by n - 1. */
  lemma {:induction false} ShrHalf(x: nat, n: nat)
    requires n > 0
    ensures Shr(x, n) == Shr(x / 2, n - 1)
  {
    if n > 1 {
      ShrHalf(x, n - 1);
    }
  }

  lemma {:induction false} LowOfZero(n: nat)
    ensures Low(0, n) == 0
  {
    if n > 0 {
      LowOfZero(n - 1);
    }
  }

  lemma {:induction false} ShrOfZero(n: nat)
    ensures Shr(0, n) == 0
  {
    if n > 0 {
      ShrOfZero(n - 1);
    }
  }

  lemma {:induction false} ShlOfZero(n: nat)
    ensures Shl(0, n) == 0
  {
    if n > 0 {
      ShlOfZero(n - 1);
    }
  }

  /** Masking with the low n bits keeps the low n bits. */
  lemma {:induction false} AndLowMask(x: nat, n: nat)
    ensures And(x, Pow2(n) - 1) == Low(x, n)
  {
    if n > 0 {
      AndLowMask(x / 2, n - 1);
      assert (Pow2(n) - 1) / 2 == Pow2(n - 1) - 1 && (Pow2(n) - 1) % 2 == 1;
      if x == 0 {
        LowOfZero(n);
      }
    }
  }

  /** `x & Mask(lo, hi)` is the window lo .. hi - 1 of x, left in place. */
  lemma {:induction false} AndMask(x: nat, lo: nat, hi: nat)
    requires lo <= hi
    ensures And(x, Mask(lo, hi)) == Shl(Low(Shr(x, lo), hi - lo), lo)
    decreases lo
  {
    if lo == 0 {
      AndLowMask(x, hi);
    } else {
      AndMask(x / 2, lo - 1, hi - 1);
      ShrHalf(x, lo);
      var m := Mask(lo - 1, hi - 1);
      assert Mask(lo, hi) == 2 * m;
      if x == 0 {
        ShrOfZero(lo);
        LowOfZero(hi - lo);
        ShlOfZero(lo);
      } else if m == 0 {
        ShlOfZero(lo - 1);
      }
    }
  }

  lemma {:induction false} ShrShl(w: nat, n: nat)
    ensures Shr(Shl(w, n), n) == w
  {
    if n > 0 {
      ShrHalf(Shl(w, n), n);
      ShrShl(w, n - 1);
    }
  }

  /** `(x & Mask(lo, hi)) >> lo` is the window lo .. hi - 1 of x. */
  lemma AndMaskShr(x: nat, lo: nat, hi: nat)
    requires lo <= hi
    ensures Shr(And(x, Mask(lo, hi)), lo) == Low(Shr(x, lo), hi - lo)
  {
    AndMask(x, lo, hi);
    ShrShl(Low(Shr(x, lo), hi - lo), lo);
  }

  /** A number below 2^n is its own low n bits. */
  lemma {:induction false} LowOfSmall(x: nat, n: nat)
    requires x < Pow2(n)
    ensures Low(x, n) == x
  {
    if n > 0 {
      LowOfSmall(x / 2, n - 1);
    }
  }

  // ---- Windows ----

  /** A window is its low part plus its high part shifted into place. */
  lemma {:induction false} WindowConcat(d: seq<Byte>, lo: nat, mid: nat, hi: nat)
    requires lo <= mid <= hi <= 8 * |d|
    ensures Window(d, lo, hi) == Window(d, lo, mid) + Shl(Window(d, mid, hi), mid - lo)
    decreases mid - lo
  {
    if lo < mid {
      WindowConcat(d, lo + 1, mid, hi);
    }
  }

  /** WindowConcat with the shift written as a multiplication by p == 2^(mid - lo). */
  lemma WindowSplit(d: seq<Byte>, lo: nat, mid: nat, hi: nat, p: nat)
    requires lo <= mid <= hi <= 8 * |d| && p == Pow2(mid - lo)
    ensures Window(d, lo, hi) == Window(d, lo, mid) + p * Window(d, mid, hi)
  {
    WindowConcat(d, lo, mid, hi);
    ShlBy(Window(d, mid, hi), mid - lo, p);
  }

  lemma {:induction false} WindowBound(d: seq<Byte>, lo: nat, hi: nat)
    requires lo <= hi <= 8 * |d|
    ensures Window(d, lo, hi) < Pow2(hi - lo)
    decreases hi - lo
  {
    if lo < hi {
      WindowBound(d, lo + 1, hi);
      var w, p := Window(d, lo + 1, hi), Pow2(hi - (lo + 1));
      assert w < p;
      assert Window(d, lo, hi) == BitAt(d, lo) + 2 * w;
      assert Pow2(hi - lo) == 2 * p;
    }
  }

  /** A window that lies inside byte k is the low hi - lo bits of that byte
      shifted right by lo. */
  lemma {:induction false} WindowInByte(d: seq<Byte>, k: nat, lo: nat, hi: nat)
    requires k < |d| && lo <= hi <= 8
    ensures Window(d, 8 * k + lo, 8 * k + hi) == Low(Shr(d[k], lo), hi - lo)
    decreases hi - lo
  {
    if lo < hi {
      WindowInByte(d, k, lo + 1, hi);
      assert (8 * k + lo) / 8 == k && (8 * k + lo) % 8 == lo;
    }
  }

  /** `(d[k] & m) >> lo`, for the mask m of bits lo .. hi - 1, is the stream
      window over those bits of byte k. */
  lemma WindowIsMasked(d: seq<Byte>, k: nat, lo: nat, hi: nat, m: nat)
    requires k < |d| && lo <= hi <= 8 && m == Mask(lo, hi)
    ensures Window(d, 8 * k + lo, 8 * k + hi) == Shr(And(d[k], m), lo)
  {
    WindowInByte(d, k, lo, hi);
    AndMaskShr(d[k], lo, hi);
  }

  /** `d[k] & m`, for the mask m of the low bits 0 .. hi - 1. */
  lemma WindowIsLowMasked(d: seq<Byte>, k: nat, hi: nat, m: nat)
    requires k < |d| && hi <= 8 && m == Mask(0, hi)
    ensures Window(d, 8 * k, 8 * k + hi) == And(d[k], m)
  {
    WindowIsMasked(d, k, 0, hi, m);
  }

  /** `d[k] & m` without a shift keeps the window in place. */
  lemma WindowInPlace(d: seq<Byte>, k: nat, lo: nat, hi: nat, m: nat)
    requires k < |d| && lo <= hi <= 8 && m == Mask(lo, hi)
    ensures Shl(Window(d, 8 * k + lo, 8 * k + hi), lo) == And(d[k], m)
  {
    WindowInByte(d, k, lo, hi);
    AndMask(d[k], lo, hi);
  }

  /** Byte k whole is the stream window over its eight bits. */
  lemma WindowIsByte(d: seq<Byte>, k: nat)
    requires k < |d|
    ensures Window(d, 8 * k, 8 * k + 8) == d[k]
  {
    WindowIsLow(d, k, 8);
    LowOfByte(d[k]);
  }

  lemma WindowIsLow(d: seq<Byte>, k: nat, n: nat)
    requires k < |d| && n <= 8
    ensures Window(d, 8 * k, 8 * k + n) == Low(d[k], n)
  {
    WindowInByte(d, k, 0, n);
    ShrZero(d[k]);
  }

  lemma ShrZero(x: nat)
    ensures Shr(x, 0) == x
  {
  }

  lemma LowOfByte(b: Byte)
    ensures Low(b, 8) == b
  {
    assert Pow2(8) == 256;
    LowOfSmall(b, 8);
  }

  /** A window depends on the stream bits it covers and on no others. */
  lemma {:induction false} WindowDependsOnItsBits(d: seq<Byte>, e: seq<Byte>, lo: nat, hi: nat)
    requires lo <= hi <= 8 * |d| && hi <= 8 * |e|
    requires forall k :: lo <= k < hi ==> BitAt(d, k) == BitAt(e, k)
    ensures Window(d, lo, hi) == Window(e, lo, hi)
    decreases hi - lo
  {
    if lo < hi {
      WindowDependsOnItsBits(d, e, lo + 1, hi);
    }
  }

  // ---- Division ----

  lemma MulGap(m: int, a: int, b: int)
    requires m > 0 && a > b
    ensures m * a - m * b >= m
    decreases a - b
  {
    if a - 1 > b {
      MulGap(m, a - 1, b);
    }
    assert m * a == m * (a - 1) + m;
  }

  /** Quotient and remainder are determined by any decomposition
      x == m * t + s with 0 <= s < m. */
  lemma DivModUnique(x: int, m: int, t: int, s: int)
    requires m > 0 && x == m * t + s && 0 <= s < m
    ensures x / m == t && x % m == s
  {
    var k, r := x / m, x % m;
    assert m * k - m * t == s - r;
    assert k == t by {
      if k > t {
        MulGap(m, k, t);
        assert false;
      } else if k < t {
        MulGap(m, t, k);
        assert false;
      }
    }
  }
}
