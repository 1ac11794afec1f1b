/**
 * The fixed-point format layer of the math kernel: the 32-bit fixed-point
 * type, the 16-bit angle type, the C integer semantics the macros rely on
 * (truncating division, arithmetic right shift, narrowing to 16 bits) and
 * the Q-format multiply, divide, absolute value and format conversions.
 *
 * Every macro is modelled as a function of integer values. Signed overflow
 * is undefined in C, so each function requires that its intermediate
 * values fit the 32-bit type instead of modelling wrap-around.
 */
module FixedPoint {
  import opened Arith

  predicate IsInt32(x: int) { -0x8000_0000 <= x <= 0x7FFF_FFFF }

  /** TFp: a number scaled by 2^F, held in a signed 32-bit integer. */
  type TFp = x: int | -0x8000_0000 <= x <= 0x7FFF_FFFF

  /** TAngle: a full turn is 65536 steps of a signed 16-bit integer. */
  type TAngle = x: int | -0x8000 <= x <= 0x7FFF

  type Uint32 = x: int | 0 <= x < 0x1_0000_0000

  /** The global fixed-point format F (number of fractional bits). */
  const GlobalFpFormat: nat := 12

  /** Formats for which the Q-format conversion macros exist. */
  predicate IsFormat(n: int) { 0 <= n <= 30 }

  // ---------------------------------------------------------------------
  // C integer semantics
  // ---------------------------------------------------------------------

  /**
   * Integer division as C performs it (ISO/IEC 9899:1999 section 6.5.5
   * paragraph 6): the quotient is truncated toward zero.
   */
  function CDiv(a: int, b: int): (q: int)
    requires b != 0
    ensures Abs(q) * Abs(b) <= Abs(a) < (Abs(q) + 1) * Abs(b)
    ensures q == 0 || ((q < 0) <==> ((a < 0) != (b < 0)))
    ensures Abs(q) <= Abs(a)
  {
    var m: int := Quot(Abs(a), Abs(b));
    if (a < 0) == (b < 0) then m else -m
  }

  /** A truncating division by a positive divisor stays in the 32-bit range. */
  lemma CDivInt32(a: int, b: int)
    requires IsInt32(a) && b > 0
    ensures IsInt32(CDiv(a, b))
  {
  }

  /** Truncating division commutes with negating the dividend. */
  lemma CDivNegate(a: int, b: int)
    requires b != 0
    ensures CDiv(-a, b) == -CDiv(a, b)
  {
    assert Abs(-a) == Abs(a);
  }

  /** A dividend smaller in magnitude than the divisor truncates to zero. */
  lemma CDivSmall(a: int, b: int)
    requires b != 0 && Abs(a) < Abs(b)
    ensures CDiv(a, b) == 0
  {
    MulSign(Abs(CDiv(a, b)), Abs(b));
  }

  /** An exact multiple divides back exactly. */
  lemma CDivExact(q: int, b: int)
    requires b != 0
    ensures CDiv(q * b, b) == q
  {
    AbsMul(q, b);
    DivMulExact(Abs(q), Abs(b));
  }

  /**
   * Right shift of a signed value (C99 section 6.5.7 paragraph 5 leaves it
   * implementation-defined for negative values): taken as the arithmetic
   * shift, i.e. floor division by 2^n.
   */
  function Asr(x: int, n: nat): (r: int)
    ensures x >= 0 ==> 0 <= r <= x
    ensures x < 0 ==> x <= r < 0
  {
    if n == 0 then x else Asr(x, n - 1) / 2
  }

  /** The arithmetic shift is the floor of the quotient by 2^n. */
  lemma {:induction false} AsrFloor(x: int, n: nat)
    ensures Asr(x, n) * Pow2(n) <= x < (Asr(x, n) + 1) * Pow2(n)
  {
    if n > 0 {
      AsrFloor(x, n - 1);
      HalveFloor(x, Asr(x, n - 1), Pow2(n - 1));
    }
  }

  /**
   * Narrowing conversion to int16 (C99 section 6.3.1.3 paragraph 3 leaves it
   * implementation-defined): taken as the wrap modulo 2^16.
   */
  function Wrap16(x: int): (r: TAngle)
    ensures (x - r) % 0x1_0000 == 0
    ensures -0x8000 <= x <= 0x7FFF ==> r == x
  {
    var s := x + 0x8000;
    assert s == (s / 0x1_0000) * 0x1_0000 + s % 0x1_0000;
    DivMulExact(s / 0x1_0000, 0x1_0000);
    if -0x8000 <= x <= 0x7FFF then
      DivModUnique(s, 0x1_0000, 0, s);
      s % 0x1_0000 - 0x8000
    else
      s % 0x1_0000 - 0x8000
  }

  // ---------------------------------------------------------------------
  // Angle constants
  // ---------------------------------------------------------------------

  /** 360 degrees as an unsigned 16-bit count. */
  const Shift360: int := 65536
  /** The 360 degree constant is written as 65535 and narrows to -1. */
  const TwoPi: TAngle := Wrap16(65535)
  const Pi: TAngle := 32767
  /** The -180 degree constant is written as 32768 and narrows to -32768. */
  const NegPi: TAngle := Wrap16(32768)
  const PiHalf: TAngle := 16384
  const NegPiHalf: TAngle := -16384
  const PiQuarter: TAngle := 8192
  const NegPiQuarter: TAngle := -8192
  const PiThird: TAngle := 10923

  /** 1/sqrt(3) in Q15 and in the global format, 2/sqrt(3) in the global format. */
  const Sqrt3InvQ15: TFp := 18918
  const Sqrt3InvQ: TFp := 2364
  const TwoDivSqrt3Q: TFp := 4729
  /** Sine of 90 degrees in Q15, the largest sine table entry. */
  const SinMaxQ15: TFp := 32768

  // ---------------------------------------------------------------------
  // Multiplication, division, absolute value
  // ---------------------------------------------------------------------

  /**
   * FPM_FpMulQn: the raw product of two Qn numbers is in Q(2n); dividing it
   * by 2^n, truncating toward zero, gives the Qn product.
   */
  function FpMulQn(x: TFp, y: TFp, n: nat): (r: TFp)
    requires 1 <= n <= 30
    requires IsInt32(x * y)
    ensures Abs(r) * Pow2(n) <= Abs(x * y) < (Abs(r) + 1) * Pow2(n)
    ensures r == 0 || ((r < 0) <==> (x * y < 0))
  {
    CDivInt32(x * y, Pow2(n));
    CDiv(x * y, Pow2(n))
  }

  /** FPM_FpMul: the multiplication in the global format. */
  function FpMul(x: TFp, y: TFp): (r: TFp)
    requires IsInt32(x * y)
    ensures Abs(r) * 4096 <= Abs(x * y) < (Abs(r) + 1) * 4096
    ensures r == 0 || ((r < 0) <==> (x * y < 0))
  {
    Pow2Values();
    FpMulQn(x, y, GlobalFpFormat)
  }

  /**
   * FPM_FpDivQn: the dividend is scaled up by 2^n before the truncating
   * integer division. The scaled dividend and the quotient must fit 32 bits.
   */
  function FpDivQn(x: TFp, y: TFp, n: nat): (r: TFp)
    requires 1 <= n <= 30
    requires y != 0
    requires IsInt32(x * Pow2(n))
    requires IsInt32(CDiv(x * Pow2(n), y))
    ensures Abs(r) * Abs(y) <= Abs(x) * Pow2(n) < (Abs(r) + 1) * Abs(y)
    ensures r == 0 || ((r < 0) <==> ((x < 0) != (y < 0)))
  {
    AbsMul(x, Pow2(n));
    MulSign(x, Pow2(n));
    CDiv(x * Pow2(n), y)
  }

  /** FPM_FpDiv: the division in the global format. */
  function FpDiv(x: TFp, y: TFp): (r: TFp)
    requires y != 0
    requires IsInt32(x * 4096)
    requires IsInt32(CDiv(x * 4096, y))
    ensures Abs(r) * Abs(y) <= Abs(x) * 4096 < (Abs(r) + 1) * Abs(y)
    ensures r == 0 || ((r < 0) <==> ((x < 0) != (y < 0)))
  {
    Pow2Values();
    FpDivQn(x, y, GlobalFpFormat)
  }

  /** FPM_FpAbs: undefined for the most negative value, whose negation overflows. */
  function FpAbs(x: TFp): (r: TFp)
    requires x != -0x8000_0000
    ensures r >= 0
    ensures r == x || r == -x
  {
    if x >= 0 then x else -x
  }

  /** The number one in Qn. */
  function One(n: nat): (r: TFp)
    requires n <= 30
    ensures r == Pow2(n)
  {
    Pow2UpTo30(n);
    Pow2(n)
  }

  /** Multiplying by one in the same format gives the operand back. */
  lemma FpMulQnByOne(x: TFp, n: nat)
    requires 1 <= n <= 30
    requires IsInt32(x * One(n))
    ensures FpMulQn(x, One(n), n) == x
  {
    CDivExact(x, Pow2(n));
  }

  /** Dividing by one in the same format gives the operand back. */
  lemma FpDivQnByOne(x: TFp, n: nat)
    requires 1 <= n <= 30
    requires IsInt32(x * Pow2(n))
    ensures CDiv(x * Pow2(n), One(n)) == x
    ensures FpDivQn(x, One(n), n) == x
  {
    CDivExact(x, Pow2(n));
  }

  /** Truncation toward zero makes the multiplication odd in each operand. */
  lemma FpMulQnNegate(x: TFp, y: TFp, n: nat)
    requires 1 <= n <= 30
    requires IsInt32(x * y) && x * y != -0x8000_0000 && x != -0x8000_0000
    ensures IsInt32(-x * y)
    ensures FpMulQn(-x, y, n) == -FpMulQn(x, y, n)
  {
    assert -x * y == -(x * y);
    CDivNegate(x * y, Pow2(n));
  }

  // ---------------------------------------------------------------------
  // Format conversion
  // ---------------------------------------------------------------------

  /**
   * FPM_QxtoQy: a Qx value is converted to Qy by a truncating division by
   * 2^(x-y) when x >= y and by a multiplication by 2^(y-x) otherwise.
   */
  function QxtoQy(v: TFp, x: nat, y: nat): (r: TFp)
    requires IsFormat(x) && IsFormat(y)
    requires x < y ==> IsInt32(v * Pow2(y - x))
    ensures x >= y ==> Abs(r) * Pow2(x - y) <= Abs(v) < (Abs(r) + 1) * Pow2(x - y)
    ensures x >= y ==> r == 0 || ((r < 0) <==> (v < 0))
    ensures x < y ==> r / Pow2(y - x) == v && r % Pow2(y - x) == 0
  {
    if x >= y then
      CDivInt32(v, Pow2(x - y));
      CDiv(v, Pow2(x - y))
    else
      DivMulExact(v, Pow2(y - x));
      v * Pow2(y - x)
  }

  /** Converting to a wider format and back is lossless. */
  lemma ConvertUpDownRoundTrip(v: TFp, x: nat, y: nat)
    requires IsFormat(x) && IsFormat(y) && x <= y
    requires IsInt32(v * Pow2(y - x))
    ensures QxtoQy(QxtoQy(v, x, y), y, x) == v
  {
    CDivExact(v, Pow2(y - x));
  }

  /**
   * Converting to a narrower format and back truncates toward zero: the
   * result is the multiple of 2^(x-y) next to v on the side of zero.
   */
  lemma ConvertDownUpTruncates(v: TFp, x: nat, y: nat)
    requires IsFormat(x) && IsFormat(y) && y < x
    ensures IsInt32(QxtoQy(v, x, y) * Pow2(x - y))
    ensures var w := QxtoQy(QxtoQy(v, x, y), y, x);
      && w % Pow2(x - y) == 0
      && Abs(w) <= Abs(v) < Abs(w) + Pow2(x - y)
      && (w == 0 || ((w < 0) <==> (v < 0)))
  {
    var p := Pow2(x - y);
    var r := QxtoQy(v, x, y);
    ScaleBack(v, r, p);
    DivMulExact(r, p);
  }

  /** A truncated quotient scaled back by its divisor lies between zero and the dividend. */
  lemma ScaleBack(v: TFp, r: int, p: nat)
    requires p > 0
    requires Abs(r) * p <= Abs(v) < (Abs(r) + 1) * p
    requires r == 0 || ((r < 0) <==> (v < 0))
    ensures IsInt32(r * p)
    ensures Abs(r * p) <= Abs(v) < Abs(r * p) + p
    ensures r * p == 0 || ((r * p < 0) <==> (v < 0))
  {
    AbsMul(r, p);
    MulSign(r, p);
    assert (Abs(r) + 1) * p == Abs(r) * p + p;
  }

  /**
   * FPM_GQtoQn for n = 1..30, written as the header writes it: Q30 always
   * multiplies, Q1 always divides, the others test the global format.
   */
  function GQtoQn(v: TFp, n: nat): (r: TFp)
    requires 1 <= n <= 30
    requires GlobalFpFormat < n ==> IsInt32(v * Pow2(n - GlobalFpFormat))
    ensures r == QxtoQy(v, GlobalFpFormat, n)
  {
    if n == 30 then
      v * Pow2(30 - GlobalFpFormat)
    else if n == 1 then
      CDivInt32(v, Pow2(GlobalFpFormat - 1));
      CDiv(v, Pow2(GlobalFpFormat - 1))
    else if GlobalFpFormat >= n then
      CDivInt32(v, Pow2(GlobalFpFormat - n));
      CDiv(v, Pow2(GlobalFpFormat - n))
    else
      v * Pow2(n - GlobalFpFormat)
  }

  /** FPM_QntoGQ for n = 1..30, written as the header writes it. */
  function QntoGQ(v: TFp, n: nat): (r: TFp)
    requires 1 <= n <= 30
    requires n < GlobalFpFormat ==> IsInt32(v * Pow2(GlobalFpFormat - n))
    ensures r == QxtoQy(v, n, GlobalFpFormat)
  {
    if n == 30 then
      CDivInt32(v, Pow2(30 - GlobalFpFormat));
      CDiv(v, Pow2(30 - GlobalFpFormat))
    else if n == 1 then
      v * Pow2(GlobalFpFormat - 1)
    else if GlobalFpFormat >= n then
      v * Pow2(GlobalFpFormat - n)
    else
      CDivInt32(v, Pow2(n - GlobalFpFormat));
      CDiv(v, Pow2(n - GlobalFpFormat))
  }
}
