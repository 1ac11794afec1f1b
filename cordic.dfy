/**
 * FPM_vCart2Pol: the CORDIC conversion of a cartesian number into
 * magnitude and angle by shift-and-add micro-rotations.
 *
 * The input is first turned by a quarter turn into the right half-plane,
 * then 14 micro-rotations drive the imaginary part towards zero while the
 * angle steps of the rotations are accumulated; the real part that is left
 * is scaled by the CORDIC gain to give the magnitude.
 */
module Cordic {
  import opened Arith
  import opened FixedPoint

  /** FPM_CORDIC_ITERATIONS. */
  const CordicIterations: nat := 14

  /** FPM_CORDIC_SCALE_FACTOR_Q16: 0.607253 in Q16. */
  const CordicScaleFactorQ16: int := 39796

  /** Number of entries of the angle-step table. */
  const CordicAngleTabSize: nat := 16

  /**
   * FPM_tCordicAngleTabQ15: the read-only table of the angle steps
   * atan(2^-i) in angle units, i = 0 .. 15, read by its index.
   */
  function CordicAngleTabQ15(i: nat): (a: TAngle)
    requires i < CordicAngleTabSize
    ensures 0 <= a <= 8192
  {
    match i
    case 0 => 8192 case 1 => 4836 case 2 => 2555 case 3 => 1297
    case 4 => 651 case 5 => 326 case 6 => 163 case 7 => 81
    case 8 => 41 case 9 => 20 case 10 => 10 case 11 => 5
    case 12 => 3 case 13 => 1 case 14 => 1 case _ => 0
  }

  /** TCartNum. */
  datatype CartNum = CartNum(tRe: TFp, tIm: TFp)

  /** TPolNum, written by the conversion through its out-pointer. */
  class PolNum {
    var tMag: TFp
    var siAngle: TAngle
  }

  /** The working vector of the iteration and the angle accumulated so far. */
  datatype Rot = Rot(re: int, im: int, angle: int)

  // ---------------------------------------------------------------------
  // Pre-rotation
  // ---------------------------------------------------------------------

  /** The pre-rotation negates one component, which must not be INT32_MIN. */
  predicate PreRotateDefined(c: CartNum)
  {
    && (c.tRe < 0 && c.tIm < 0 ==> c.tIm != -0x8000_0000)
    && (c.tRe < 0 && c.tIm >= 0 ==> c.tRe != -0x8000_0000)
  }

  /**
   * (re, im) turned counter-clockwise by the angle `offset`, which is a
   * quarter turn either way or nothing.
   */
  function QuarterTurn(re: int, im: int, offset: int): (int, int)
  {
    if offset == PiHalf then (-im, re)
    else if offset == NegPiHalf then (im, -re)
    else (re, im)
  }

  /**
   * The working vector and the angle offset: the working vector lies in
   * the right half-plane, and turning it by the offset gives back the input.
   */
  function PreRotate(c: CartNum): (w: (CartNum, TAngle))
    requires PreRotateDefined(c)
    ensures w.0.tRe >= 0
    ensures w.1 == NegPiHalf || w.1 == 0 || w.1 == PiHalf
    ensures (w.1 == 0) == (c.tRe >= 0)
  {
    if c.tRe < 0 then
      if c.tIm < 0 then (CartNum(-c.tIm, c.tRe), NegPiHalf)
      else (CartNum(c.tIm, -c.tRe), PiHalf)
    else (c, 0)
  }

  /** Turning the working vector by the offset gives back the input. */
  lemma PreRotateInverse(c: CartNum)
    requires PreRotateDefined(c)
    ensures QuarterTurn(PreRotate(c).0.tRe, PreRotate(c).0.tIm, PreRotate(c).1) == (c.tRe, c.tIm)
  {
  }

  /** A vector already in the right half-plane is not pre-rotated. */
  lemma PreRotateRightHalf(c: CartNum)
    requires c.tRe >= 0
    ensures PreRotate(c) == (c, 0)
  {
  }

  // ---------------------------------------------------------------------
  // The micro-rotations
  // ---------------------------------------------------------------------

  /** Sum of the first k angle steps. */
  function TabSum(k: nat): (s: int)
    requires k <= CordicAngleTabSize
  {
    if k == 0 then 0 else TabSum(k - 1) + CordicAngleTabQ15(k - 1)
  }

  /** The angle steps are never negative, so their partial sums grow. */
  lemma {:induction false} TabSumMonotone(j: nat, k: nat)
    requires j <= k <= CordicAngleTabSize
    ensures 0 <= TabSum(j) <= TabSum(k)
    decreases k
  {
    if j < k {
      TabSumMonotone(j, k - 1);
    } else if j > 0 {
      TabSumMonotone(j - 1, j - 1);
    }
  }

  /** The loop only reads the first 14 entries of the 16-entry angle table. */
  lemma AngleTableUse()
    ensures CordicIterations < CordicAngleTabSize
    ensures TabSum(CordicIterations) == 18181
  {
    assert TabSum(4) == 16880;
    assert TabSum(8) == 18101;
    assert TabSum(12) == 18177;
  }

  /**
   * Micro-rotation i: turn towards the real axis by atan(2^-i), with the
   * CORDIC gain, and accumulate the turned angle. The real part never
   * shrinks, and grows whenever the imaginary part is negative.
   */
  function Micro(v: Rot, i: nat): (r: Rot)
    requires i < CordicAngleTabSize
    ensures r.re >= v.re && (v.im < 0 ==> r.re > v.re)
    ensures Abs(r.angle - v.angle) == CordicAngleTabQ15(i)
    ensures (r.angle < v.angle) == (v.im < 0 && CordicAngleTabQ15(i) != 0)
  {
    if v.im < 0 then
      Rot(v.re - Asr(v.im, i), v.im + Asr(v.re, i), v.angle - CordicAngleTabQ15(i))
    else
      Rot(v.re + Asr(v.im, i), v.im - Asr(v.re, i), v.angle + CordicAngleTabQ15(i))
  }

  /** The first k micro-rotations; the real part never shrinks. */
  function Rotations(v: Rot, k: nat): (r: Rot)
    requires k <= CordicIterations
    ensures r.re >= v.re
  {
    if k == 0 then v else Micro(Rotations(v, k - 1), k - 1)
  }

  /** After k micro-rotations the angle has moved by at most the first k steps. */
  lemma {:induction false} RotationsAngle(v: Rot, k: nat)
    requires k <= CordicIterations
    ensures Abs(Rotations(v, k).angle - v.angle) <= TabSum(k)
  {
    if k > 0 {
      RotationsAngle(v, k - 1);
      var p := Rotations(v, k - 1);
      var step := CordicAngleTabQ15(k - 1);
      assert Abs(Micro(p, k - 1).angle - p.angle) == step;
      assert TabSum(k) == TabSum(k - 1) + step;
      assert Rotations(v, k) == Micro(p, k - 1);
    }
  }

  /** The working vector at the start of the loop, with the angle cleared. */
  function Start(c: CartNum): (v: Rot)
    requires PreRotateDefined(c)
  {
    var w := PreRotate(c).0;
    Rot(w.tRe, w.tIm, 0)
  }

  /** The state after the loop: |accumulated angle| <= 18181, real part >= 0. */
  function Final(c: CartNum): (r: Rot)
    requires PreRotateDefined(c)
    ensures Abs(r.angle) <= 18181
    ensures r.re >= Start(c).re >= 0
  {
    AngleTableUse();
    RotationsAngle(Start(c), CordicIterations);
    Rotations(Start(c), CordicIterations)
  }

  /**
   * One pass of the loop from the state (re, im, acc) reached after k
   * passes computes the state after k + 1 passes, micro-rotation k; the
   * angle accumulator stays within 18181.
   */
  lemma LoopStep(v0: Rot, k: nat, re: int, im: int, acc: int)
    requires k < CordicIterations && v0.angle == 0
    requires Rot(re, im, acc) == Rotations(v0, k)
    ensures Rotations(v0, k + 1) ==
      if im < 0 then Rot(re - Asr(im, k), im + Asr(re, k), acc - CordicAngleTabQ15(k))
      else Rot(re + Asr(im, k), im - Asr(re, k), acc + CordicAngleTabQ15(k))
    ensures Abs(Rotations(v0, k + 1).angle) <= 18181
  {
    RotationsAngle(v0, k + 1);
    TabSumMonotone(k + 1, CordicIterations);
    AngleTableUse();
  }

  /** Every vector of the first n micro-rotations from v fits int32. */
  ghost predicate AllFit(v: Rot, n: nat)
    requires n <= CordicIterations
  {
    && IsInt32(Rotations(v, n).re) && IsInt32(Rotations(v, n).im)
    && (n > 0 ==> AllFit(v, n - 1))
  }

  /** AllFit covers each vector from the k-th on back to the start. */
  lemma {:induction false} AllFitAt(v: Rot, n: nat, k: nat)
    requires k <= n <= CordicIterations && AllFit(v, n)
    ensures IsInt32(Rotations(v, k).re) && IsInt32(Rotations(v, k).im)
    decreases n
  {
    if k < n {
      AllFitAt(v, n - 1, k);
    }
  }

  /**
   * The conversion is defined in C when the negation of the pre-rotation,
   * every component the loop computes and the gain product fit int32.
   */
  ghost predicate CordicDefined(c: CartNum)
  {
    && PreRotateDefined(c)
    && AllFit(Start(c), CordicIterations)
    && IsInt32(CordicScaleFactorQ16 * Final(c).re)
  }

  /** The magnitude: the final real part scaled by the CORDIC gain. */
  function Magnitude(c: CartNum): (m: TFp)
    requires CordicDefined(c)
    ensures 0 <= m
  {
    MulNonneg(CordicScaleFactorQ16, Final(c).re);
    Asr(CordicScaleFactorQ16 * Final(c).re, 16)
  }

  /** The angle: the accumulated angle plus the offset, narrowed to int16. */
  function Angle(c: CartNum): (a: TAngle)
    requires PreRotateDefined(c)
  {
    Wrap16(Final(c).angle + PreRotate(c).1)
  }

  // ---------------------------------------------------------------------
  // FPM_vCart2Pol
  // ---------------------------------------------------------------------

  /**
   * One pass of the loop of FPM_vCart2Pol: micro-rotation k of the working
   * vector, with the angle step added to or taken from the angle field.
   */
  method MicroStep(tCartNum: CartNum, tPN: PolNum, slIdx: nat, ghost v0: Rot) returns (tNext: CartNum)
    requires slIdx < CordicIterations && v0.angle == 0
    requires Rot(tCartNum.tRe, tCartNum.tIm, tPN.siAngle) == Rotations(v0, slIdx)
    requires IsInt32(Rotations(v0, slIdx + 1).re) && IsInt32(Rotations(v0, slIdx + 1).im)
    modifies tPN
    ensures Rot(tNext.tRe, tNext.tIm, tPN.siAngle) == Rotations(v0, slIdx + 1)
  {
    LoopStep(v0, slIdx, tCartNum.tRe, tCartNum.tIm, tPN.siAngle);
    if tCartNum.tIm < 0 {
      tNext := CartNum(tCartNum.tRe - Asr(tCartNum.tIm, slIdx), tCartNum.tIm + Asr(tCartNum.tRe, slIdx));
      tPN.siAngle := tPN.siAngle - CordicAngleTabQ15(slIdx);
    } else {
      tNext := CartNum(tCartNum.tRe + Asr(tCartNum.tIm, slIdx), tCartNum.tIm - Asr(tCartNum.tRe, slIdx));
      tPN.siAngle := tPN.siAngle + CordicAngleTabQ15(slIdx);
    }
  }

  /**
   * The loop of FPM_vCart2Pol: 14 micro-rotations of the working vector,
   * with the angle steps accumulated in the angle field.
   */
  method MicroRotations(tStart: CartNum, tPN: PolNum) returns (tCartNum: CartNum)
    requires tPN.siAngle == 0 && AllFit(Rot(tStart.tRe, tStart.tIm, 0), CordicIterations)
    modifies tPN
    ensures Rot(tCartNum.tRe, tCartNum.tIm, tPN.siAngle) ==
      Rotations(Rot(tStart.tRe, tStart.tIm, 0), CordicIterations)
  {
    tCartNum := FirstRotations(tStart, tPN, CordicIterations);
  }

  /** The first n passes of the FPM_vCart2Pol loop. */
  method FirstRotations(tStart: CartNum, tPN: PolNum, n: nat) returns (tCartNum: CartNum)
    requires n <= CordicIterations
    requires tPN.siAngle == 0 && AllFit(Rot(tStart.tRe, tStart.tIm, 0), n)
    modifies tPN
    ensures Rot(tCartNum.tRe, tCartNum.tIm, tPN.siAngle) == Rotations(Rot(tStart.tRe, tStart.tIm, 0), n)
  {
    ghost var v0 := Rot(tStart.tRe, tStart.tIm, 0);
    FitsEach(v0, n);
    tCartNum := tStart;
    var slIdx: nat := 0;
    while slIdx < n
      invariant slIdx <= n
      invariant Rot(tCartNum.tRe, tCartNum.tIm, tPN.siAngle) == Rotations(v0, slIdx)
    {
      tCartNum := MicroStep(tCartNum, tPN, slIdx, v0);
      slIdx := slIdx + 1;
    }
  }

  /** AllFit as a statement about every vector up to the n-th. */
  lemma FitsEach(v: Rot, n: nat)
    requires n <= CordicIterations && AllFit(v, n)
    ensures forall k: nat :: k <= n ==> IsInt32(Rotations(v, k).re) && IsInt32(Rotations(v, k).im)
  {
    forall k: nat | k <= n
      ensures IsInt32(Rotations(v, k).re) && IsInt32(Rotations(v, k).im)
    {
      AllFitAt(v, n, k);
    }
  }

  /**
   * FPM_vCart2Pol: pre-rotation into the right half-plane, the
   * micro-rotations, then the gain-scaled magnitude and the offset angle.
   */
  method Cart2Pol(tCN: CartNum, tPN: PolNum)
    requires CordicDefined(tCN)
    modifies tPN
    ensures tPN.tMag == Magnitude(tCN) && tPN.siAngle == Angle(tCN)
  {
    var tCartNum: CartNum;
    var tAngOffset: TAngle;
    if tCN.tRe < 0 {
      if tCN.tIm < 0 {
        tCartNum := CartNum(-tCN.tIm, tCN.tRe);
        tAngOffset := NegPiHalf;
      } else {
        tCartNum := CartNum(tCN.tIm, -tCN.tRe);
        tAngOffset := PiHalf;
      }
    } else {
      tCartNum := tCN;
      tAngOffset := 0;
    }
    tPN.siAngle := 0;
    tCartNum := MicroRotations(tCartNum, tPN);
    tPN.tMag := Asr(CordicScaleFactorQ16 * tCartNum.tRe, 16);
    tPN.siAngle := Wrap16(tPN.siAngle + tAngOffset);
  }

  // ---------------------------------------------------------------------
  // Properties
  // ---------------------------------------------------------------------

  /**
   * A vector at the origin is never moved by the micro-rotations; every
   * step adds its table angle to the accumulator.
   */
  lemma {:induction false} OriginStaysPut(v: Rot, k: nat)
    requires v.re == 0 && v.im == 0
    requires k <= CordicIterations
    ensures Rotations(v, k) == Rot(0, 0, v.angle + TabSum(k))
  {
    if k > 0 {
      OriginStaysPut(v, k - 1);
      var a := v.angle + TabSum(k - 1);
      assert Micro(Rot(0, 0, a), k - 1) == Rot(0, 0, a + CordicAngleTabQ15(k - 1));
    }
  }

  /** From (0, 0) the loop ends at (0, 0, 18181). */
  lemma OriginFinal(c: CartNum)
    requires c.tRe == 0 && c.tIm == 0
    ensures Start(c) == Rot(0, 0, 0) && Final(c) == Rot(0, 0, 18181)
  {
    assert Start(c) == Rot(0, 0, 0);
    OriginStaysPut(Start(c), CordicIterations);
    AngleTableUse();
  }

  /** Every vector on the way from the origin is the origin, so all fit. */
  lemma {:induction false} OriginAllFit(v: Rot, n: nat)
    requires v.re == 0 && v.im == 0 && n <= CordicIterations
    ensures AllFit(v, n)
  {
    OriginStaysPut(v, n);
    if n > 0 {
      OriginAllFit(v, n - 1);
    }
  }

  /** The conversion of (0, 0) is defined. */
  lemma OriginDefined(c: CartNum)
    requires c.tRe == 0 && c.tIm == 0
    ensures CordicDefined(c)
  {
    OriginAllFit(Start(c), CordicIterations);
    OriginFinal(c);
  }

  /** The input (0, 0) gives magnitude 0 and angle 18181 (about 99.9 degrees). */
  lemma Cart2PolOrigin(c: CartNum)
    requires c.tRe == 0 && c.tIm == 0
    ensures CordicDefined(c)
    ensures Magnitude(c) == 0 && Angle(c) == 18181
  {
    OriginDefined(c);
    OriginFinal(c);
  }

  /**
   * Turning the input by the pre-rotation does not change the result
   * beyond the offset: the magnitude is that of the working vector and the
   * angle is the working vector's angle plus the offset.
   */
  lemma QuadrantReduction(c: CartNum)
    requires CordicDefined(c)
    ensures CordicDefined(PreRotate(c).0)
    ensures Magnitude(c) == Magnitude(PreRotate(c).0)
    ensures Angle(c) == Wrap16(Angle(PreRotate(c).0) + PreRotate(c).1)
  {
    var w := PreRotate(c).0;
    PreRotateRightHalf(w);
    assert Start(w) == Start(c);
  }

  /**
   * In the right half-plane there is no offset and the angle is the
   * accumulated angle itself, which the 16-bit narrowing leaves alone.
   */
  lemma RightHalfAngle(c: CartNum)
    requires c.tRe >= 0
    ensures Angle(c) == Final(c).angle && Abs(Angle(c)) <= 18181
  {
    PreRotateRightHalf(c);
  }
}
