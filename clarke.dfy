/**
 * FPM_vClarkeTrans: the Clarke transform of a three-phase value into a
 * complex number. The real part is phase a and the imaginary part is
 * (a + 2b) / sqrt(3), computed by a Q15 multiplication with 1/sqrt(3).
 * Phase c is never read.
 */
module Clarke {
  import opened Arith
  import opened FixedPoint

  /** TThreePhase: the input record, which the transform only reads. */
  datatype ThreePhase = ThreePhase(a: TFp, b: TFp, c: TFp)

  /** The TCartNum the output pointer designates; the transform writes both fields. */
  class CartNumOut {
    var tRe: TFp
    var tIm: TFp
  }

  /** The sum a + 2b the imaginary part is scaled from. */
  function PhaseSum(p: ThreePhase): int
  {
    p.a + 2 * p.b
  }

  /** In C, b * 2, b * 2 + a and the Q15 product must all fit int32. */
  predicate ClarkeDefined(p: ThreePhase)
  {
    IsInt32(2 * p.b) && IsInt32(PhaseSum(p)) && IsInt32(PhaseSum(p) * Sqrt3InvQ15)
  }

  /**
   * The imaginary part: (a + 2b) times 1/sqrt(3) in Q15, truncated toward
   * zero like the C division, so its sign is that of a + 2b.
   */
  function ClarkeIm(p: ThreePhase): (r: TFp)
    requires ClarkeDefined(p)
    ensures r == 0 || ((r < 0) <==> (PhaseSum(p) < 0))
  {
    FpMulQn(PhaseSum(p), Sqrt3InvQ15, 15)
  }

  /** FPM_vClarkeTrans: writes Re = a and Im = (a + 2b) / sqrt(3). */
  method ClarkeTrans(ptInput: ThreePhase, ptOutput: CartNumOut)
    requires ClarkeDefined(ptInput)
    modifies ptOutput
    ensures ptOutput.tRe == ptInput.a
    ensures ptOutput.tIm == ClarkeIm(ptInput)
  {
    ptOutput.tRe := ptInput.a;
    var tTemp: TFp := ptInput.b * 2;
    tTemp := tTemp + ptInput.a;
    tTemp := FpMulQn(tTemp, Sqrt3InvQ15, 15);
    ptOutput.tIm := tTemp;
  }

  // ---------------------------------------------------------------------
  // Properties
  // ---------------------------------------------------------------------

  /** The result does not depend on phase c. */
  lemma IgnoresPhaseC(p: ThreePhase, c: TFp)
    requires ClarkeDefined(p)
    ensures ClarkeDefined(p.(c := c)) && ClarkeIm(p.(c := c)) == ClarkeIm(p)
  {
  }

  /** For a balanced system (a + b + c = 0) the imaginary part is (b - c) / sqrt(3). */
  lemma Balanced(p: ThreePhase)
    requires ClarkeDefined(p) && p.a + p.b + p.c == 0
    ensures ClarkeIm(p) == FpMulQn(p.b - p.c, Sqrt3InvQ15, 15)
  {
  }

  /** Negating phases a and b negates the imaginary part: truncation is symmetric. */
  lemma OddSymmetry(p: ThreePhase, q: ThreePhase)
    requires ClarkeDefined(p) && ClarkeDefined(q)
    requires q.a + p.a == 0 && q.b + p.b == 0
    ensures ClarkeIm(q) == -ClarkeIm(p)
  {
    var x := PhaseSum(p);
    assert PhaseSum(q) == -x;
    assert (-x) * Sqrt3InvQ15 == -(x * Sqrt3InvQ15);
    FpMulQnNegate(x, Sqrt3InvQ15, 15);
  }

  /**
   * The imaginary part is at most 18918/32768 (about 0.577) of a + 2b in
   * size, so strictly smaller than a + 2b unless that is 0.
   */
  lemma ImBound(p: ThreePhase)
    requires ClarkeDefined(p)
    ensures Abs(ClarkeIm(p)) * 32768 <= Abs(PhaseSum(p)) * Sqrt3InvQ15
    ensures Abs(ClarkeIm(p)) <= Abs(PhaseSum(p))
    ensures PhaseSum(p) != 0 ==> Abs(ClarkeIm(p)) < Abs(PhaseSum(p))
  {
    Pow2Values();
    AbsMul(PhaseSum(p), Sqrt3InvQ15);
    MulLeRight(Sqrt3InvQ15, 32768, Abs(PhaseSum(p)));
    if PhaseSum(p) != 0 {
      MulLeRight(Sqrt3InvQ15 + 1, 32768, Abs(PhaseSum(p)));
    }
  }

  /**
   * In Q12, phases (0, 1, -1) give Im = 4729, that is 2/sqrt(3) = 1.1547
   * truncated to Q12; phases (1, -1/2, -1/2) give Im = 0.
   */
  lemma ClarkeExamples()
    ensures ClarkeDefined(ThreePhase(0, 4096, -4096))
    ensures ClarkeIm(ThreePhase(0, 4096, -4096)) == 4729
    ensures ClarkeDefined(ThreePhase(4096, -2048, -2048))
    ensures ClarkeIm(ThreePhase(4096, -2048, -2048)) == 0
  {
    Pow2Values();
    var r := ClarkeIm(ThreePhase(0, 4096, -4096));
    assert Abs(r) * 32768 <= 154976256 < (Abs(r) + 1) * 32768;
  }
}
