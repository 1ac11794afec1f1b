/**
 * FPM_ulSqrt: the integer square root of a 32-bit unsigned number,
 * computed digit by digit in base 4. Each of the 16 passes shifts the next
 * two bits of the radicand into the remainder and decides the next bit of
 * the root.
 *
 * The unsigned 32-bit operations are written with their wrap-around modulo
 * 2^32; the proof shows that only the radicand's own left shift ever wraps.
 */
module IntSqrt {
  import opened Arith
  import opened FixedPoint

  const Uint32Modulus: nat := 0x1_0000_0000

  /** x << k on uint32_t. */
  function Shl32(x: Uint32, k: nat): (r: Uint32)
  {
    (x * Pow2(k)) % Uint32Modulus
  }

  /** x >> k on uint32_t. */
  function Shr32(x: Uint32, k: nat): (r: Uint32)
  {
    DivLe(x, Pow2(k));
    x / Pow2(k)
  }

  /** x + y on uint32_t. */
  function Add32(x: Uint32, y: Uint32): (r: Uint32)
  {
    (x + y) % Uint32Modulus
  }

  /** x - y on uint32_t. */
  function Sub32(x: Uint32, y: Uint32): (r: Uint32)
  {
    (x - y) % Uint32Modulus
  }

  /** A left shift by k, multiplying by m == 2^k, that does not overflow. */
  lemma Shl32Exact(x: Uint32, k: nat, m: nat)
    requires Pow2(k) == m && x * m < Uint32Modulus
    ensures Shl32(x, k) == x * m
  {
    MulNonneg(x, m);
    DivModUnique(x * m, Uint32Modulus, 0, x * m);
  }

  /** A left shift by k, multiplying by m == 2^k, modulo 2^32. */
  lemma Shl32Wraps(x: Uint32, k: nat, m: nat)
    requires Pow2(k) == m
    ensures Shl32(x, k) == (x * m) % Uint32Modulus
  {
  }

  /** Addition and subtraction that stay in range do not wrap. */
  lemma AddSub32Exact(x: Uint32, y: Uint32)
    ensures x + y < Uint32Modulus ==> Add32(x, y) == x + y
    ensures y <= x ==> Sub32(x, y) == x - y
  {
  }

  /** The top 2k bits of the 32-bit number n. */
  ghost function Top(n: nat, k: nat): nat
    requires k <= 16
  {
    n / Pow2(32 - 2 * k)
  }

  /** The top part never exceeds the whole number. */
  lemma TopLe(n: nat, k: nat)
    requires k <= 16
    ensures Top(n, k) <= n
  {
    DivLe(n, Pow2(32 - 2 * k));
  }

  /** Before the first pass no bits are consumed and all are parked. */
  lemma TopStart(n: nat)
    requires n < Uint32Modulus
    ensures Top(n, 0) == 0 && Parked(n, 0, n)
  {
    Pow2Values();
    DivModUnique(n, Pow2(32), 0, n);
  }

  /** After the last pass the top part is the whole number. */
  lemma TopEnd(n: nat)
    ensures Top(n, 16) == n
  {
  }

  /** The top two bits of a 32-bit word form a base-4 digit. */
  lemma DigitBound(x: Uint32)
    ensures Shr32(x, 30) < 4
  {
    Pow2Values();
    var q := x / Pow2(30);
    DivBracket(x, Pow2(30));
    MulSign(q - 4, Pow2(30));
    assert (q - 4) * Pow2(30) == q * Pow2(30) - 4 * Pow2(30);
  }

  /** The powers of two one pass relates: 4^(16-k) == 4q, q * 4^k == 2^30, 4q * 4^k == 2^32. */
  lemma PassPowers(k: nat)
    requires k < 16
    ensures Pow2(32 - 2 * k) == 4 * Pow2(30 - 2 * k)
    ensures Pow2(2 * (k + 1)) == 4 * Pow2(2 * k)
    ensures Pow2(30 - 2 * k) * Pow2(2 * k) == Pow2(30)
    ensures Pow2(30 - 2 * k) * (4 * Pow2(2 * k)) == Uint32Modulus
  {
    Pow2Add(30 - 2 * k, 2 * k);
    Pow2Add(30 - 2 * k, 2 * k + 2);
    Pow2Values();
  }

  /** The bits not yet consumed, parked at the top of a 32-bit word. */
  ghost predicate Parked(n: nat, k: nat, radicand: int)
    requires k <= 16
  {
    radicand == (n % Pow2(32 - 2 * k)) * Pow2(2 * k)
  }

  /** The radicand's top two bits are the next base-4 digit, extending the top part. */
  lemma DigitStep(n: nat, k: nat, radicand: Uint32)
    requires k < 16
    requires Parked(n, k, radicand)
    ensures Top(n, k + 1) == 4 * Top(n, k) + radicand / Pow2(30)
  {
    var q := Pow2(30 - 2 * k);
    var p := Pow2(2 * k);
    PassPowers(k);
    DivSplit(n, q);
    DivCancel(n % (4 * q), q, p);
  }

  lemma MulRegroup(a: int, p: int)
    ensures (a * p) * 4 == a * (4 * p)
  {
  }

  /** Shifting the radicand left by two drops the digit just consumed. */
  lemma ParkedStep(n: nat, k: nat, radicand: Uint32)
    requires k < 16
    requires Parked(n, k, radicand)
    ensures Parked(n, k + 1, (radicand * 4) % Uint32Modulus)
  {
    var q := Pow2(30 - 2 * k);
    var p := Pow2(2 * k);
    PassPowers(k);
    var a := n % (4 * q);
    assert radicand == a * p;
    MulRegroup(a, p);
    DivCancel(a, q, 4 * p);
    assert (radicand * 4) % Uint32Modulus == (a % q) * (4 * p);
    DivSplit(n, q);
    assert a % q == n % Pow2(32 - 2 * (k + 1));
  }

  /** n fits 32 bits, so its square root fits 16. */
  lemma RootBound(s: nat, n: nat)
    requires s * s <= n < Uint32Modulus
    ensures s <= 0xFFFF
  {
    if 0x1_0000 <= s {
      SquareMonotone(0x1_0000, s);
    }
  }

  /** s is the integer square root of top and rem what is left of top over s * s. */
  ghost predicate RootOf(top: int, s: nat, rem: int)
  {
    s * s <= top < (s + 1) * (s + 1) && rem == top - s * s
  }

  /**
   * The root bit decision: s is the root of top with remainder rem, and
   * 4 * top + d extends top by the next base-4 digit d. The next root is
   * 2s + 1 when 4s + 1 fits in the shifted remainder and 2s otherwise; the
   * remainder after the decision is the new top minus the new root squared.
   */
  lemma RootPass(top: nat, d: nat, s: nat, rem: int)
    requires RootOf(top, s, rem) && d < 4
    ensures 0 <= rem <= 2 * s
    ensures 4 * s + 1 <= 4 * rem + d ==> RootOf(4 * top + d, 2 * s + 1, 4 * rem + d - (4 * s + 1))
    ensures 4 * rem + d < 4 * s + 1 ==> RootOf(4 * top + d, 2 * s, 4 * rem + d)
  {
    assert (s + 1) * (s + 1) == s * s + 2 * s + 1;
    assert (2 * s) * (2 * s) == 4 * (s * s);
    assert (2 * s + 1) * (2 * s + 1) == 4 * (s * s) + 4 * s + 1;
    assert (2 * s + 2) * (2 * s + 2) == 4 * ((s + 1) * (s + 1));
  }

  /** The three words FPM_ulSqrt keeps between passes. */
  datatype SqrtState = SqrtState(r: Uint32, rem: Uint32, radicand: Uint32)

  /**
   * One pass of the loop on its three words: shift the next base-4 digit of
   * the radicand into the remainder and try the root bit 4s + 1 against it.
   */
  function Pass(st: SqrtState): SqrtState
  {
    var r1 := Add32(Shl32(st.r, 1), 1);
    var rem1 := Add32(Shl32(st.rem, 2), Shr32(st.radicand, 30));
    var radicand1 := Shl32(st.radicand, 2);
    if r1 <= rem1 then SqrtState(Add32(r1, 1), Sub32(rem1, r1), radicand1)
    else SqrtState(Sub32(r1, 1), rem1, radicand1)
  }

  /**
   * The state between passes: after k passes r holds twice the root s of
   * the top 2k bits of n, rem holds their remainder over s * s, and the
   * radicand holds the bits not yet consumed.
   */
  ghost predicate SqrtInv(n: nat, k: nat, s: nat, st: SqrtState)
  {
    && k <= 16
    && st.r == 2 * s
    && RootOf(Top(n, k), s, st.rem)
    && Parked(n, k, st.radicand)
  }

  lemma SqrtInvStart(n: Uint32)
    ensures SqrtInv(n, 0, 0, SqrtState(0, 0, n))
  {
    TopStart(n);
  }

  lemma SqrtInvEnd(n: Uint32, s: nat, st: SqrtState)
    requires SqrtInv(n, 16, s, st)
    ensures Shr32(st.r, 1) == s
    ensures s * s <= n < (s + 1) * (s + 1)
  {
    TopEnd(n);
    Pow2Values();
  }

  /** The digit one pass shifts out of the radicand extends the top bits. */
  lemma PassDigit(n: Uint32, k: nat, radicand: Uint32)
    requires k < 16 && Parked(n, k, radicand)
    ensures Top(n, k + 1) == 4 * Top(n, k) + Shr32(radicand, 30)
    ensures Parked(n, k + 1, Shl32(radicand, 2))
    ensures Shr32(radicand, 30) < 4
  {
    DigitStep(n, k, radicand);
    ParkedStep(n, k, radicand);
    DigitBound(radicand);
    Pow2Values();
    Shl32Wraps(radicand, 2, 4);
  }

  /** The values one pass computes before its root bit decision. */
  lemma PassShifts(n: Uint32, k: nat, s: nat, st: SqrtState)
    requires k < 16 && SqrtInv(n, k, s, st)
    ensures Add32(Shl32(st.r, 1), 1) == 4 * s + 1
    ensures Add32(Shl32(st.rem, 2), Shr32(st.radicand, 30)) == 4 * st.rem + Shr32(st.radicand, 30)
    ensures Top(n, k + 1) == 4 * Top(n, k) + Shr32(st.radicand, 30)
    ensures Parked(n, k + 1, Shl32(st.radicand, 2))
    ensures Shr32(st.radicand, 30) < 4
    ensures 0 <= st.rem <= 2 * s
  {
    var (r, rem, radicand) := (st.r, st.rem, st.radicand);
    PassDigit(n, k, radicand);
    TopLe(n, k);
    RootBound(s, n);
    RootPass(Top(n, k), Shr32(radicand, 30), s, rem);
    Pow2Values();
    Shl32Exact(r, 1, 2);
    Shl32Exact(rem, 2, 4);
    AddSub32Exact(4 * s, 1);
    AddSub32Exact(rem * 4, Shr32(radicand, 30));
  }

  /** A pass whose trial bit 4s + 1 fits in the remainder sets the next root bit. */
  lemma PassSetsBit(n: Uint32, k: nat, s: nat, st: SqrtState)
    requires k < 16 && SqrtInv(n, k, s, st)
    requires Add32(Shl32(st.r, 1), 1) <= Add32(Shl32(st.rem, 2), Shr32(st.radicand, 30))
    ensures SqrtInv(n, k + 1, 2 * s + 1, Pass(st))
  {
    PassShifts(n, k, s, st);
    var d := Shr32(st.radicand, 30);
    RootPass(Top(n, k), d, s, st.rem);
    AddSub32Exact(4 * s + 1, 1);
    AddSub32Exact(4 * st.rem + d, 4 * s + 1);
    assert Pass(st) == SqrtState(4 * s + 2, 4 * st.rem + d - (4 * s + 1), Shl32(st.radicand, 2));
    assert RootOf(Top(n, k + 1), 2 * s + 1, 4 * st.rem + d - (4 * s + 1));
  }

  /** A pass whose trial bit 4s + 1 does not fit leaves the next root bit clear. */
  lemma PassClearsBit(n: Uint32, k: nat, s: nat, st: SqrtState)
    requires k < 16 && SqrtInv(n, k, s, st)
    requires Add32(Shl32(st.rem, 2), Shr32(st.radicand, 30)) < Add32(Shl32(st.r, 1), 1)
    ensures SqrtInv(n, k + 1, 2 * s, Pass(st))
  {
    PassShifts(n, k, s, st);
    var d := Shr32(st.radicand, 30);
    RootPass(Top(n, k), d, s, st.rem);
    AddSub32Exact(4 * s + 1, 1);
    assert Pass(st) == SqrtState(4 * s, 4 * st.rem + d, Shl32(st.radicand, 2));
    assert RootOf(Top(n, k + 1), 2 * s, 4 * st.rem + d);
  }

  /** The root bit one pass appends to s: set exactly when the trial value 4s + 1 fits. */
  function NextRoot(s: nat, st: SqrtState): nat
  {
    if Add32(Shl32(st.r, 1), 1) <= Add32(Shl32(st.rem, 2), Shr32(st.radicand, 30)) then 2 * s + 1 else 2 * s
  }

  /** One pass keeps the state invariant, the root growing by one bit. */
  lemma PassKeeps(n: Uint32, k: nat, s: nat, st: SqrtState)
    requires k < 16 && SqrtInv(n, k, s, st)
    ensures SqrtInv(n, k + 1, NextRoot(s, st), Pass(st))
  {
    if Add32(Shl32(st.r, 1), 1) <= Add32(Shl32(st.rem, 2), Shr32(st.radicand, 30)) {
      PassSetsBit(n, k, s, st);
    } else {
      PassClearsBit(n, k, s, st);
    }
  }

  /** The three words after k passes of the loop on the radicand n. */
  function Iterate(n: Uint32, k: nat): (st: SqrtState)
  {
    if k == 0 then SqrtState(0, 0, n) else Pass(Iterate(n, k - 1))
  }

  /** The root the first k passes have built. */
  ghost function Root(n: Uint32, k: nat): nat
  {
    if k == 0 then 0 else NextRoot(Root(n, k - 1), Iterate(n, k - 1))
  }

  /** After k passes the words hold the root of the top 2k bits, twice over, and its remainder. */
  lemma {:induction false} IterateKeeps(n: Uint32, k: nat)
    requires k <= 16
    ensures SqrtInv(n, k, Root(n, k), Iterate(n, k))
  {
    if k == 0 {
      SqrtInvStart(n);
    } else {
      IterateKeeps(n, k - 1);
      PassKeeps(n, k - 1, Root(n, k - 1), Iterate(n, k - 1));
    }
  }

  /** The sixteen passes leave twice the integer square root of n in r. */
  lemma IterateRoot(n: Uint32)
    ensures var root := Shr32(Iterate(n, 16).r, 1);
      root * root <= n < (root + 1) * (root + 1)
  {
    IterateKeeps(n, 16);
    SqrtInvEnd(n, Root(n, 16), Iterate(n, 16));
  }

  /** FPM_ulSqrt: the largest r whose square does not exceed the radicand. */
  method UlSqrt(ulRadicand: Uint32) returns (root: Uint32)
    ensures root * root <= ulRadicand < (root + 1) * (root + 1)
  {
    var radicand := ulRadicand;
    var rem: Uint32 := 0;
    var r: Uint32 := 0;
    for idx := 0 to 16
      invariant SqrtState(r, rem, radicand) == Iterate(ulRadicand, idx)
    {
      r := Shl32(r, 1);
      rem := Add32(Shl32(rem, 2), Shr32(radicand, 30));
      radicand := Shl32(radicand, 2);
      r := Add32(r, 1);
      if r <= rem {
        rem := Sub32(rem, r);
        r := Add32(r, 1);
      } else {
        r := Sub32(r, 1);
      }
    }
    IterateRoot(ulRadicand);
    root := Shr32(r, 1);
  }

  /** The bracket fixes the root: at most one r satisfies it. */
  lemma SqrtUnique(n: nat, r1: nat, r2: nat)
    requires r1 * r1 <= n < (r1 + 1) * (r1 + 1)
    requires r2 * r2 <= n < (r2 + 1) * (r2 + 1)
    ensures r1 == r2
  {
    if r1 + 1 <= r2 {
      SquareMonotone(r1 + 1, r2);
    }
    if r2 + 1 <= r1 {
      SquareMonotone(r2 + 1, r1);
    }
  }
}
