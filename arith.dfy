/**
 * Small facts of integer arithmetic used by the fixed-point proofs, each
 * kept narrow so that the solver does not have to search for them.
 */
module Arith {

  function Pow2(n: nat): (r: nat)
    ensures r >= 1
  {
    if n == 0 then 1 else 2 * Pow2(n - 1)
  }

  lemma {:induction false} Pow2Add(a: nat, b: nat)
    ensures Pow2(a + b) == Pow2(a) * Pow2(b)
  {
    if a > 0 {
      Pow2Add(a - 1, b);
      assert Pow2(a + b) == 2 * Pow2(a - 1 + b);
      assert Pow2(a) == 2 * Pow2(a - 1);
      assert Pow2(a) * Pow2(b) == 2 * (Pow2(a - 1) * Pow2(b));
    }
  }

  lemma {:induction false} Pow2Monotone(a: nat, b: nat)
    requires a <= b
    ensures Pow2(a) <= Pow2(b)
    decreases b - a
  {
    if a < b {
      Pow2Monotone(a + 1, b);
    }
  }

  /** The powers of two the fixed-point formats use. */
  lemma Pow2Values()
    ensures Pow2(1) == 2 && Pow2(2) == 4 && Pow2(8) == 256 && Pow2(11) == 2048 && Pow2(12) == 4096 && Pow2(15) == 32768
    ensures Pow2(16) == 65536 && Pow2(18) == 262144 && Pow2(30) == 0x4000_0000
    ensures Pow2(32) == 0x1_0000_0000
  {
    assert Pow2(1) == 2;
    assert Pow2(2) == 4;
    assert Pow2(3) == 8;
    assert Pow2(4) == 16;
    assert Pow2(5) == 32;
    assert Pow2(6) == 64;
    assert Pow2(7) == 128;
    assert Pow2(8) == 256;
    assert Pow2(9) == 512;
    assert Pow2(10) == 1024;
    assert Pow2(11) == 2048;
    assert Pow2(12) == 4096;
    assert Pow2(13) == 8192;
    assert Pow2(14) == 16384;
    assert Pow2(15) == 32768;
    assert Pow2(16) == 65536;
    assert Pow2(17) == 131072;
    assert Pow2(18) == 262144;
    assert Pow2(19) == 524288;
    assert Pow2(20) == 1048576;
    assert Pow2(21) == 2097152;
    assert Pow2(22) == 4194304;
    assert Pow2(23) == 8388608;
    assert Pow2(24) == 16777216;
    assert Pow2(25) == 33554432;
    assert Pow2(26) == 67108864;
    assert Pow2(27) == 134217728;
    assert Pow2(28) == 268435456;
    assert Pow2(29) == 536870912;
    assert Pow2(30) == 1073741824;
    assert Pow2(31) == 2147483648;
    assert Pow2(32) == 4294967296;
  }

  /** Every supported format's one, 2^n for n <= 30, fits 32 bits. */
  lemma Pow2UpTo30(n: nat)
    requires n <= 30
    ensures Pow2(n) <= 0x4000_0000
  {
    Pow2Monotone(n, 30);
    Pow2Values();
  }

  function Abs(x: int): nat
  {
    if x < 0 then -x else x
  }

  lemma MulNonneg(a: nat, b: nat)
    ensures a * b >= 0
  {
  }

  lemma AbsMul(a: int, b: int)
    ensures Abs(a * b) == Abs(a) * Abs(b)
  {
    if a < 0 && b < 0 {
      assert a * b == (-a) * (-b);
    } else if a < 0 {
      assert -(a * b) == (-a) * b;
    } else if b < 0 {
      assert -(a * b) == a * (-b);
    }
  }

  /** Euclidean division brackets the dividend between consecutive multiples. */
  lemma DivBracket(a: int, b: int)
    requires b > 0
    ensures (a / b) * b <= a < (a / b + 1) * b
  {
    var m, r := a / b, a % b;
    assert a == m * b + r;
    assert (m + 1) * b == m * b + b;
  }

  lemma DivLe(a: nat, b: nat)
    requires b > 0
    ensures 0 <= a / b <= a
    ensures (a / b) * b <= a < (a / b + 1) * b
  {
    var m := a / b;
    DivBracket(a, b);
    MulNonneg(m, b - 1);
    assert m * b == m * (b - 1) + m;
  }

  /** The sign of a product with a positive factor follows the other factor. */
  lemma MulSign(k: int, b: int)
    requires b > 0
    ensures k >= 0 ==> k * b >= 0
    ensures k >= 1 ==> k * b >= b
    ensures k <= -1 ==> k * b <= -b
  {
    if k >= 1 {
      MulNonneg(k - 1, b);
      assert k * b == (k - 1) * b + b;
    } else if k <= -1 {
      MulNonneg(-k - 1, b);
      assert -(k * b) == (-k - 1) * b + b;
    }
  }

  /** Multiplying by a natural keeps the order. */
  lemma MulLeRight(x: int, y: int, c: nat)
    requires x <= y
    ensures x * c <= y * c
  {
    MulNonneg(y - x, c);
    assert (y - x) * c == y * c - x * c;
  }

  /** Halving the floor quotient by p gives the floor quotient by 2p. */
  lemma HalveFloor(x: int, q: int, p: nat)
    requires q * p <= x < (q + 1) * p
    ensures (q / 2) * (2 * p) <= x < (q / 2 + 1) * (2 * p)
  {
    var r, b := q / 2, q % 2;
    assert q == 2 * r + b && (b == 0 || b == 1);
    assert q * p == r * (2 * p) + b * p;
    assert (q + 1) * p == r * (2 * p) + (b + 1) * p;
    assert (r + 1) * (2 * p) == r * (2 * p) + 2 * p;
    MulLeRight(b + 1, 2, p);
    MulNonneg(b, p);
  }

  /** Squaring is monotone on the naturals. */
  lemma SquareMonotone(a: nat, b: nat)
    requires a <= b
    ensures a * a <= b * b
  {
    MulLeRight(a, b, a);
    MulLeRight(a, b, b);
    assert a * b == b * a;
  }

  /** The quotient of naturals, with the bracket that characterises it. */
  function Quot(a: nat, b: nat): (m: nat)
    requires b > 0
    ensures m * b <= a < (m + 1) * b
    ensures m <= a
  {
    DivLe(a, b);
    a / b
  }

  /** The quotient and remainder are determined by the bracket they satisfy. */
  lemma DivModUnique(a: int, b: int, q: int, r: int)
    requires b > 0 && 0 <= r < b && a == q * b + r
    ensures a / b == q && a % b == r
  {
    var q', r' := a / b, a % b;
    assert a == q' * b + r';
    assert (q - q') * b == r' - r;
    MulSign(q - q', b);
  }

  lemma DivMulExact(m: int, b: int)
    requires b > 0
    ensures (m * b) / b == m && (m * b) % b == 0
  {
    DivModUnique(m * b, b, m, 0);
  }

  /** Dividing both operands by a common factor leaves the quotient. */
  lemma DivCancel(a: nat, b: nat, c: nat)
    requires b > 0 && c > 0
    ensures (a * c) / (b * c) == a / b
    ensures (a * c) % (b * c) == (a % b) * c
  {
    var q, r := a / b, a % b;
    assert a == q * b + r;
    assert a * c == q * (b * c) + r * c by {
      assert a * c == (q * b + r) * c;
      assert (q * b + r) * c == q * b * c + r * c;
    }
    assert r * c < b * c by {
      MulSign(b - r, c);
      assert b * c - r * c == (b - r) * c;
    }
    MulNonneg(r, c);
    MulNonneg(b, c);
    DivModUnique(a * c, b * c, q, r * c);
  }

  /** Splitting a quotient by 4q into the quotient by 4q and the next base-4 digit. */
  lemma DivSplit(n: nat, q: nat)
    requires q > 0
    ensures n / q == 4 * (n / (4 * q)) + (n % (4 * q)) / q
    ensures (n % (4 * q)) % q == n % q
  {
    var hi, lo := n / (4 * q), n % (4 * q);
    var d, e := lo / q, lo % q;
    assert n == hi * (4 * q) + lo;
    assert lo == d * q + e;
    assert d < 4 by {
      MulSign(d - 4, q);
      assert (d - 4) * q == d * q - 4 * q;
    }
    assert n == (4 * hi + d) * q + e by {
      assert hi * (4 * q) == (4 * hi) * q;
      assert (4 * hi + d) * q == (4 * hi) * q + d * q;
    }
    DivModUnique(n, q, 4 * hi + d, e);
  }
}
