/**
 * The table-driven sine and cosine of the math kernel. Angles are 16-bit
 * counts of a full turn; the 256-entry Q15 table holds the sine at every
 * 256th count, so the upper 8 bits of the angle select the entry.
 *
 * The table is written as sixteen rows of sixteen entries (row r holds the
 * entries 16r .. 16r+15), the values of the Q15 literals truncated toward
 * zero as the conversion to the integer type does.
 */
module Trig {
  import opened Arith
  import opened FixedPoint

  /** Number of angle bits used to index the table. */
  const SineTabAngleBits: nat := 8

  const Row0: seq<int> := [0, 804, 1607, 2410, 3211, 4011, 4808, 5602, 6392, 7179, 7961, 8739, 9512, 10278, 11039, 11793]
  const Row1: seq<int> := [12539, 13278, 14010, 14732, 15446, 16151, 16846, 17530, 18204, 18868, 19519, 20159, 20787, 21403, 22005, 22594]
  const Row2: seq<int> := [23170, 23732, 24279, 24812, 25330, 25832, 26319, 26790, 27245, 27684, 28106, 28511, 28898, 29269, 29621, 29956]
  const Row3: seq<int> := [30273, 30572, 30852, 31114, 31357, 31581, 31785, 31971, 32138, 32285, 32413, 32521, 32610, 32679, 32728, 32758]
  const Row4: seq<int> := [32768, 32758, 32728, 32679, 32610, 32521, 32413, 32285, 32138, 31971, 31785, 31581, 31357, 31114, 30852, 30572]
  const Row5: seq<int> := [30273, 29956, 29621, 29269, 28898, 28511, 28106, 27684, 27245, 26790, 26319, 25832, 25330, 24812, 24279, 23732]
  const Row6: seq<int> := [23170, 22594, 22005, 21403, 20787, 20159, 19519, 18868, 18204, 17530, 16846, 16151, 15446, 14732, 14010, 13278]
  const Row7: seq<int> := [12539, 11793, 11039, 10278, 9512, 8739, 7961, 7179, 6392, 5602, 4808, 4011, 3211, 2410, 1607, 804]
  const Row8: seq<int> := [0, -804, -1607, -2410, -3211, -4011, -4808, -5602, -6392, -7179, -7961, -8739, -9512, -10278, -11039, -11793]
  const Row9: seq<int> := [-12539, -13278, -14010, -14732, -15446, -16151, -16846, -17530, -18204, -18868, -19519, -20159, -20787, -21403, -22005, -22594]
  const Row10: seq<int> := [-23170, -23732, -24279, -24812, -25330, -25832, -26319, -26790, -27245, -27684, -28106, -28511, -28898, -29269, -29621, -29956]
  const Row11: seq<int> := [-30273, -30572, -30852, -31114, -31357, -31581, -31785, -31971, -32138, -32285, -32413, -32521, -32610, -32679, -32728, -32758]
  const Row12: seq<int> := [-32768, -32758, -32728, -32679, -32610, -32521, -32413, -32285, -32138, -31971, -31785, -31581, -31357, -31114, -30852, -30572]
  const Row13: seq<int> := [-30273, -29956, -29621, -29269, -28898, -28511, -28106, -27684, -27245, -26790, -26319, -25832, -25330, -24812, -24279, -23732]
  const Row14: seq<int> := [-23170, -22594, -22005, -21403, -20787, -20159, -19519, -18868, -18204, -17530, -16846, -16151, -15446, -14732, -14010, -13278]
  const Row15: seq<int> := [-12539, -11793, -11039, -10278, -9512, -8739, -7961, -7179, -6392, -5602, -4808, -4011, -3211, -2410, -1607, -804]

  const FirstHalf: seq<int> := ((Row0 + Row1) + (Row2 + Row3)) + ((Row4 + Row5) + (Row6 + Row7))
  const SecondHalf: seq<int> := ((Row8 + Row9) + (Row10 + Row11)) + ((Row12 + Row13) + (Row14 + Row15))

  /** FPM_tSineTabQ15: sin(2 pi i / 256) in Q15 for i = 0 .. 255. */
  const SineTab: seq<int> := FirstHalf + SecondHalf

  // ---------------------------------------------------------------------
  // Facts about the table, composed row by row
  // ---------------------------------------------------------------------

  /** b holds the negations of a, entry by entry. */
  ghost predicate Negated(a: seq<int>, b: seq<int>)
  {
    |a| == |b| && forall j :: 0 <= j < |a| ==> b[j] == -a[j]
  }

  /** Every entry of s is a Q15 value between -1 and 1. */
  ghost predicate InQ15Range(s: seq<int>)
  {
    forall j :: 0 <= j < |s| ==> -SinMaxQ15 <= s[j] <= SinMaxQ15
  }

  lemma NegatedAppend(a: seq<int>, b: seq<int>, c: seq<int>, d: seq<int>)
    requires Negated(a, c) && Negated(b, d)
    ensures Negated(a + b, c + d)
  {
    assert forall j :: 0 <= j < |a| ==> (c + d)[j] == c[j] && (a + b)[j] == a[j];
    assert forall j :: |a| <= j < |a + b| ==> (c + d)[j] == d[j - |a|] && (a + b)[j] == b[j - |a|];
  }

  lemma InRangeAppend(a: seq<int>, b: seq<int>)
    requires InQ15Range(a) && InQ15Range(b)
    ensures InQ15Range(a + b)
  {
    assert forall j :: 0 <= j < |a| ==> (a + b)[j] == a[j];
    assert forall j :: |a| <= j < |a + b| ==> (a + b)[j] == b[j - |a|];
  }

  lemma FirstRowsNegated()
    ensures Negated(Row0, Row8) && Negated(Row1, Row9)
    ensures Negated(Row2, Row10) && Negated(Row3, Row11)
  {
  }

  lemma LastRowsNegated()
    ensures Negated(Row4, Row12) && Negated(Row5, Row13)
    ensures Negated(Row6, Row14) && Negated(Row7, Row15)
  {
  }

  lemma HalvesNegated()
    ensures Negated(FirstHalf, SecondHalf)
  {
    FirstRowsNegated();
    LastRowsNegated();
    NegatedAppend(Row0, Row1, Row8, Row9);
    NegatedAppend(Row2, Row3, Row10, Row11);
    NegatedAppend(Row4, Row5, Row12, Row13);
    NegatedAppend(Row6, Row7, Row14, Row15);
    NegatedAppend(Row0 + Row1, Row2 + Row3, Row8 + Row9, Row10 + Row11);
    NegatedAppend(Row4 + Row5, Row6 + Row7, Row12 + Row13, Row14 + Row15);
    NegatedAppend((Row0 + Row1) + (Row2 + Row3), (Row4 + Row5) + (Row6 + Row7),
                  (Row8 + Row9) + (Row10 + Row11), (Row12 + Row13) + (Row14 + Row15));
  }

  lemma FirstRowsInRange()
    ensures InQ15Range(Row0) && InQ15Range(Row1) && InQ15Range(Row2) && InQ15Range(Row3)
  {
  }

  lemma LastRowsInRange()
    ensures InQ15Range(Row4) && InQ15Range(Row5) && InQ15Range(Row6) && InQ15Range(Row7)
  {
  }

  lemma FirstHalfInRange()
    ensures InQ15Range(FirstHalf)
  {
    FirstRowsInRange();
    LastRowsInRange();
    InRangeAppend(Row0, Row1);
    InRangeAppend(Row2, Row3);
    InRangeAppend(Row4, Row5);
    InRangeAppend(Row6, Row7);
    InRangeAppend(Row0 + Row1, Row2 + Row3);
    InRangeAppend(Row4 + Row5, Row6 + Row7);
    InRangeAppend((Row0 + Row1) + (Row2 + Row3), (Row4 + Row5) + (Row6 + Row7));
  }

  lemma NegatedInRange(a: seq<int>, b: seq<int>)
    requires Negated(a, b) && InQ15Range(a)
    ensures InQ15Range(b)
  {
  }

  /**
   * The second half of the table is the first half negated:
   * sin(x + pi) == -sin(x) holds entry by entry.
   */
  lemma SineTabHalfTurn()
    ensures |SineTab| == 256
    ensures forall i :: 0 <= i < 128 ==> SineTab[i + 128] == -SineTab[i]
  {
    HalvesNegated();
    NegatedHalves(FirstHalf, SecondHalf);
  }

  lemma NegatedHalves(a: seq<int>, b: seq<int>)
    requires Negated(a, b)
    ensures forall i :: 0 <= i < |a| ==> (a + b)[i + |a|] == -(a + b)[i]
  {
  }

  /** Every table entry is a Q15 value in [-1, 1]. */
  lemma SineTabInRange()
    ensures |SineTab| == 256
    ensures forall i :: 0 <= i < 256 ==> -SinMaxQ15 <= SineTab[i] <= SinMaxQ15
  {
    HalvesNegated();
    FirstHalfInRange();
    NegatedInRange(FirstHalf, SecondHalf);
    InRangeAppend(FirstHalf, SecondHalf);
  }

  // ---------------------------------------------------------------------
  // Table look-up
  // ---------------------------------------------------------------------

  /** (uint16_t)Phi >> 8: the angle reduced to 16 bits, then its upper 8 bits. */
  function SineIndex(phi: int): (i: nat)
    ensures i < 256
    ensures i * 256 <= phi % 0x1_0000 < (i + 1) * 256
  {
    Pow2Values();
    (phi % 0x1_0000) / Pow2(16 - SineTabAngleBits)
  }

  /**
   * The index the cosine macro computes: the angle converted to 32 bits,
   * a quarter turn added modulo 2^32, masked to 16 bits, upper 8 bits.
   */
  function CosIndex(phi: int): (i: nat)
    ensures i < 256
  {
    Pow2Values();
    var u := phi % 0x1_0000_0000;
    var sum := (u + PiHalf) % 0x1_0000_0000;
    (sum % 0x1_0000) / Pow2(16 - SineTabAngleBits)
  }

  /** A table entry, a Q15 value in [-1, 1]. */
  function TableAt(i: int): (r: TFp)
    requires 0 <= i < 256
    ensures -SinMaxQ15 <= r <= SinMaxQ15
  {
    SineTabInRange();
    SineTab[i]
  }

  lemma TableHalfTurn(i: int)
    requires 0 <= i < 128
    ensures TableAt(i + 128) == -TableAt(i)
  {
    SineTabHalfTurn();
  }

  /** The table's quarter points: sin 0, sin 90, sin 180 and sin 270 degrees. */
  lemma TableQuarterPoints()
    ensures TableAt(0) == 0 && TableAt(64) == SinMaxQ15
    ensures TableAt(128) == 0 && TableAt(192) == -SinMaxQ15
  {
    assert SineTab[0] == Row0[0] && SineTab[64] == Row4[0];
    assert SineTab[128] == Row8[0] && SineTab[192] == Row12[0];
  }

  /** FPM_tSin: the Q15 sine of a 16-bit angle, looked up in the table. */
  function Sin(phi: int): (r: TFp)
    ensures -SinMaxQ15 <= r <= SinMaxQ15
  {
    TableAt(SineIndex(phi))
  }

  /** FPM_tCos: the Q15 cosine of a 16-bit angle, looked up in the table. */
  function Cos(phi: int): (r: TFp)
    ensures -SinMaxQ15 <= r <= SinMaxQ15
  {
    TableAt(CosIndex(phi))
  }

  // ---------------------------------------------------------------------
  // Properties of the look-up
  // ---------------------------------------------------------------------

  /** Adding k table steps to the angle moves the index by k, modulo the table size. */
  lemma IndexShift(phi: int, k: int)
    ensures SineIndex(phi + 256 * k) == (SineIndex(phi) + k) % 256
  {
    Pow2Values();
    var u := phi % 0x1_0000;
    var q := phi / 0x1_0000;
    var i := u / 256;
    var e := u % 256;
    var i' := (i + k) % 256;
    var q' := (i + k) / 256;
    assert phi == 0x1_0000 * q + 256 * i + e;
    assert i + k == 256 * q' + i';
    assert phi + 256 * k == 0x1_0000 * (q + q') + (256 * i' + e);
    DivModUnique(phi + 256 * k, 0x1_0000, q + q', 256 * i' + e);
    DivModUnique(256 * i' + e, 256, i', e);
  }

  /** The sine is periodic with one turn, 65536 counts. */
  lemma SinPeriodic(phi: int)
    ensures Sin(phi + Shift360) == Sin(phi)
  {
    IndexShift(phi, 256);
    var i := SineIndex(phi);
    assert (i + 256) % 256 == i;
  }

  /** Half a turn moves the index by half the table. */
  lemma HalfTurnIndex(phi: int)
    ensures SineIndex(phi) < 128 ==> SineIndex(phi + 0x8000) == SineIndex(phi) + 128
    ensures SineIndex(phi) >= 128 ==> SineIndex(phi + 0x8000) == SineIndex(phi) - 128
  {
    IndexShift(phi, 128);
  }

  /** Half a turn negates the sine: sin(phi + pi) == -sin(phi). */
  lemma SinHalfTurn(phi: int)
    ensures Sin(phi + 0x8000) == -Sin(phi)
  {
    HalfTurnIndex(phi);
    var i := SineIndex(phi);
    if i < 128 {
      TableHalfTurn(i);
    } else {
      TableHalfTurn(i - 128);
    }
  }

  /** The cosine macro reads the sine a quarter turn ahead: cos(phi) == sin(phi + pi/2). */
  lemma CosIsShiftedSin(phi: int)
    ensures Cos(phi) == Sin(phi + PiHalf)
  {
    Pow2Values();
    var u := phi % 0x1_0000_0000;
    var sum := (u + PiHalf) % 0x1_0000_0000;
    var q := phi / 0x1_0000_0000;
    var c := (u + PiHalf) / 0x1_0000_0000;
    assert phi + PiHalf == sum + 0x1_0000 * (0x1_0000 * (q + c));
    var t := sum / 0x1_0000;
    assert sum == 0x1_0000 * t + sum % 0x1_0000;
    DivModUnique(phi + PiHalf, 0x1_0000, 0x1_0000 * (q + c) + t, sum % 0x1_0000);
  }

  /** The macros' values at the axis angles. */
  lemma SinCosAtAxes()
    ensures Sin(0) == 0 && Sin(PiHalf) == SinMaxQ15
    ensures Sin(NegPi) == 0 && Sin(NegPiHalf) == -SinMaxQ15
    ensures Cos(0) == SinMaxQ15 && Cos(PiHalf) == 0
  {
    Pow2Values();
    TableQuarterPoints();
    assert SineIndex(0) == 0 && SineIndex(PiHalf) == 64;
    assert SineIndex(NegPi) == 128 && SineIndex(NegPiHalf) == 192;
    CosIsShiftedSin(0);
    CosIsShiftedSin(PiHalf);
    assert SineIndex(PiHalf + PiHalf) == 128;
  }
}
