/**
 * FPM_tInterpolate2D and FPM_tInterpolate3D: piecewise-linear interpolation
 * over a look-up table of ascending x-values, extrapolating with the border
 * segment outside the table, and bilinear interpolation over a grid whose
 * z-values are stored row by row (one row per y-value).
 *
 * Every linear step divides with rounding: half the divisor is added to the
 * product with the product's own sign before the truncating division.
 */
module Interpolation {
  import opened Arith
  import opened FixedPoint

  /** TPoint: a point of the plane. */
  datatype Point = Point(x: TFp, y: TFp)

  // ---------------------------------------------------------------------
  // The rounded linear step
  // ---------------------------------------------------------------------

  /** The product t moved by half of d away from zero, the rounding the source applies. */
  function Rounded(t: int, d: int): int
  {
    if t >= 0 then t + CDiv2(d) else t - CDiv2(d)
  }

  /** d / 2 in C. */
  function CDiv2(d: int): (h: int)
    ensures d >= 0 ==> 0 <= 2 * h <= d && d <= 2 * h + 1
  {
    CDiv(d, 2)
  }

  /**
   * The C expressions of one linear step stay inside 32 bits and the
   * divisor is not zero: the conditions under which the step is defined.
   */
  predicate LerpDefined(x: int, x0: int, x1: int, y0: int, y1: int)
  {
    && x0 != x1
    && IsInt32(x - x0) && IsInt32(x1 - x0) && IsInt32(y1 - y0)
    && IsInt32((x - x0) * (y1 - y0))
    && IsInt32(Rounded((x - x0) * (y1 - y0), x1 - x0))
    && IsInt32(CDiv(Rounded((x - x0) * (y1 - y0), x1 - x0), x1 - x0))
    && IsInt32(CDiv(Rounded((x - x0) * (y1 - y0), x1 - x0), x1 - x0) + y0)
  }

  /**
   * The value at x of the line through (x0, y0) and (x1, y1), as the source
   * computes it: y0 + ((x - x0)(y1 - y0) +- (x1 - x0)/2) / (x1 - x0).
   */
  function Lerp(x: TFp, x0: TFp, x1: TFp, y0: TFp, y1: TFp): TFp
    requires LerpDefined(x, x0, x1, y0, y1)
  {
    CDiv(Rounded((x - x0) * (y1 - y0), x1 - x0), x1 - x0) + y0
  }

  /**
   * On an ascending segment the step's offset from y0 is the exact offset
   * (x - x0)(y1 - y0) / (x1 - x0) rounded to a nearest integer.
   */
  lemma LerpNearest(x: TFp, x0: TFp, x1: TFp, y0: TFp, y1: TFp)
    requires x0 < x1 && LerpDefined(x, x0, x1, y0, y1)
    ensures 2 * Abs((x - x0) * (y1 - y0) - (Lerp(x, x0, x1, y0, y1) - y0) * (x1 - x0)) <= x1 - x0
  {
    RoundDivNearest((x - x0) * (y1 - y0), x1 - x0);
  }

  /**
   * Dividing the rounded product by a positive d gives a nearest integer to
   * t / d: the error is at most half of d.
   */
  lemma RoundDivNearest(t: int, d: int)
    requires d > 0
    ensures 2 * Abs(t - CDiv(Rounded(t, d), d) * d) <= d
  {
    if t >= 0 {
      RoundUpNearest(t, d);
    } else {
      var u := -t + CDiv2(d);
      var q := CDiv(u, d);
      RoundUpNearest(-t, d);
      assert 2 * Abs(-t - q * d) <= d;
      assert Rounded(t, d) == -u;
      CDivNegate(u, d);
      assert CDiv(Rounded(t, d), d) == -q;
      assert (-q) * d == -(q * d);
      assert t - (-q) * d == -(-t - q * d);
    }
  }

  /** For t >= 0: adding half of d before the truncating division rounds t / d to a nearest integer. */
  lemma RoundUpNearest(t: nat, d: int)
    requires d > 0
    ensures 2 * Abs(t - CDiv(t + CDiv2(d), d) * d) <= d
  {
    var q := CDiv(t + CDiv2(d), d);
    assert q >= 0;
    assert q * d <= t + CDiv2(d) < (q + 1) * d;
  }

  /**
   * The chain of compound assignments both interpolators write out for each
   * linear step: subtract x0, multiply by the rise, add or subtract half the
   * run by the sign, divide by the run and add y0.
   */
  method LinearStep(x: TFp, x0: TFp, x1: TFp, y0: TFp, y1: TFp) returns (t: TFp)
    requires LerpDefined(x, x0, x1, y0, y1)
    ensures t == Lerp(x, x0, x1, y0, y1)
  {
    t := x;
    t := t - x0;
    t := t * (y1 - y0);
    if t >= 0 {
      t := t + CDiv(x1 - x0, 2);
    } else {
      t := t - CDiv(x1 - x0, 2);
    }
    t := CDiv(t, x1 - x0);
    t := t + y0;
  }

  /** At the left end of a segment the step returns y0. */
  lemma LerpAtStart(x0: TFp, x1: TFp, y0: TFp, y1: TFp)
    requires LerpDefined(x0, x0, x1, y0, y1)
    ensures Lerp(x0, x0, x1, y0, y1) == y0
  {
    var d := x1 - x0;
    var h := CDiv(d, 2);
    assert (x0 - x0) * (y1 - y0) == 0;
    assert Rounded(0, d) == h;
    assert Abs(h) * 2 <= Abs(d);
    CDivSmall(h, d);
  }

  /** An integer within half of d of a multiple a * d, measured in multiples of d, is a. */
  lemma NearestMultiple(a: int, q: int, d: int)
    requires d > 0 && 2 * Abs(d * a - q * d) <= d
    ensures q == a
  {
    assert d * a - q * d == (a - q) * d;
    AbsMul(a - q, d);
    MulSign(Abs(a - q), d);
  }

  /** At the right end of an ascending segment the step returns y1. */
  lemma LerpAtEnd(x0: TFp, x1: TFp, y0: TFp, y1: TFp)
    requires x0 < x1 && LerpDefined(x1, x0, x1, y0, y1)
    ensures Lerp(x1, x0, x1, y0, y1) == y1
  {
    var r := Lerp(x1, x0, x1, y0, y1);
    LerpNearest(x1, x0, x1, y0, y1);
    NearestMultiple(y1 - y0, r - y0, x1 - x0);
  }

  // ---------------------------------------------------------------------
  // The segment search
  // ---------------------------------------------------------------------

  /** Strictly ascending x-values, the tables the interpolators are written for. */
  predicate Ascending(xs: seq<TFp>)
  {
    forall i, j :: 0 <= i < j < |xs| ==> xs[i] < xs[j]
  }

  /**
   * The search from index i on: the first index from i up to the last
   * segment whose x-value is at least x, and the last segment otherwise.
   */
  function SearchFrom(xs: seq<TFp>, x: TFp, i: nat): (r: nat)
    requires 1 <= i <= |xs| - 1
    requires forall j :: 1 <= j < i ==> xs[j] < x
    ensures i <= r <= |xs| - 1
    ensures forall j :: 1 <= j < r ==> xs[j] < x
    ensures r < |xs| - 1 ==> x <= xs[r]
    decreases |xs| - i
  {
    if i >= |xs| - 1 || x <= xs[i] then i else SearchFrom(xs, x, i + 1)
  }

  /**
   * The segment [i - 1, i] the interpolators use for x: the smallest i in
   * 1 .. N - 2 with x <= xs[i], and N - 1 when there is none. Only the
   * entries i - 1 and i are read.
   */
  function SegmentIndex(xs: seq<TFp>, x: TFp): (i: nat)
    requires |xs| >= 2
    ensures 1 <= i <= |xs| - 1
    ensures forall j :: 1 <= j < i ==> xs[j] < x
    ensures i < |xs| - 1 ==> x <= xs[i]
  {
    SearchFrom(xs, x, 1)
  }

  /** The characterisation of the search has only one solution. */
  lemma SegmentIndexUnique(xs: seq<TFp>, x: TFp, i: nat)
    requires |xs| >= 2 && 1 <= i <= |xs| - 1
    requires forall j :: 1 <= j < i ==> xs[j] < x
    requires i < |xs| - 1 ==> x <= xs[i]
    ensures i == SegmentIndex(xs, x)
  {
  }

  /**
   * Queries outside an ascending table reuse the border segments: at or
   * below xs[1] the first, above xs[N - 2] the last.
   */
  lemma SegmentIndexBorders(xs: seq<TFp>, x: TFp)
    requires |xs| >= 2 && Ascending(xs)
    ensures x <= xs[1] ==> SegmentIndex(xs, x) == 1
    ensures xs[|xs| - 2] < x ==> SegmentIndex(xs, x) == |xs| - 1
  {
    if xs[|xs| - 2] < x {
      SegmentIndexUnique(xs, x, |xs| - 1);
    }
  }

  /**
   * On an ascending table the query xs[a] falls in a segment ending at a,
   * or, for a == 0, in the first segment.
   */
  lemma SegmentOfNode(xs: seq<TFp>, a: nat)
    requires |xs| >= 2 && Ascending(xs) && a < |xs|
    ensures var i := SegmentIndex(xs, xs[a]); i == a || (a == 0 && i == 1)
  {
    if a == 0 {
      SegmentIndexUnique(xs, xs[a], 1);
    } else {
      SegmentIndexUnique(xs, xs[a], a);
    }
  }

  // ---------------------------------------------------------------------
  // FPM_tInterpolate2D
  // ---------------------------------------------------------------------

  /** The x-values of a table of points. */
  function Xs(pts: seq<Point>): (xs: seq<TFp>)
    ensures |xs| == |pts| && forall i :: 0 <= i < |pts| ==> xs[i] == pts[i].x
  {
    seq(|pts|, i requires 0 <= i < |pts| => pts[i].x)
  }

  /** The linear step on the segment chosen for x is defined. */
  predicate Defined2D(pts: seq<Point>, x: TFp)
    requires |pts| >= 2
  {
    var i := SegmentIndex(Xs(pts), x);
    LerpDefined(x, pts[i - 1].x, pts[i].x, pts[i - 1].y, pts[i].y)
  }

  /** The interpolated (or extrapolated) y-value at x. */
  function Interpolation2D(pts: seq<Point>, x: TFp): TFp
    requires |pts| >= 2 && Defined2D(pts, x)
  {
    var i := SegmentIndex(Xs(pts), x);
    Lerp(x, pts[i - 1].x, pts[i].x, pts[i - 1].y, pts[i].y)
  }

  /** FPM_tInterpolate2D: search the segment, then take the rounded linear step on it. */
  method Interpolate2D(tXValue: TFp, ptLUT: array<Point>, ulLUTSize: Uint32) returns (tResult: TFp)
    requires 2 <= ulLUTSize <= ptLUT.Length
    requires Defined2D(ptLUT[..ulLUTSize], tXValue)
    ensures tResult == Interpolation2D(ptLUT[..ulLUTSize], tXValue)
  {
    ghost var xs := Xs(ptLUT[..ulLUTSize]);
    var ulIdx: Uint32 := 1;
    while ulIdx < ulLUTSize - 1
      invariant 1 <= ulIdx <= ulLUTSize - 1
      invariant forall j :: 1 <= j < ulIdx ==> xs[j] < tXValue
    {
      if tXValue <= ptLUT[ulIdx].x {
        break;
      }
      ulIdx := ulIdx + 1;
    }
    SegmentIndexUnique(xs, tXValue, ulIdx);
    tResult := LinearStep(tXValue, ptLUT[ulIdx - 1].x, ptLUT[ulIdx].x, ptLUT[ulIdx - 1].y, ptLUT[ulIdx].y);
  }

  /** On an ascending table the interpolation passes through every point of the table. */
  lemma Interpolation2DAtNode(pts: seq<Point>, a: nat)
    requires |pts| >= 2 && a < |pts| && Ascending(Xs(pts))
    requires Defined2D(pts, pts[a].x)
    ensures Interpolation2D(pts, pts[a].x) == pts[a].y
  {
    var xs := Xs(pts);
    SegmentOfNode(xs, a);
    var i := SegmentIndex(xs, pts[a].x);
    if i == a {
      LerpAtEnd(pts[i - 1].x, pts[i].x, pts[i - 1].y, pts[i].y);
    } else {
      LerpAtStart(pts[i - 1].x, pts[i].x, pts[i - 1].y, pts[i].y);
    }
  }

  /** The two-point table (0, 0), (10, 100): inside, above and below the table. */
  lemma Interpolation2DExample()
    ensures var pts := [Point(0, 0), Point(10, 100)];
      && Defined2D(pts, 5) && Interpolation2D(pts, 5) == 50
      && Defined2D(pts, 20) && Interpolation2D(pts, 20) == 200
      && Defined2D(pts, -10) && Interpolation2D(pts, -10) == -100
  {
    var pts := [Point(0, 0), Point(10, 100)];
    assert SegmentIndex(Xs(pts), 5) == 1;
    assert SegmentIndex(Xs(pts), 20) == 1;
    assert SegmentIndex(Xs(pts), -10) == 1;
  }

  // ---------------------------------------------------------------------
  // FPM_tInterpolate3D
  // ---------------------------------------------------------------------

  /**
   * TLookUpTable3D: the x- and y-values of the grid and the z-values, stored
   * row by row, one row of xSize values for each y-value.
   */
  datatype LookUpTable3D = LookUpTable3D(
    xValues: array<TFp>, yValues: array<TFp>, zValues: array<TFp>, xSize: Uint32, ySize: Uint32)

  /** At least two values per axis and a z-value for every grid point. */
  predicate GridShape(xs: seq<TFp>, ys: seq<TFp>, zs: seq<TFp>)
  {
    |xs| >= 2 && |ys| >= 2 && |zs| == |xs| * |ys|
  }

  /** The position of the z-value at column a of row b in a grid of rows of nx values. */
  function GridIndex(nx: nat, ny: nat, a: nat, b: nat): (r: nat)
    requires a < nx && b < ny
    ensures r < nx * ny
  {
    MulLeRight(b, ny - 1, nx);
    assert (ny - 1) * nx == nx * ny - nx;
    b * nx + a
  }

  /** The next row starts nx values further on. */
  lemma GridIndexNextRow(nx: nat, ny: nat, a: nat, b: nat)
    requires a < nx && b + 1 < ny
    ensures GridIndex(nx, ny, a, b + 1) == GridIndex(nx, ny, a, b) + nx
  {
  }

  /**
   * Moving the pointer to the corner (j, k) back by one value reaches the
   * corner (j - 1, k), back by a row reaches (j, k - 1).
   */
  lemma CornerSteps(nx: nat, ny: nat, j: nat, k: nat)
    requires 1 <= j < nx && 1 <= k < ny
    ensures GridIndex(nx, ny, j, k) - 1 == GridIndex(nx, ny, j - 1, k)
    ensures GridIndex(nx, ny, j, k) - nx == GridIndex(nx, ny, j, k - 1)
    ensures GridIndex(nx, ny, j, k - 1) - 1 == GridIndex(nx, ny, j - 1, k - 1)
  {
    assert k * nx - nx == (k - 1) * nx;
  }

  /**
   * The values of one grid cell: its x- and y-borders and its z-values at
   * the lower (row y1) and upper (row y2) corners.
   */
  datatype Cell = Cell(x1: TFp, x2: TFp, y1: TFp, y2: TFp, z11: TFp, z21: TFp, z12: TFp, z22: TFp)

  /** The three linear steps on cell c are defined at p. */
  predicate CellDefined(c: Cell, p: Point)
  {
    && LerpDefined(p.x, c.x1, c.x2, c.z11, c.z21)
    && LerpDefined(p.x, c.x1, c.x2, c.z12, c.z22)
    && LerpDefined(p.y, c.y1, c.y2, Lerp(p.x, c.x1, c.x2, c.z11, c.z21), Lerp(p.x, c.x1, c.x2, c.z12, c.z22))
  }

  /**
   * The bilinear step on cell c: the x-steps along the lower row and the
   * upper row, then the y-step between their results.
   */
  function Bilinear(c: Cell, p: Point): TFp
    requires CellDefined(c, p)
  {
    Lerp(p.y, c.y1, c.y2, Lerp(p.x, c.x1, c.x2, c.z11, c.z21), Lerp(p.x, c.x1, c.x2, c.z12, c.z22))
  }

  /** The cell the two searches select for p. */
  function CellOf(xs: seq<TFp>, ys: seq<TFp>, zs: seq<TFp>, p: Point): Cell
    requires GridShape(xs, ys, zs)
  {
    var nx, ny, j, k := |xs|, |ys|, SegmentIndex(xs, p.x), SegmentIndex(ys, p.y);
    Cell(xs[j - 1], xs[j], ys[k - 1], ys[k],
      zs[GridIndex(nx, ny, j - 1, k - 1)], zs[GridIndex(nx, ny, j, k - 1)],
      zs[GridIndex(nx, ny, j - 1, k)], zs[GridIndex(nx, ny, j, k)])
  }

  /** The three linear steps on the cell chosen for p are defined. */
  predicate Defined3D(xs: seq<TFp>, ys: seq<TFp>, zs: seq<TFp>, p: Point)
    requires GridShape(xs, ys, zs)
  {
    CellDefined(CellOf(xs, ys, zs, p), p)
  }

  /** The bilinear value at p on the cell the two searches select. */
  function Interpolation3D(xs: seq<TFp>, ys: seq<TFp>, zs: seq<TFp>, p: Point): TFp
    requires GridShape(xs, ys, zs) && Defined3D(xs, ys, zs, p)
  {
    Bilinear(CellOf(xs, ys, zs, p), p)
  }

  /** The table's arrays are large enough for its sizes. */
  predicate TableShape(t: LookUpTable3D)
  {
    && 2 <= t.xSize <= t.xValues.Length
    && 2 <= t.ySize <= t.yValues.Length
    && t.xSize * t.ySize <= t.zValues.Length
  }

  /** The values of a table as sequences. */
  function Grid(t: LookUpTable3D): (g: (seq<TFp>, seq<TFp>, seq<TFp>))
    requires TableShape(t)
    reads t.xValues, t.yValues, t.zValues
    ensures GridShape(g.0, g.1, g.2)
  {
    (t.xValues[..t.xSize], t.yValues[..t.ySize], t.zValues[..t.xSize * t.ySize])
  }

  /**
   * The search part of FPM_tInterpolate3D: walk the x-values and then the
   * y-values to the cell holding p, moving the pointer to the cell's upper
   * right z-value along. The results are the offsets of ptX1, ptX2, ptY1,
   * ptY2 and ptZX2Y2 from the start of their arrays.
   */
  method FindCell(ptInputVal: Point, ptLUT: LookUpTable3D) returns (x1: nat, x2: nat, y1: nat, y2: nat, z22: nat)
    requires TableShape(ptLUT)
    ensures x2 == SegmentIndex(Grid(ptLUT).0, ptInputVal.x) && x1 == x2 - 1
    ensures y2 == SegmentIndex(Grid(ptLUT).1, ptInputVal.y) && y1 == y2 - 1
    ensures z22 == GridIndex(ptLUT.xSize, ptLUT.ySize, x2, y2)
  {
    ghost var (xs, ys, zs) := Grid(ptLUT);
    var nx: nat, ny: nat := ptLUT.xSize, ptLUT.ySize;
    x1 := 0;
    x2 := 1;
    z22 := 1 + nx;
    while true
      invariant 1 <= x2 <= nx - 1 && z22 == nx + x2
      invariant forall j :: 1 <= j < x2 ==> xs[j] < ptInputVal.x
      decreases nx - x2
    {
      if x2 >= nx - 1 || ptInputVal.x <= ptLUT.xValues[x2] {
        x1 := x2 - 1;
        break;
      }
      x2 := x2 + 1;
      z22 := z22 + 1;
    }
    SegmentIndexUnique(xs, ptInputVal.x, x2);
    y1 := 0;
    y2 := 1;
    while true
      invariant 1 <= y2 <= ny - 1 && z22 == GridIndex(nx, ny, x2, y2)
      invariant forall j :: 1 <= j < y2 ==> ys[j] < ptInputVal.y
      decreases ny - y2
    {
      if y2 >= ny - 1 || ptInputVal.y <= ptLUT.yValues[y2] {
        y1 := y2 - 1;
        break;
      }
      GridIndexNextRow(nx, ny, x2, y2);
      y2 := y2 + 1;
      z22 := z22 + nx;
    }
    SegmentIndexUnique(ys, ptInputVal.y, y2);
  }

  /**
   * The corner pointers derived from ptZX2Y2 read the cell the searches
   * select, and all of them point into the z-values.
   */
  lemma CellReads(t: LookUpTable3D, p: Point, x1: nat, x2: nat, y1: nat, y2: nat, z11: int, z21: int, z12: int, z22: nat)
    requires TableShape(t)
    requires x2 == SegmentIndex(Grid(t).0, p.x) && x1 == x2 - 1
    requires y2 == SegmentIndex(Grid(t).1, p.y) && y1 == y2 - 1
    requires z22 == GridIndex(t.xSize, t.ySize, x2, y2)
    requires z12 == z22 - 1 && z21 == z22 - t.xSize && z11 == z21 - 1
    ensures 0 <= z11 && 0 <= z12 && 0 <= z21 && z22 < t.xSize * t.ySize <= t.zValues.Length
    ensures Cell(t.xValues[x1], t.xValues[x2], t.yValues[y1], t.yValues[y2],
      t.zValues[z11], t.zValues[z21], t.zValues[z12], t.zValues[z22]) == CellOf(Grid(t).0, Grid(t).1, Grid(t).2, p)
  {
    var (xs, ys, zs) := Grid(t);
    var nx, ny := t.xSize, t.ySize;
    CornerSteps(nx, ny, x2, y2);
    assert t.xValues[x1] == xs[x2 - 1] && t.xValues[x2] == xs[x2];
    assert t.yValues[y1] == ys[y2 - 1] && t.yValues[y2] == ys[y2];
    assert t.zValues[z11] == zs[GridIndex(nx, ny, x2 - 1, y2 - 1)];
    assert t.zValues[z21] == zs[GridIndex(nx, ny, x2, y2 - 1)];
    assert t.zValues[z12] == zs[GridIndex(nx, ny, x2 - 1, y2)];
    assert t.zValues[z22] == zs[GridIndex(nx, ny, x2, y2)];
  }

  /**
   * FPM_tInterpolate3D: find the cell holding the input, derive the other
   * three corner pointers from ptZX2Y2 and interpolate bilinearly on it.
   */
  method Interpolate3D(ptInputVal: Point, ptLUT: LookUpTable3D) returns (tResult: TFp)
    requires TableShape(ptLUT)
    requires Defined3D(Grid(ptLUT).0, Grid(ptLUT).1, Grid(ptLUT).2, ptInputVal)
    ensures tResult == Interpolation3D(Grid(ptLUT).0, Grid(ptLUT).1, Grid(ptLUT).2, ptInputVal)
  {
    var nx: nat := ptLUT.xSize;
    var x1, x2, y1, y2, z22 := FindCell(ptInputVal, ptLUT);
    var z12 := z22 - 1;
    var z21 := z22 - nx;
    var z11 := z21 - 1;
    CellReads(ptLUT, ptInputVal, x1, x2, y1, y2, z11, z21, z12, z22);
    var tZ1 := LinearStep(ptInputVal.x, ptLUT.xValues[x1], ptLUT.xValues[x2], ptLUT.zValues[z11], ptLUT.zValues[z21]);
    var tZ2 := LinearStep(ptInputVal.x, ptLUT.xValues[x1], ptLUT.xValues[x2], ptLUT.zValues[z12], ptLUT.zValues[z22]);
    tResult := LinearStep(ptInputVal.y, ptLUT.yValues[y1], ptLUT.yValues[y2], tZ1, tZ2);
  }

  /** On ascending axes the interpolation returns the stored z-value at every grid point. */
  lemma Interpolation3DAtNode(xs: seq<TFp>, ys: seq<TFp>, zs: seq<TFp>, a: nat, b: nat)
    requires GridShape(xs, ys, zs) && Ascending(xs) && Ascending(ys) && a < |xs| && b < |ys|
    requires Defined3D(xs, ys, zs, Point(xs[a], ys[b]))
    ensures Interpolation3D(xs, ys, zs, Point(xs[a], ys[b])) == zs[GridIndex(|xs|, |ys|, a, b)]
  {
    var p := Point(xs[a], ys[b]);
    SegmentOfNode(xs, a);
    SegmentOfNode(ys, b);
    var j, k := SegmentIndex(xs, p.x), SegmentIndex(ys, p.y);
    var c := CellOf(xs, ys, zs, p);
    var z1 := Lerp(p.x, c.x1, c.x2, c.z11, c.z21);
    var z2 := Lerp(p.x, c.x1, c.x2, c.z12, c.z22);
    if j == a {
      LerpAtEnd(c.x1, c.x2, c.z11, c.z21);
      LerpAtEnd(c.x1, c.x2, c.z12, c.z22);
    } else {
      LerpAtStart(c.x1, c.x2, c.z11, c.z21);
      LerpAtStart(c.x1, c.x2, c.z12, c.z22);
    }
    if k == b {
      LerpAtEnd(c.y1, c.y2, z1, z2);
    } else {
      LerpAtStart(c.y1, c.y2, z1, z2);
    }
  }

  /** The 2 x 2 grid x = [0, 10], y = [0, 10], z = [0, 10, 20, 30] at (5, 5). */
  lemma Interpolation3DExample()
    ensures var (xs, ys, zs) := ([0, 10], [0, 10], [0, 10, 20, 30]);
      GridShape(xs, ys, zs) && Defined3D(xs, ys, zs, Point(5, 5))
      && Interpolation3D(xs, ys, zs, Point(5, 5)) == 15
  {
    var xs: seq<TFp>, ys: seq<TFp>, zs: seq<TFp> := [0, 10], [0, 10], [0, 10, 20, 30];
    assert SegmentIndex(xs, 5) == 1;
    assert SegmentIndex(ys, 5) == 1;
    assert Lerp(5, 0, 10, 0, 10) == 5;
    assert Lerp(5, 0, 10, 20, 30) == 25;
  }
}
