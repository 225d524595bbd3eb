/** The line-sink segment interpolation of core/elements/element.py
    (LineSink._interpolate_along_segments): one output line per pair of
    consecutive vertices, carrying a value interpolated linearly between a
    start and an end value at the segment's "midpoint".

    The source takes its per-vertex distance as the norm of the difference
    along axis 1 of the n-by-2 vertex array, which is |y - x| of each vertex
    and not the length of a segment; the model keeps that reading. */
module Segments {
  import opened Wrappers
  import opened Values
  import opened Schemata

  function Abs(x: real): real {
    if x < 0.0 then -x else x
  }

  /** The norm of `np.diff(xy, axis=1)` for one vertex. */
  function Distance(p: Point): real {
    Abs(p.y - p.x)
  }

  /** `distance`: one entry per vertex (not per segment). */
  function Distances(pts: seq<Point>): (d: seq<real>)
    ensures |d| == |pts|
    ensures forall i :: 0 <= i < |pts| ==> d[i] == Distance(pts[i]) >= 0.0
  {
    seq(|pts|, i requires 0 <= i < |pts| => Distance(pts[i]))
  }

  predicate NonNegative(d: seq<real>) {
    forall k :: 0 <= k < |d| ==> d[k] >= 0.0
  }

  /** The sum of a sequence, taken from the back so that prefix sums extend. */
  function Sum(s: seq<real>): real {
    if |s| == 0 then 0.0 else Sum(s[..|s| - 1]) + s[|s| - 1]
  }

  /** `distance.cumsum()[i]`. */
  function Accumulated(d: seq<real>, i: nat): real
    requires i < |d|
  {
    Sum(d[..i + 1])
  }

  /** `accumulated[-1]`: the sum of every vertex distance. */
  function Total(pts: seq<Point>): real {
    Sum(Distances(pts))
  }

  /** `midpoint[i]`: the accumulated distance less half the vertex's own. */
  function Midpoint(d: seq<real>, i: nat): real
    requires i < |d|
  {
    Accumulated(d, i) - d[i] / 2.0
  }

  /** `midpoint_values[i]`: linear interpolation between start and end at the
      midpoint's share of the total. */
  function MidpointValue(pts: seq<Point>, i: nat, start: real, end: real): real
    requires i < |pts| && Total(pts) != 0.0
  {
    start + (Midpoint(Distances(pts), i) / Total(pts)) * (end - start)
  }

  lemma {:induction false} SumNonNegative(s: seq<real>)
    requires NonNegative(s)
    ensures Sum(s) >= 0.0
  {
    if |s| > 0 {
      SumNonNegative(s[..|s| - 1]);
    }
  }

  /** Extending a prefix by one element adds that element. */
  lemma AccumulatedStep(d: seq<real>, i: nat)
    requires i + 1 < |d|
    ensures Accumulated(d, i + 1) == Accumulated(d, i) + d[i + 1]
  {
    assert d[..i + 2][..i + 1] == d[..i + 1];
  }

  /** A prefix sum of non-negative distances never exceeds the total. */
  lemma {:induction false} AccumulatedAtMostTotal(d: seq<real>, i: nat)
    requires i < |d| && NonNegative(d)
    ensures 0.0 <= Accumulated(d, i) <= Sum(d)
    decreases |d| - i
  {
    assert NonNegative(d[..i + 1]);
    SumNonNegative(d[..i + 1]);
    if i + 1 < |d| {
      AccumulatedAtMostTotal(d, i + 1);
      AccumulatedStep(d, i);
    } else {
      assert d[..i + 1] == d;
      SumNonNegative(d);
    }
  }

  /** Every midpoint lies between zero and the total. */
  lemma MidpointBounds(d: seq<real>, i: nat)
    requires i < |d| && NonNegative(d)
    ensures 0.0 <= Midpoint(d, i) <= Sum(d)
  {
    AccumulatedAtMostTotal(d, i);
    if i > 0 {
      AccumulatedAtMostTotal(d, i - 1);
      AccumulatedStep(d, i - 1);
    } else {
      assert d[..1] == [d[0]];
      assert d[..1][..0] == [];
    }
  }

  /** Midpoints never decrease along the line. */
  lemma {:induction false} MidpointsNonDecreasing(d: seq<real>, i: nat, j: nat)
    requires i <= j < |d| && NonNegative(d)
    ensures Midpoint(d, i) <= Midpoint(d, j)
    decreases j - i
  {
    if i < j {
      MidpointsNonDecreasing(d, i, j - 1);
      AccumulatedStep(d, j - 1);
    }
  }

  /** With end >= start the interpolated values stay within [start, end]
      and never decrease along the line. */
  lemma ValuesMonotone(pts: seq<Point>, start: real, end: real, i: nat, j: nat)
    requires i <= j < |pts| && Total(pts) != 0.0 && start <= end
    ensures start <= MidpointValue(pts, i, start, end) <= MidpointValue(pts, j, start, end) <= end
  {
    var d := Distances(pts);
    var t := Total(pts);
    assert NonNegative(d);
    MidpointBounds(d, i);
    MidpointBounds(d, j);
    MidpointsNonDecreasing(d, i, j);
    assert t == Sum(d);
    assert 0.0 <= Midpoint(d, i) <= Midpoint(d, j) <= t;
    var a := Midpoint(d, i) / t;
    var b := Midpoint(d, j) / t;
    RatioBounds(Midpoint(d, i), Midpoint(d, j), t);
    InterpolateBetween(start, end, a, b, MidpointValue(pts, i, start, end), MidpointValue(pts, j, start, end));
  }

  /** Multiplying by a non-negative factor keeps an inequality. */
  lemma MulMonotone(x: real, y: real, c: real)
    requires x <= y && 0.0 <= c
    ensures x * c <= y * c
  {
    assert (y - x) * c >= 0.0;
    assert y * c == x * c + (y - x) * c;
  }

  lemma DivNonNegative(x: real, t: real)
    requires 0.0 <= x && 0.0 < t
    ensures 0.0 <= x / t
  {
  }

  /** Dividing by a positive number keeps an inequality. */
  lemma DivMonotone(x: real, y: real, t: real)
    requires x <= y && 0.0 < t
    ensures x / t <= y / t
  {
    assert y / t - x / t == (y - x) / t;
    DivNonNegative(y - x, t);
  }

  /** Dividing an ordered pair in [0, t] by t keeps the order inside [0, 1]. */
  lemma RatioBounds(m1: real, m2: real, t: real)
    requires 0.0 <= m1 <= m2 <= t && t != 0.0
    ensures 0.0 <= m1 / t <= m2 / t <= 1.0
  {
    DivNonNegative(m1, t);
    DivMonotone(m1, m2, t);
    DivMonotone(m2, t, t);
    assert t / t == 1.0;
  }

  /** Scaling two ordered shares in [0, 1] by c >= 0 keeps them ordered in [0, c]. */
  lemma ScaledBounds(a: real, b: real, c: real)
    requires 0.0 <= a <= b <= 1.0 && 0.0 <= c
    ensures 0.0 <= a * c <= b * c <= c
  {
    MulMonotone(0.0, a, c);
    MulMonotone(a, b, c);
    MulMonotone(b, 1.0, c);
  }

  /** Interpolating at two ordered shares in [0, 1] gives ordered values in
      [start, end]. */
  lemma InterpolateBetween(start: real, end: real, a: real, b: real, va: real, vb: real)
    requires start <= end && 0.0 <= a <= b <= 1.0
    requires va == start + a * (end - start) && vb == start + b * (end - start)
    ensures start <= va <= vb <= end
  {
    ScaledBounds(a, b, end - start);
    OffsetBounds(start, end, a * (end - start), b * (end - start), va, vb);
  }

  lemma OffsetBounds(start: real, end: real, pa: real, pb: real, va: real, vb: real)
    requires 0.0 <= pa <= pb <= end - start
    requires va == start + pa && vb == start + pb
    ensures start <= va <= vb <= end
  {
  }

  /** The value of a segment from `end` back to `start` mirrors the one from
      `start` to `end`. */
  lemma ValuesMirror(pts: seq<Point>, start: real, end: real, i: nat)
    requires i < |pts| && Total(pts) != 0.0
    ensures MidpointValue(pts, i, start, end) + MidpointValue(pts, i, end, start) == start + end
  {
  }

  /** Moving every vertex along the diagonal (x + t, y + t) changes no value:
      the axis-1 difference sees only y - x, not where the vertices are. */
  lemma DiagonalShiftInvariant(pts: seq<Point>, t: real, start: real, end: real, i: nat)
    requires i < |pts| && Total(pts) != 0.0
    ensures var moved := seq(|pts|, k requires 0 <= k < |pts| => Point(pts[k].x + t, pts[k].y + t));
      Total(moved) == Total(pts) &&
      MidpointValue(moved, i, start, end) == MidpointValue(pts, i, start, end)
  {
    var moved := seq(|pts|, k requires 0 <= k < |pts| => Point(pts[k].x + t, pts[k].y + t));
    assert Distances(moved) == Distances(pts);
  }

  /** For the vertices (0,0), (10,0), (20,0) interpolated from 0 to 20 the
      two segment values are 0 and 10/3 (arc length would give 5 and 15). */
  lemma ThreeVertexExample()
    ensures var pts := [Point(0.0, 0.0), Point(10.0, 0.0), Point(20.0, 0.0)];
      Total(pts) == 30.0 &&
      MidpointValue(pts, 0, 0.0, 20.0) == 0.0 &&
      MidpointValue(pts, 1, 0.0, 20.0) == 10.0 / 3.0
  {
    var pts := [Point(0.0, 0.0), Point(10.0, 0.0), Point(20.0, 0.0)];
    var d := Distances(pts);
    assert d == [0.0, 10.0, 20.0];
    assert d[..1] == [0.0];
    assert d[..2] == [0.0, 10.0];
    assert d[..3] == d;
    assert Sum([0.0]) == 0.0 by { assert [0.0][..0] == []; }
    assert Sum([0.0, 10.0]) == 10.0 by { assert [0.0, 10.0][..1] == [0.0]; }
    assert Sum(d) == 30.0 by { assert d[..2] == [0.0, 10.0]; }
  }

  /** One emitted line, "x0 y0 x1 y1 value". */
  function SegmentLine(p: Point, q: Point, v: real): Line {
    [Val(Num(p.x)), Val(Num(p.y)), Val(Num(q.x)), Val(Num(q.y)), Val(Num(v))]
  }

  /** The lines for consecutive vertex pairs `k`, `k + 1` from `k = i` on. */
  function SegmentLines(pts: seq<Point>, start: real, end: real, i: nat): (lines: Text)
    requires i < |pts| && Total(pts) != 0.0
    ensures |lines| == |pts| - 1 - i
    ensures forall k :: 0 <= k < |lines| ==>
      lines[k] == SegmentLine(pts[i + k], pts[i + k + 1], MidpointValue(pts, i + k, start, end))
    decreases |pts| - i
  {
    if i + 1 == |pts| then []
    else [SegmentLine(pts[i], pts[i + 1], MidpointValue(pts, i, start, end))] + SegmentLines(pts, start, end, i + 1)
  }

  /** `_interpolate_along_segments(xy, start, end)`: n - 1 lines for n vertices.
      An array without a second axis (no vertices, or no vertex list) raises
      numpy's AxisError, a ValueError; a start or end that is not a number
      raises TypeError; a zero total is numpy's 0/0. */
  function Interpolate(xy: Value, start: Value, end: Value): (r: Result<Text>)
    ensures r.Ok? <==>
      (xy.XY? && |xy.pts| > 0 && IsNumber(start) && IsNumber(end) &&
       (|xy.pts| == 1 || Total(xy.pts) != 0.0))
    ensures !xy.XY? || |xy.pts| == 0 ==> r == Fail(ValueError)
    ensures xy.XY? && |xy.pts| > 0 && !(IsNumber(start) && IsNumber(end)) ==> r == Fail(TypeError)
    ensures r.Ok? ==> |r.value| == |xy.pts| - 1
    ensures r.Ok? ==> forall k :: 0 <= k < |r.value| ==>
      r.value[k] == SegmentLine(xy.pts[k], xy.pts[k + 1], MidpointValue(xy.pts, k, AsReal(start), AsReal(end)))
  {
    if !xy.XY? || |xy.pts| == 0 then Fail(ValueError)
    else if !(IsNumber(start) && IsNumber(end)) then Fail(TypeError)
    else if |xy.pts| == 1 then Ok([])
    else if Total(xy.pts) == 0.0 then Fail(NotANumber)
    else Ok(SegmentLines(xy.pts, AsReal(start), AsReal(end), 0))
  }
}
