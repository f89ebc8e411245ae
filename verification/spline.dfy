// Response curves of gremlin/spline.py: a piecewise-linear curve over
// control points sorted by x, a natural cubic spline, and a cubic Bézier
// spline evaluated through a per-segment lookup table. Coordinates are
// `real`; floating-point rounding is not modelled.
module Spline {
  import opened PyCore
  import opened GremlinTypes

  datatype Point2D = Point2D(x: real, y: real)

  // ---------------------------------------------------------------------
  // Sorting by x, as `sorted(points, key=lambda pt: pt.x)` does

  predicate SortedByX(ps: seq<Point2D>)
  {
    forall i, j :: 0 <= i < j < |ps| ==> ps[i].x <= ps[j].x
  }

  /** Puts `p` after every point whose x is not larger, so equal keys keep their order. */
  function InsertByX(ps: seq<Point2D>, p: Point2D): (r: seq<Point2D>)
    ensures |r| == |ps| + 1
    ensures multiset(r) == multiset(ps) + multiset{p}
    ensures forall q :: q in r ==> q in ps || q == p
  {
    if ps == [] then [p]
    else if p.x < ps[|ps| - 1].x then
      assert ps == ps[..|ps| - 1] + [ps[|ps| - 1]];
      InsertByX(ps[..|ps| - 1], p) + [ps[|ps| - 1]]
    else ps + [p]
  }

  lemma {:induction false} InsertKeepsSorted(ps: seq<Point2D>, p: Point2D)
    requires SortedByX(ps)
    ensures SortedByX(InsertByX(ps, p))
  {
    if ps != [] && p.x < ps[|ps| - 1].x {
      var front, last := ps[..|ps| - 1], ps[|ps| - 1];
      InsertKeepsSorted(front, p);
      var q := InsertByX(front, p);
      forall k | 0 <= k < |q| ensures q[k].x <= last.x {
        if q[k] in front {
          var m :| 0 <= m < |front| && front[m] == q[k];
          assert ps[m] == q[k];
        }
      }
    }
  }

  /** A stable insertion sort by x: the order `sorted()` produces. */
  function SortByX(ps: seq<Point2D>): (r: seq<Point2D>)
    ensures |r| == |ps|
    ensures multiset(r) == multiset(ps)
    ensures SortedByX(r)
  {
    if ps == [] then []
    else
      assert ps == ps[..|ps| - 1] + [ps[|ps| - 1]];
      InsertKeepsSorted(SortByX(ps[..|ps| - 1]), ps[|ps| - 1]);
      InsertByX(SortByX(ps[..|ps| - 1]), ps[|ps| - 1])
  }

  /** A point no smaller than the last goes at the end. */
  lemma InsertAtEnd(ps: seq<Point2D>, p: Point2D)
    requires ps == [] || ps[|ps| - 1].x <= p.x
    ensures InsertByX(ps, p) == ps + [p]
  {
  }

  /** Sorting points that are already sorted leaves them as they are. */
  lemma {:induction false} SortSorted(ps: seq<Point2D>)
    requires SortedByX(ps)
    ensures SortByX(ps) == ps
  {
    if ps != [] {
      var front, last := ps[..|ps| - 1], ps[|ps| - 1];
      SortedFront(ps);
      SortSorted(front);
      InsertAtEnd(front, last);
      calc {
        SortByX(ps);
        InsertByX(SortByX(front), last);
        InsertByX(front, last);
        front + [last];
        { assert ps == front + [last]; }
        ps;
      }
    }
  }

  /** Dropping the last point keeps the points sorted, and the last point is no smaller than the one before. */
  lemma SortedFront(ps: seq<Point2D>)
    requires SortedByX(ps) && ps != []
    ensures SortedByX(ps[..|ps| - 1])
    ensures |ps| == 1 || ps[..|ps| - 1][|ps| - 2].x <= ps[|ps| - 1].x
  {
  }

  /** Appending one point and sorting again is the same as inserting it in place. */
  lemma AppendThenSort(ps: seq<Point2D>, p: Point2D)
    requires SortedByX(ps)
    ensures SortByX(ps + [p]) == InsertByX(ps, p)
  {
    assert (ps + [p])[..|ps|] == ps;
    SortSorted(ps);
  }

  // ---------------------------------------------------------------------
  // PiecewiseLinear (gremlin/spline.py:77-115)

  /** The straight line through `a` and `b`, evaluated at `x`. */
  function Lerp(a: Point2D, b: Point2D, x: real): real
    requires a.x != b.x
  {
    a.y + (b.y - a.y) * (x - a.x) / (b.x - a.x)
  }

  predicate Between(v: real, p: real, q: real)
  {
    (p <= v <= q) || (q <= v <= p)
  }

  /** Inside [a.x, b.x] the line never leaves the range of its end values. */
  lemma LerpBounds(a: Point2D, b: Point2D, x: real)
    requires a.x <= x <= b.x && a.x < b.x
    ensures Between(Lerp(a, b, x), a.y, b.y)
    ensures x == a.x ==> Lerp(a, b, x) == a.y
    ensures x == b.x ==> Lerp(a, b, x) == b.y
  {
    var w := b.x - a.x;
    var t := (x - a.x) / w;
    assert 0.0 <= t <= 1.0;
    var d := b.y - a.y;
    assert t * w == x - a.x;
    assert d * (x - a.x) == (d * t) * w;
    assert d * (x - a.x) / w == d * t;
    assert Lerp(a, b, x) == a.y + d * t;
    if x == b.x {
      assert t == 1.0;
    }
    if d >= 0.0 {
      assert 0.0 <= d * t <= d;
    } else {
      assert d <= d * t <= 0.0;
    }
  }

  /** Segment i of `ps` holds `x` in the half-open sense the evaluation loop tests. */
  predicate HalfOpen(ps: seq<Point2D>, i: int, x: real)
    requires 0 <= i < |ps| - 1
  {
    ps[i].x <= x < ps[i + 1].x
  }

  class PiecewiseLinear {
    var points: seq<Point2D>

    ghost predicate Valid()
      reads this
    {
      SortedByX(points)
    }

    /** The points given, sorted by x. */
    constructor (pts: seq<Point2D>)
      ensures Valid()
      ensures points == SortByX(pts)
      ensures multiset(points) == multiset(pts)
    {
      points := SortByX(pts);
    }

    /** Appends a point and sorts again: the point lands after all points with x not larger. */
    method AddControlPoint(x: real, y: real)
      requires Valid()
      modifies this
      ensures Valid()
      ensures |points| == |old(points)| + 1
      ensures multiset(points) == multiset(old(points)) + multiset{Point2D(x, y)}
      ensures points == InsertByX(old(points), Point2D(x, y))
    {
      AppendThenSort(points, Point2D(x, y));
      points := points + [Point2D(x, y)];
      points := SortByX(points);
    }

    /**
     * The curve's value at x, after clamping x into [-1, 1]: the first
     * point's y at or left of the first point, the last point's y at or
     * right of the last point, and otherwise the line through the first
     * pair of neighbours that holds x. No points: IndexError.
     */
    method Evaluate(x: real) returns (r: Result<real>)
      requires Valid()
      ensures points == [] <==> r == Err(IndexError)
      ensures points != [] ==> r.Ok?
      ensures points != [] && Clamp(x, -1.0, 1.0) <= points[0].x ==> r.value == points[0].y
      ensures points != [] && points[0].x < Clamp(x, -1.0, 1.0) && points[|points| - 1].x <= Clamp(x, -1.0, 1.0)
              ==> r.value == points[|points| - 1].y
      ensures points != [] && points[0].x < Clamp(x, -1.0, 1.0) < points[|points| - 1].x ==>
              exists i :: 0 <= i < |points| - 1 && HalfOpen(points, i, Clamp(x, -1.0, 1.0))
                && (forall j :: 0 <= j < i ==> !HalfOpen(points, j, Clamp(x, -1.0, 1.0)))
                && r.value == Lerp(points[i], points[i + 1], Clamp(x, -1.0, 1.0))
                && Between(r.value, points[i].y, points[i + 1].y)
    {
      if points == [] {
        return Err(IndexError);
      }
      var cx := Clamp(x, -1.0, 1.0);
      var n := |points|;
      if cx <= points[0].x {
        return Ok(points[0].y);
      } else if cx >= points[n - 1].x {
        return Ok(points[n - 1].y);
      }
      // The loop of the source returns at the first pair that holds cx; for
      // sorted points such a pair always exists, so it never falls through.
      var i := 0;
      while !(points[i].x <= cx < points[i + 1].x)
        invariant 0 <= i < n - 1
        invariant points[i].x <= cx
        invariant forall j :: 0 <= j < i ==> !HalfOpen(points, j, cx)
        decreases n - 1 - i
      {
        i := i + 1;
      }
      LerpBounds(points[i], points[i + 1], cx);
      r := Ok(Lerp(points[i], points[i + 1], cx));
    }
  }

  // ---------------------------------------------------------------------
  // CubicSpline (gremlin/spline.py:118-187)

  predicate NonDecreasing(xs: seq<real>)
  {
    forall i, j :: 0 <= i < j < |xs| ==> xs[i] <= xs[j]
  }

  predicate StrictlyIncreasing(xs: seq<real>)
  {
    forall i, j :: 0 <= i < j < |xs| ==> xs[i] < xs[j]
  }

  /** Width of interval i. */
  function Width(xs: seq<real>, i: nat): real
    requires i + 1 < |xs|
  {
    xs[i + 1] - xs[i]
  }

  /** Slope of the chord over interval i. */
  function Chord(xs: seq<real>, ys: seq<real>, i: nat): real
    requires i + 1 < |xs| && |ys| == |xs| && Width(xs, i) != 0.0
  {
    (ys[i + 1] - ys[i]) / Width(xs, i)
  }

  /**
   * Row i of the natural cubic spline's tridiagonal system: the second
   * derivatives z make the first derivative continuous at knot i.
   */
  predicate SplineRow(xs: seq<real>, ys: seq<real>, z: seq<real>, i: nat)
    requires 1 <= i && i + 1 < |xs| && |ys| == |xs| && |z| == |xs|
    requires Width(xs, i - 1) != 0.0 && Width(xs, i) != 0.0
  {
    Width(xs, i - 1) * z[i - 1] + 2.0 * (Width(xs, i - 1) + Width(xs, i)) * z[i] + Width(xs, i) * z[i + 1]
      == 6.0 * (Chord(xs, ys, i) - Chord(xs, ys, i - 1))
  }

  /** The pivot the forward sweep computes for a row from the previous width and pivot (line 160). */
  function Pivot(hp: real, hc: real, up: real): real
    requires up != 0.0
  {
    2.0 * (hc + hp) - hp * hp / up
  }

  /** The right-hand side the forward sweep computes for a row (line 161). */
  function Rhs(hp: real, bp: real, bc: real, vp: real, up: real): real
    requires up != 0.0
  {
    6.0 * (bc - bp) - hp * vp / up
  }

  /** One back-substitution step (line 165). */
  function Solve(v: real, h: real, znext: real, u: real): real
    requires u != 0.0
  {
    (v - h * znext) / u
  }

  /** One row of the system, from the forward sweep and the back substitution. */
  lemma SweepRow(hp: real, hc: real, up: real, vp: real, zc: real, zn: real, bp: real, bc: real)
    requires up != 0.0 && Pivot(hp, hc, up) != 0.0
    ensures var uc, vc := Pivot(hp, hc, up), Rhs(hp, bp, bc, vp, up);
            var zp := Solve(vp, hp, zc, up);
            zc == Solve(vc, hc, zn, uc) ==>
            hp * zp + 2.0 * (hp + hc) * zc + hc * zn == 6.0 * (bc - bp)
  {
    var uc, vc := Pivot(hp, hc, up), Rhs(hp, bp, bc, vp, up);
    var zp := Solve(vp, hp, zc, up);
    if zc == Solve(vc, hc, zn, uc) {
      var r := hp * hp / up;
      assert uc * zc == vc - hc * zn by {
        assert zc == (vc - hc * zn) / uc;
      }
      assert hp * zp == hp * vp / up - r * zc by {
        assert zp == (vp - hp * zc) / up;
        assert hp * zp == (hp * vp - hp * hp * zc) / up;
      }
      assert 2.0 * (hp + hc) * zc == uc * zc + r * zc by {
        assert uc == 2.0 * (hp + hc) - r;
      }
    }
  }

  /** The first row, where z[0] is pinned to 0. */
  lemma FirstRow(h0: real, h1: real, z1: real, z2: real, b0: real, b1: real)
    requires h0 + h1 != 0.0
    ensures z1 == Solve(6.0 * (b1 - b0), h1, z2, 2.0 * (h0 + h1)) ==>
            h0 * 0.0 + 2.0 * (h0 + h1) * z1 + h1 * z2 == 6.0 * (b1 - b0)
  {
    if z1 == Solve(6.0 * (b1 - b0), h1, z2, 2.0 * (h0 + h1)) {
      assert 2.0 * (h0 + h1) * z1 == 6.0 * (b1 - b0) - h1 * z2;
    }
  }

  /** The forward sweep keeps its pivots above the next width, hence positive. */
  lemma PivotStaysPositive(hp: real, hc: real, up: real)
    requires hp > 0.0 && hc > 0.0 && up > hp
    ensures Pivot(hp, hc, up) > hc
  {
    assert hp * hp / up < hp by {
      assert hp * hp < hp * up;
    }
  }

  /** What the sweep and the back substitution leave for widths h, slopes b, pivots u, right-hand sides v and solution z. */
  ghost predicate Swept(xs: seq<real>, ys: seq<real>, z: seq<real>, h: seq<real>, b: seq<real>, u: seq<real>, v: seq<real>)
  {
    |ys| == |xs| && |z| == |xs| && |xs| >= 3 && |h| == |b| == |u| == |v| == |xs| - 1
    && (forall k :: 0 <= k < |h| ==> h[k] == Width(xs, k) && h[k] > 0.0)
    && (forall k :: 0 <= k < |h| ==> b[k] == Chord(xs, ys, k))
    && (forall k :: 1 <= k < |u| ==> u[k] > h[k])
    && u[1] == 2.0 * (h[0] + h[1]) && v[1] == 6.0 * (b[1] - b[0])
    && (forall k :: 2 <= k < |u| ==> u[k] == Pivot(h[k - 1], h[k], u[k - 1]))
    && (forall k :: 2 <= k < |u| ==> v[k] == Rhs(h[k - 1], b[k - 1], b[k], v[k - 1], u[k - 1]))
    && z[0] == 0.0
    && (forall k :: 1 <= k < |u| ==> z[k] == Solve(v[k], h[k], z[k + 1], u[k]))
  }

  /** After the sweep and the back substitution, row i of the spline system holds. */
  lemma RowSolved(xs: seq<real>, ys: seq<real>, z: seq<real>, h: seq<real>, b: seq<real>, u: seq<real>, v: seq<real>, i: nat)
    requires Swept(xs, ys, z, h, b, u, v)
    requires 1 <= i < |xs| - 1
    ensures SplineRow(xs, ys, z, i)
  {
    var hp, hc := h[i - 1], h[i];
    assert hp == Width(xs, i - 1) && hc == Width(xs, i);
    assert b[i - 1] == Chord(xs, ys, i - 1) && b[i] == Chord(xs, ys, i);
    assert z[i] == Solve(v[i], hc, z[i + 1], u[i]);
    if i == 1 {
      FirstRow(h[0], h[1], z[1], z[2], b[0], b[1]);
    } else {
      assert u[i] == Pivot(hp, hc, u[i - 1]) && v[i] == Rhs(hp, b[i - 1], b[i], v[i - 1], u[i - 1]);
      assert z[i - 1] == Solve(v[i - 1], hp, z[i], u[i - 1]);
      SweepRow(hp, hc, u[i - 1], v[i - 1], z[i], z[i + 1], b[i - 1], b[i]);
    }
  }

  /** The value on segment i of the cubic with knots xs, ys and second derivatives z. */
  function CubicValue(xs: seq<real>, ys: seq<real>, z: seq<real>, i: nat, x: real): real
    requires i + 1 < |xs| && |ys| == |xs| && |z| == |xs| && Width(xs, i) != 0.0
  {
    var h := Width(xs, i);
    var tmp := (z[i] / 2.0) + (x - xs[i]) * (z[i + 1] - z[i]) / (6.0 * h);
    var tmp2 := -(h / 6.0) * (z[i + 1] + 2.0 * z[i]) + (ys[i + 1] - ys[i]) / h + (x - xs[i]) * tmp;
    ys[i] + (x - xs[i]) * tmp2
  }

  /** Each segment's cubic passes through both of its knots. */
  lemma CubicThroughKnots(xs: seq<real>, ys: seq<real>, z: seq<real>, i: nat)
    requires i + 1 < |xs| && |ys| == |xs| && |z| == |xs| && Width(xs, i) != 0.0
    ensures CubicValue(xs, ys, z, i, xs[i]) == ys[i]
    ensures CubicValue(xs, ys, z, i, xs[i + 1]) == ys[i + 1]
  {
    var h, dz, dy := Width(xs, i), z[i + 1] - z[i], ys[i + 1] - ys[i];
    assert xs[i + 1] - xs[i] == h;
    assert h * dz / (6.0 * h) == dz / 6.0;
    var tmp := z[i] / 2.0 + dz / 6.0;
    assert -(h / 6.0) * (z[i + 1] + 2.0 * z[i]) + h * tmp == 0.0;
    assert h * (dy / h) == dy;
  }

  /** With zero second derivatives at both ends, the segment is the straight chord. */
  lemma CubicWithoutCurvature(xs: seq<real>, ys: seq<real>, z: seq<real>, i: nat, x: real)
    requires i + 1 < |xs| && |ys| == |xs| && |z| == |xs| && Width(xs, i) != 0.0
    requires z[i] == 0.0 && z[i + 1] == 0.0
    ensures CubicValue(xs, ys, z, i, x) == Lerp(Point2D(xs[i], ys[i]), Point2D(xs[i + 1], ys[i + 1]), x)
  {
  }

  /** Segment i holds x in the closed sense the cubic evaluation loop tests. */
  predicate Closed(xs: seq<real>, i: int, x: real)
    requires 0 <= i < |xs| - 1
  {
    xs[i] <= x <= xs[i + 1]
  }

  /**
   * The segment the cubic evaluation uses for x: the first segment holding
   * x, or the last segment when none does (the for loop's final value).
   */
  predicate ChosenSegment(xs: seq<real>, x: real, i: int)
  {
    && 0 <= i < |xs| - 1
    && if exists j :: 0 <= j < |xs| - 1 && Closed(xs, j, x)
       then Closed(xs, i, x) && forall j :: 0 <= j < i ==> !Closed(xs, j, x)
       else i == |xs| - 2
  }

  /** At most one segment is the chosen one. */
  lemma ChosenSegmentUnique(xs: seq<real>, x: real, i: int, j: int)
    requires ChosenSegment(xs, x, i) && ChosenSegment(xs, x, j)
    ensures i == j
  {
  }

  class CubicSpline {
    var xs: seq<real>
    var ys: seq<real>
    var z: seq<real>

    ghost predicate Valid()
      reads this
    {
      |ys| == |xs| && |z| == |xs| && NonDecreasing(xs)
    }

    /** Sorts the points by x and starts with every second derivative at 0 (lines 133-137). */
    constructor (points: seq<Point2D>)
      ensures Valid()
      ensures |xs| == |points|
      ensures forall i :: 0 <= i < |xs| ==> Point2D(xs[i], ys[i]) == SortByX(points)[i]
      ensures forall i :: 0 <= i < |z| ==> z[i] == 0.0
    {
      var sorted := SortByX(points);
      xs := seq(|sorted|, i requires 0 <= i < |sorted| => sorted[i].x);
      ys := seq(|sorted|, i requires 0 <= i < |sorted| => sorted[i].y);
      z := seq(|sorted|, i => 0.0);
    }

    /** Widths and chord slopes of all intervals (lines 153-155); false at the first zero width. */
    static method Differences(X: seq<real>, Y: seq<real>, h: array<real>, b: array<real>) returns (ok: bool)
      requires |Y| == |X| && NonDecreasing(X) && h.Length == b.Length == |X| - 1 && h != b
      modifies h, b
      ensures ok <==> StrictlyIncreasing(X)
      ensures ok ==> forall k :: 0 <= k < h.Length ==> h[k] == Width(X, k) && h[k] > 0.0 && b[k] == Chord(X, Y, k)
    {
      var n := h.Length;
      var i := 0;
      while i < n
        invariant 0 <= i <= n
        invariant forall k :: 0 <= k < i ==> h[k] == Width(X, k) && h[k] > 0.0
        invariant forall k :: 0 <= k < i ==> b[k] == Chord(X, Y, k)
        invariant forall k, j :: 0 <= k < j <= i ==> X[k] < X[j]
      {
        h[i] := X[i + 1] - X[i];
        if h[i] == 0.0 {
          assert !(X[i] < X[i + 1]);
          return false;
        }
        b[i] := (Y[i + 1] - Y[i]) / h[i];
        i := i + 1;
      }
      ok := true;
    }

    /** The forward elimination of the tridiagonal system (lines 157-161); every pivot stays above its width. */
    static method Eliminate(h: array<real>, b: array<real>, u: array<real>, v: array<real>)
      requires h.Length == b.Length == u.Length == v.Length >= 2
      requires u != v && u != h && u != b && v != h && v != b
      requires forall k :: 0 <= k < h.Length ==> h[k] > 0.0
      modifies u, v
      ensures forall k :: 1 <= k < u.Length ==> u[k] > h[k]
      ensures u[1] == 2.0 * (h[0] + h[1]) && v[1] == 6.0 * (b[1] - b[0])
      ensures forall k :: 2 <= k < u.Length ==> u[k] == Pivot(h[k - 1], h[k], u[k - 1])
      ensures forall k :: 2 <= k < u.Length ==> v[k] == Rhs(h[k - 1], b[k - 1], b[k], v[k - 1], u[k - 1])
    {
      var n := u.Length;
      u[1] := 2.0 * (h[0] + h[1]);
      v[1] := 6.0 * (b[1] - b[0]);
      var i := 2;
      while i < n
        invariant 2 <= i <= n
        invariant forall k :: 1 <= k < i ==> u[k] > h[k]
        invariant u[1] == 2.0 * (h[0] + h[1]) && v[1] == 6.0 * (b[1] - b[0])
        invariant forall k :: 2 <= k < i ==> u[k] == Pivot(h[k - 1], h[k], u[k - 1])
        invariant forall k :: 2 <= k < i ==> v[k] == Rhs(h[k - 1], b[k - 1], b[k], v[k - 1], u[k - 1])
      {
        SweepStep(h, b, u, v, i);
        i := i + 1;
      }
    }

    /** Row i of the forward sweep, from row i - 1. */
    static method SweepStep(h: array<real>, b: array<real>, u: array<real>, v: array<real>, i: nat)
      requires h.Length == b.Length == u.Length == v.Length && 1 <= i < u.Length
      requires u != v && u != h && u != b && v != h && v != b
      requires h[i - 1] > 0.0 && h[i] > 0.0 && u[i - 1] > h[i - 1]
      modifies u, v
      ensures forall k :: 0 <= k < u.Length && k != i ==> u[k] == old(u[k]) && v[k] == old(v[k])
      ensures u[i - 1] == old(u[i - 1]) && u[i] > h[i]
      ensures u[i] == Pivot(h[i - 1], h[i], u[i - 1]) && v[i] == Rhs(h[i - 1], b[i - 1], b[i], v[i - 1], u[i - 1])
    {
      var hp, hc, up := h[i - 1], h[i], u[i - 1];
      PivotStaysPositive(hp, hc, up);
      u[i] := Pivot(hp, hc, up);
      v[i] := Rhs(hp, b[i - 1], b[i], v[i - 1], up);
    }

    /** Back substitution (lines 163-166): both ends pinned to 0, inner values solved from the right. */
    static method BackSubstitute(z0: seq<real>, h: array<real>, u: array<real>, v: array<real>) returns (Z: seq<real>)
      requires |z0| == h.Length + 1 && h.Length == u.Length == v.Length >= 2
      requires forall k :: 1 <= k < u.Length ==> u[k] > 0.0
      ensures |Z| == |z0| && Z[0] == 0.0 && Z[|Z| - 1] == 0.0
      ensures forall k :: 1 <= k < u.Length ==> Z[k] == Solve(v[k], h[k], Z[k + 1], u[k])
    {
      var n := h.Length;
      Z := z0[n := 0.0];
      var i := n - 1;
      while i > 0
        invariant 0 <= i <= n - 1
        invariant |Z| == n + 1 && Z[n] == 0.0
        invariant forall k :: i < k < n ==> Z[k] == Solve(v[k], h[k], Z[k + 1], u[k])
      {
        Z := Z[i := Solve(v[i], h[i], Z[i + 1], u[i])];
        i := i - 1;
      }
      Z := Z[0 := 0.0];
    }

    /**
     * Solves for the second derivatives (`_fit`). With fewer than three
     * points nothing changes. A repeated x makes a width zero and the first
     * division by it raises ZeroDivisionError before z is touched.
     * Otherwise z[0] and z[n] are 0 (natural boundary) and every inner
     * knot satisfies its row of the spline system.
     */
    method Fit() returns (o: Outcome)
      requires Valid()
      modifies this
      ensures Valid() && xs == old(xs) && ys == old(ys)
      ensures |xs| < 3 ==> o == Done && z == old(z)
      ensures o.Raised? ==> o.fault == ZeroDivisionError && z == old(z)
      ensures |xs| >= 3 ==> (o.Raised? <==> !StrictlyIncreasing(xs))
      ensures |xs| >= 3 && o == Done ==>
                z[0] == 0.0 && z[|xs| - 1] == 0.0 &&
                forall i :: 1 <= i < |xs| - 1 ==> SplineRow(xs, ys, z, i)
    {
      var n := |xs| - 1;
      if n < 2 {
        return Done;
      }
      var X, Y := xs, ys;
      var h := new real[n];
      var b := new real[n];
      var u := new real[n];
      var v := new real[n];
      var ok := Differences(X, Y, h, b);
      if !ok {
        return Raised(ZeroDivisionError);
      }
      Eliminate(h, b, u, v);
      var Z := BackSubstitute(z, h, u, v);
      forall k | 1 <= k < n
        ensures SplineRow(X, Y, Z, k)
      {
        RowSolved(X, Y, Z, h[..], b[..], u[..], v[..], k);
      }
      z := Z;
      o := Done;
    }

    /** `__init__` as a whole: the fitted spline, or ZeroDivisionError when three or more points repeat an x. */
    static method Create(points: seq<Point2D>) returns (r: Result<CubicSpline>)
      ensures r.Err? ==> r.fault == ZeroDivisionError && |points| >= 3
      ensures r.Ok? ==> fresh(r.value) && r.value.Valid() && |r.value.xs| == |points|
                        && (forall i :: 0 <= i < |points| ==> Point2D(r.value.xs[i], r.value.ys[i]) == SortByX(points)[i])
      ensures |points| >= 3 ==> (r.Ok? <==> StrictlyIncreasing(seq(|points|, i requires 0 <= i < |points| => SortByX(points)[i].x)))
      ensures r.Ok? && |points| >= 3 ==>
                StrictlyIncreasing(r.value.xs) && r.value.z[0] == 0.0 && r.value.z[|points| - 1] == 0.0
                && forall i :: 1 <= i < |points| - 1 ==> SplineRow(r.value.xs, r.value.ys, r.value.z, i)
    {
      var spline := new CubicSpline(points);
      assert spline.xs == seq(|points|, i requires 0 <= i < |points| => SortByX(points)[i].x);
      var o := spline.Fit();
      if o.Raised? {
        return Err(o.fault);
      }
      r := Ok(spline);
    }

    /**
     * Picks the segment the evaluation uses: the first i with
     * xs[i] <= x <= xs[i+1], or the last segment when none holds x, since
     * the loop variable keeps its final value (lines 176-179).
     */
    method FindSegment(x: real) returns (i: nat)
      requires Valid() && |xs| >= 2
      ensures i < |xs| - 1 && ChosenSegment(xs, x, i)
      ensures (exists j :: 0 <= j < |xs| - 1 && Closed(xs, j, x)) ==>
                Closed(xs, i, x) && forall j :: 0 <= j < i ==> !Closed(xs, j, x)
      ensures (forall j :: 0 <= j < |xs| - 1 ==> !Closed(xs, j, x)) ==> i == |xs| - 2
    {
      i := 0;
      while i < |xs| - 2 && !(xs[i] <= x <= xs[i + 1])
        invariant 0 <= i <= |xs| - 2
        invariant forall j :: 0 <= j < i ==> !Closed(xs, j, x)
      {
        i := i + 1;
      }
      if !Closed(xs, i, x) {
        assert forall j :: 0 <= j < |xs| - 1 ==> !Closed(xs, j, x);
      }
    }

    /**
     * The spline's value at x (no clamping). Fewer than two points raise
     * IndexError; a zero-width chosen segment raises ZeroDivisionError.
     * For strictly increasing knots, the value at a knot is that knot's y.
     */
    method Evaluate(x: real) returns (r: Result<real>)
      requires Valid()
      ensures |xs| < 2 <==> r == Err(IndexError)
      ensures r.Err? ==> r.fault in {IndexError, ZeroDivisionError}
      ensures StrictlyIncreasing(xs) && |xs| >= 2 ==> r.Ok?
      ensures |xs| >= 2 ==> forall i :: ChosenSegment(xs, x, i) ==>
                r == if Width(xs, i) == 0.0 then Err(ZeroDivisionError) else Ok(CubicValue(xs, ys, z, i, x))
      ensures |xs| >= 2 && StrictlyIncreasing(xs) ==> forall k :: 0 <= k < |xs| && x == xs[k] ==> r == Ok(ys[k])
    {
      if |xs| < 2 {
        return Err(IndexError);
      }
      var i := FindSegment(x);
      var h := xs[i + 1] - xs[i];
      if h == 0.0 {
        assert !StrictlyIncreasing(xs);
        forall j | ChosenSegment(xs, x, j)
          ensures j == i
        {
          ChosenSegmentUnique(xs, x, i, j);
        }
        return Err(ZeroDivisionError);
      }
      r := Ok(CubicValue(xs, ys, z, i, x));
      forall j | ChosenSegment(xs, x, j)
        ensures j == i
      {
        ChosenSegmentUnique(xs, x, i, j);
      }
      if StrictlyIncreasing(xs) {
        forall k | 0 <= k < |xs| && x == xs[k]
          ensures r == Ok(ys[k])
        {
          CubicThroughKnots(xs, ys, z, i);
          if k < |xs| - 1 {
            assert Closed(xs, k, x);
          } else {
            assert Closed(xs, k - 1, x);
          }
          assert Closed(xs, i, x);
          assert xs[i] == x || xs[i + 1] == x;
        }
      }
    }
  }

  // ---------------------------------------------------------------------
  // CubicBezierSpline (gremlin/spline.py:190-294)

  /** The point of the cubic Bézier curve p0..p3 at parameter t (Bernstein form). */
  function ValueAtT(p0: Point2D, p1: Point2D, p2: Point2D, p3: Point2D, t: real): (r: Point2D)
    ensures t == 0.0 ==> r == p0
    ensures t == 1.0 ==> r == p3
  {
    var t2 := t * t;
    var t3 := t2 * t;
    var mt := 1.0 - t;
    var mt2 := mt * mt;
    var mt3 := mt2 * mt;
    Point2D(
      p0.x * mt3 + 3.0 * p1.x * mt2 * t + 3.0 * p2.x * mt * t2 + p3.x * t3,
      p0.y * mt3 + 3.0 * p1.y * mt2 * t + 3.0 * p2.y * mt * t2 + p3.y * t3)
  }

  /** One lookup entry: the parameter t and the curve point there. */
  datatype Sample = Sample(t: real, point: Point2D)

  /** `points[::3]`. */
  function EveryThird(ps: seq<Point2D>): (r: seq<Point2D>)
    ensures |r| == (|ps| + 2) / 3
    ensures forall k :: 0 <= k < |r| ==> r[k] == ps[3 * k]
    decreases |ps|
  {
    if |ps| == 0 then [] else if |ps| <= 3 then [ps[0]] else [ps[0]] + EveryThird(ps[3..])
  }

  /** Number of segments when the assertion of line 210 holds: int((len-4)/3) + 1. */
  function SegmentCount(len: nat): nat
    requires (len - 4) % 3 == 0
  {
    if len < 4 then 0 else (len - 4) / 3 + 1
  }

  /** Entry j of segment s's table. */
  function Entry(xs: seq<real>, ys: seq<real>, s: nat, j: nat): Sample
    requires |xs| == |ys| && 3 * s + 3 < |xs|
  {
    var o := 3 * s;
    Sample(j as real / 100.0,
           ValueAtT(Point2D(xs[o], ys[o]), Point2D(xs[o + 1], ys[o + 1]),
                    Point2D(xs[o + 2], ys[o + 2]), Point2D(xs[o + 3], ys[o + 3]), j as real / 100.0))
  }

  /** The table's points are ordered by x, as the binary search assumes. */
  predicate TableOrdered(table: seq<Sample>)
  {
    forall i, j :: 0 <= i < j < |table| ==> table[i].point.x <= table[j].point.x
  }

  /** Entries lo and hi = lo + 1 hold x: lo is the start or lies left of x, and x is not right of hi. */
  predicate TableBracket(table: seq<Sample>, lo: int, x: real)
  {
    0 <= lo && lo + 1 < |table| && (lo == 0 || table[lo].point.x < x) && x <= table[lo + 1].point.x
  }

  /** Segment s of `xs` holds x: its first and last control points enclose x. */
  predicate SegmentHolds(xs: seq<real>, s: int, x: real)
  {
    0 <= s && 3 * s + 3 < |xs| && xs[3 * s] <= x <= xs[3 * s + 3]
  }

  /** What the evaluation makes of one table: the line through the bracketing entries, or the fault it meets. */
  ghost predicate EvaluatedIn(table: seq<Sample>, x: real, r: Result<real>)
    requires |table| == 101
  {
    (r.Ok? ==> exists lo :: TableBracket(table, lo, x)
                 && table[lo].point.x != table[lo + 1].point.x
                 && r.value == Lerp(table[lo].point, table[lo + 1].point, x))
    && (r.Err? ==> r.fault in {IndexError, ZeroDivisionError})
    && (r == Err(IndexError) ==> table[100].point.x < x)
    && (TableOrdered(table) && table[100].point.x < x ==> r == Err(IndexError))
  }

  class CubicBezierSpline {
    var xs: seq<real>
    var ys: seq<real>
    var knots: seq<Point2D>
    var lookup: seq<seq<Sample>>

    ghost predicate Valid()
      reads this
    {
      |xs| == |ys| && |knots| == (|xs| + 2) / 3
      && (forall k :: 0 <= k < |knots| ==> knots[k] == Point2D(xs[3 * k], ys[3 * k]))
    }

    /** The state `__init__` leaves when the lookup generation succeeds: one full table per segment. */
    ghost predicate Ready()
      reads this
    {
      Valid() && (|xs| - 4) % 3 == 0 && |lookup| == SegmentCount(|xs|)
      && forall s :: 0 <= s < |lookup| ==> |lookup[s]| == 101
    }

    /** Splits the points into x and y lists and keeps every third one as a knot (lines 199-204). */
    constructor (points: seq<Point2D>)
      ensures Valid() && lookup == []
      ensures |xs| == |points|
      ensures forall i :: 0 <= i < |points| ==> Point2D(xs[i], ys[i]) == points[i]
      ensures knots == EveryThird(points)
    {
      xs := seq(|points|, i requires 0 <= i < |points| => points[i].x);
      ys := seq(|points|, i requires 0 <= i < |points| => points[i].y);
      knots := EveryThird(points);
      lookup := [];
    }

    /**
     * Appends one 101-entry table per segment, entry j holding t = j/100
     * and the curve point there. A point count that is not 3k+4 (nor 1)
     * fails the assertion and nothing changes.
     */
    method GenerateLookup() returns (o: Outcome)
      requires Valid()
      modifies this
      ensures Valid() && xs == old(xs) && ys == old(ys) && knots == old(knots)
      ensures o.Raised? <==> (|xs| - 4) % 3 != 0
      ensures o.Raised? ==> o.fault == AssertionError && lookup == old(lookup)
      ensures o == Done ==>
                |lookup| == |old(lookup)| + SegmentCount(|xs|)
                && lookup[..|old(lookup)|] == old(lookup)
                && forall s :: |old(lookup)| <= s < |lookup| ==>
                     |lookup[s]| == 101
                     && forall j :: 0 <= j < 101 ==> lookup[s][j] == Entry(xs, ys, s - |old(lookup)|, j)
      ensures o == Done && old(lookup) == [] ==> Ready()
    {
      if (|xs| - 4) % 3 != 0 {
        return Raised(AssertionError);
      }
      var count := SegmentCount(|xs|);
      var base := |lookup|;
      var s := 0;
      while s < count
        invariant 0 <= s <= count
        invariant Valid() && xs == old(xs) && ys == old(ys) && knots == old(knots)
        invariant |lookup| == base + s && lookup[..base] == old(lookup)
        invariant forall q :: base <= q < |lookup| ==>
                    |lookup[q]| == 101 && forall j :: 0 <= j < 101 ==> lookup[q][j] == Entry(xs, ys, q - base, j)
      {
        assert 3 * s + 3 < |xs|;
        var table := SegmentTable(xs, ys, s);
        lookup := lookup + [table];
        s := s + 1;
      }
      o := Done;
    }

    /** The 101 samples of segment s, at t = 0, 0.01, ..., 1. */
    static method SegmentTable(xs: seq<real>, ys: seq<real>, s: nat) returns (table: seq<Sample>)
      requires |xs| == |ys| && 3 * s + 3 < |xs|
      ensures |table| == 101
      ensures forall k :: 0 <= k < 101 ==> table[k] == Entry(xs, ys, s, k)
    {
      var offset := s * 3;
      var p0 := Point2D(xs[offset], ys[offset]);
      var p1 := Point2D(xs[offset + 1], ys[offset + 1]);
      var p2 := Point2D(xs[offset + 2], ys[offset + 2]);
      var p3 := Point2D(xs[offset + 3], ys[offset + 3]);
      table := [];
      var j := 0;
      while j < 101
        invariant 0 <= j <= 101 && |table| == j
        invariant forall k :: 0 <= k < j ==> table[k] == Entry(xs, ys, s, k)
      {
        var t := j as real / 100.0;
        table := table + [Sample(t, ValueAtT(p0, p1, p2, p3, t))];
        j := j + 1;
      }
    }

    /** `__init__` as a whole: the curve, or AssertionError for a point count other than 3k+4 or 1. */
    static method Create(points: seq<Point2D>) returns (r: Result<CubicBezierSpline>)
      ensures r.Err? <==> (|points| - 4) % 3 != 0
      ensures r.Err? ==> r.fault == AssertionError
      ensures r.Ok? ==> fresh(r.value) && r.value.Ready() && r.value.knots == EveryThird(points)
                        && forall i :: 0 <= i < |points| ==> Point2D(r.value.xs[i], r.value.ys[i]) == points[i]
    {
      var curve := new CubicBezierSpline(points);
      var o := curve.GenerateLookup();
      if o.Raised? {
        return Err(o.fault);
      }
      r := Ok(curve);
    }

    /** Which segment's table serves x (lines 263-274). */
    ghost predicate IsSegmentFor(x: real, idx: int)
      reads this
      requires Valid() && |knots| > 0
    {
      if knots[0].x > x then idx == 0
      else if knots[|knots| - 1].x <= x then idx == |lookup| - 1
      else
        ((exists i :: SegmentHolds(xs, i, x)) ==>
           SegmentHolds(xs, idx, x) && forall i :: 0 <= i < idx ==> !SegmentHolds(xs, i, x))
        && ((forall i :: !SegmentHolds(xs, i, x)) ==> idx == 0)
    }

    /** The segment scan: 0 below the first knot, the last table at or beyond the last knot, else the first segment holding x. */
    method SelectSegment(x: real) returns (idx: int)
      requires Ready() && |lookup| > 0
      ensures 0 <= idx < |lookup|
      ensures IsSegmentFor(x, idx)
    {
      if knots[0].x > x {
        return 0;
      } else if knots[|knots| - 1].x <= x {
        return |lookup| - 1;
      }
      var count := (|xs| - 4) / 3 + 1;
      var i := 0;
      while i < count
        invariant 0 <= i <= count
        invariant forall q :: 0 <= q < i ==> !SegmentHolds(xs, q, x)
      {
        var offset := i * 3;
        if xs[offset] <= x <= xs[offset + 3] {
          assert SegmentHolds(xs, i, x);
          return i;
        }
        i := i + 1;
      }
      forall q | SegmentHolds(xs, q, x) ensures q < count { }
      idx := 0;
    }

    /**
     * The binary search over one 101-entry table (lines 277-289). It keeps
     * lo < hi and stops at width 1. Unless hi reached 101 (past the
     * table), entries lo and hi bracket x; hi reaches 101 only when the
     * last entry lies left of x.
     */
    static method SearchTable(table: seq<Sample>, x: real) returns (lo: nat, hi: nat)
      requires |table| == 101
      ensures hi == lo + 1 && hi <= 101
      ensures hi == 101 ==> table[100].point.x < x
      ensures hi < 101 ==> TableBracket(table, lo, x)
      ensures TableOrdered(table) && table[100].point.x < x ==> hi == 101
    {
      lo, hi := 0, |table|;
      while hi - lo != 1
        invariant 0 <= lo < hi <= 101
        invariant lo > 0 ==> table[lo].point.x < x
        invariant hi < 101 ==> x <= table[hi].point.x
        invariant TableOrdered(table) && table[100].point.x < x ==> hi == 101
        decreases hi - lo
      {
        var center := lo + (hi - lo) / 2;
        if table[center].point.x < x {
          lo := center;
        } else {
          hi := center;
        }
      }
    }

    /**
     * The curve's value at x clamped into [-1, 1]: the chosen segment's
     * table is searched and the two bracketing entries are joined by a
     * line. IndexError when there are no tables or the search runs past
     * the table's end; ZeroDivisionError when the two entries share x.
     */
    method Evaluate(x: real) returns (r: Result<real>)
      requires Ready()
      ensures |lookup| == 0 ==> r == Err(IndexError)
      ensures |lookup| > 0 ==> exists idx :: 0 <= idx < |lookup| && IsSegmentFor(Clamp(x, -1.0, 1.0), idx)
                                               && EvaluatedIn(lookup[idx], Clamp(x, -1.0, 1.0), r)
    {
      var cx := Clamp(x, -1.0, 1.0);
      if |lookup| == 0 {
        return Err(IndexError);
      }
      var idx := SelectSegment(cx);
      var lo, hi := SearchTable(lookup[idx], cx);
      if hi == 101 {
        r := Err(IndexError);
      } else {
        var low := lookup[idx][lo].point;
        var high := lookup[idx][hi].point;
        if high.x == low.x {
          r := Err(ZeroDivisionError);
        } else {
          r := Ok(low.y + (cx - low.x) * ((high.y - low.y) / (high.x - low.x)));
          assert r.value == Lerp(low, high, cx);
        }
      }
      assert EvaluatedIn(lookup[idx], cx, r);
    }
  }
}
