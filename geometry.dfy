/**
 * Polyline geometry of the challenge path (backend/path.py): arc length,
 * projection of a cursor onto the path, arc-length windows and distances.
 *
 * Coordinates are reals. Euclidean length (math.hypot, or `** 0.5` of a sum of
 * squares) is the parameter `hypot`, of which the model only uses what
 * `IsHypot` states: it is never negative and the zero displacement has length 0.
 */
module Geometry {

  datatype Point = Point(x: real, y: real)

  ghost predicate IsHypot(hypot: (real, real) -> real)
  {
    hypot(0.0, 0.0) == 0.0 && forall dx: real, dy: real :: hypot(dx, dy) >= 0.0
  }

  /** Length of the displacement from `p` to `q`. */
  function Dist(hypot: (real, real) -> real, p: Point, q: Point): real
  {
    hypot(q.x - p.x, q.y - p.y)
  }

  lemma DistSelf(hypot: (real, real) -> real, p: Point)
    requires IsHypot(hypot)
    ensures Dist(hypot, p, p) == 0.0
  {
    assert p.x - p.x == 0.0 && p.y - p.y == 0.0;
  }

  function Same(v: real): real { v }

  /**
   * `v * v`. The second factor is written `Same(v)` because the verifier's
   * nonlinear arithmetic handles a product of two distinct terms more readily
   * than a literal square.
   */
  function Sq(v: real): real { v * Same(v) }

  lemma SqNonNegative(v: real)
    ensures Sq(v) >= 0.0
  {
  }

  lemma SqPositive(v: real)
    requires v != 0.0
    ensures Sq(v) > 0.0
  {
  }

  function Max(a: real, b: real): real { if a >= b then a else b }

  function Min(a: real, b: real): real { if a <= b then a else b }

  /** `max(0.0, min(1.0, v))` */
  function Clamp01(v: real): (r: real)
    ensures 0.0 <= r <= 1.0
    ensures 0.0 <= v <= 1.0 ==> r == v
  {
    Max(0.0, Min(1.0, v))
  }

  /** A distance that may be `float("inf")`. */
  datatype Extended = Finite(value: real) | Infinity

  /** `d < e` */
  predicate Below(d: real, e: Extended)
  {
    e.Infinity? || d < e.value
  }

  /** `e <= bound`; infinity is never within a finite bound. */
  predicate AtMost(e: Extended, bound: real)
  {
    e.Finite? && e.value <= bound
  }

  // ---------------------------------------------------------------------------
  // _bezier_point, _interp

  /** Point at parameter `t` of the cubic Bezier curve with control points p0..p3. */
  function BezierPoint(t: real, p0: Point, p1: Point, p2: Point, p3: Point): (r: Point)
    ensures t == 0.0 ==> r == p0
    ensures t == 1.0 ==> r == p3
  {
    var u := 1.0 - t;
    var tt := t * t;
    var uu := u * u;
    var uuu := uu * u;
    var ttt := tt * t;
    Point(uuu * p0.x + 3.0 * uu * t * p1.x + 3.0 * u * tt * p2.x + ttt * p3.x,
          uuu * p0.y + 3.0 * uu * t * p1.y + 3.0 * u * tt * p2.y + ttt * p3.y)
  }

  /** Linear interpolation from `p1` (alpha 0) to `p2` (alpha 1). */
  function Interp(p1: Point, p2: Point, alpha: real): (r: Point)
    ensures alpha == 0.0 ==> r == p1
    ensures alpha == 1.0 ==> r == p2
  {
    Point(p1.x + (p2.x - p1.x) * alpha, p1.y + (p2.y - p1.y) * alpha)
  }

  // ---------------------------------------------------------------------------
  // _approx_length

  /** Arc length of the first `n` points of `pts` (0 for fewer than two). */
  function LengthUpTo(hypot: (real, real) -> real, pts: seq<Point>, n: nat): (len: real)
    requires IsHypot(hypot)
    requires n <= |pts| || n <= 1
    ensures len >= 0.0
  {
    if n <= 1 then 0.0
    else LengthUpTo(hypot, pts, n - 1) + Dist(hypot, pts[n - 2], pts[n - 1])
  }

  /** Arc length of the whole polyline. */
  function PolylineLength(hypot: (real, real) -> real, pts: seq<Point>): (len: real)
    requires IsHypot(hypot)
    ensures len >= 0.0
  {
    LengthUpTo(hypot, pts, |pts|)
  }

  lemma {:induction false} LengthUpToMonotone(hypot: (real, real) -> real, pts: seq<Point>, m: nat, n: nat)
    requires IsHypot(hypot)
    requires m <= n && (n <= |pts| || n <= 1)
    ensures LengthUpTo(hypot, pts, m) <= LengthUpTo(hypot, pts, n)
  {
    if m < n {
      LengthUpToMonotone(hypot, pts, m, n - 1);
    }
  }

  /** `_approx_length`: sums the segment lengths in one pass. */
  method ApproxLength(hypot: (real, real) -> real, points: seq<Point>) returns (length: real)
    requires IsHypot(hypot)
    ensures length == PolylineLength(hypot, points)
  {
    length := 0.0;
    var i := 1;
    while i < |points|
      invariant 1 <= i && (i <= |points| || i == 1)
      invariant length == LengthUpTo(hypot, points, i)
    {
      var dx := points[i].x - points[i - 1].x;
      var dy := points[i].y - points[i - 1].y;
      length := length + hypot(dx, dy);
      i := i + 1;
    }
  }

  // ---------------------------------------------------------------------------
  // _cumulative_lengths

  /** The cumulative-length list after the loop has seen the first `n` points. */
  function CumulativeUpTo(hypot: (real, real) -> real, pts: seq<Point>, n: nat): (cums: seq<real>)
    requires IsHypot(hypot)
    requires 1 <= n && (n <= |pts| || n == 1)
    ensures |cums| == n && cums[0] == 0.0
    ensures forall k :: 0 <= k < n ==> cums[k] == LengthUpTo(hypot, pts, k + 1)
  {
    if n == 1 then [0.0]
    else
      var c := CumulativeUpTo(hypot, pts, n - 1);
      c + [c[n - 2] + Dist(hypot, pts[n - 2], pts[n - 1])]
  }

  /**
   * `_cumulative_lengths`: one entry per point (a single 0 for an empty list),
   * entry k being the arc length from the first point to point k.
   */
  function Cumulative(hypot: (real, real) -> real, pts: seq<Point>): (cums: seq<real>)
    requires IsHypot(hypot)
    ensures |cums| == (if |pts| == 0 then 1 else |pts|)
    ensures cums[0] == 0.0
    ensures cums[|cums| - 1] == PolylineLength(hypot, pts)
    ensures forall k :: 0 <= k < |cums| ==> cums[k] == LengthUpTo(hypot, pts, k + 1)
  {
    CumulativeUpTo(hypot, pts, if |pts| == 0 then 1 else |pts|)
  }

  /** The cumulative lengths never decrease along the path. */
  lemma CumulativeNonDecreasing(hypot: (real, real) -> real, pts: seq<Point>, i: nat, j: nat)
    requires IsHypot(hypot)
    requires i <= j < |Cumulative(hypot, pts)|
    ensures Cumulative(hypot, pts)[i] <= Cumulative(hypot, pts)[j]
  {
    LengthUpToMonotone(hypot, pts, i + 1, j + 1);
  }

  /** Consecutive cumulative lengths differ by the length of the segment between them. */
  lemma CumulativeStep(hypot: (real, real) -> real, pts: seq<Point>, i: nat)
    requires IsHypot(hypot)
    requires 1 <= i < |pts|
    ensures Cumulative(hypot, pts)[i] == Cumulative(hypot, pts)[i - 1] + Dist(hypot, pts[i - 1], pts[i])
  {
  }

  method CumulativeLengths(hypot: (real, real) -> real, points: seq<Point>) returns (cums: seq<real>)
    requires IsHypot(hypot)
    ensures cums == Cumulative(hypot, points)
  {
    cums := [0.0];
    var i := 1;
    while i < |points|
      invariant 1 <= i && (i <= |points| || i == 1)
      invariant cums == CumulativeUpTo(hypot, points, i)
    {
      var dx := points[i].x - points[i - 1].x;
      var dy := points[i].y - points[i - 1].y;
      cums := cums + [cums[|cums| - 1] + hypot(dx, dy)];
      i := i + 1;
    }
  }

  // ---------------------------------------------------------------------------
  // _nearest_position

  /** Clamped projection parameter of `c` on segment a-b, and the projected point. */
  datatype Projection = Projection(t: real, foot: Point)

  /**
   * Unclamped projection parameter of `c` on segment a-b: the dot product of
   * c - a with b - a over the squared segment length, 0 for a zero-length segment.
   */
  function ProjectionRatio(a: Point, b: Point, c: Point): real
  {
    var dx := b.x - a.x;
    var dy := b.y - a.y;
    var segLenSq := Sq(dx) + Sq(dy);
    if segLenSq == 0.0 then 0.0 else ((c.x - a.x) * dx + (c.y - a.y) * dy) / segLenSq
  }

  /** The ratio is 0 for a zero-length segment and at `a`, and 1 at `b` otherwise. */
  lemma ProjectionRatioAtEnds(a: Point, b: Point, c: Point)
    ensures a == b || c == a ==> ProjectionRatio(a, b, c) == 0.0
    ensures a != b && c == b ==> ProjectionRatio(a, b, c) == 1.0
  {
    var dx := b.x - a.x;
    var dy := b.y - a.y;
    var segLenSq := Sq(dx) + Sq(dy);
    SqSumZero(dx, dy);
    if segLenSq != 0.0 {
      var dot := (c.x - a.x) * dx + (c.y - a.y) * dy;
      DotAtEnds(a, b, c);
      DivSelf(segLenSq);
      assert a != b;
      assert c == a ==> dot == 0.0 && dot / segLenSq == 0.0;
      assert c == b ==> dot == segLenSq && dot / segLenSq == 1.0;
    }
  }

  /** The dot product of c - a with b - a: 0 at c = a, the squared length at c = b. */
  lemma DotAtEnds(a: Point, b: Point, c: Point)
    ensures c == a ==> (c.x - a.x) * (b.x - a.x) + (c.y - a.y) * (b.y - a.y) == 0.0
    ensures c == b ==> (c.x - a.x) * (b.x - a.x) + (c.y - a.y) * (b.y - a.y) == Sq(b.x - a.x) + Sq(b.y - a.y)
  {
    var dx, dy := b.x - a.x, b.y - a.y;
    var ex, ey := c.x - a.x, c.y - a.y;
    if c == a {
      assert ex == 0.0 && ey == 0.0;
      assert ex * dx == 0.0 && ey * dy == 0.0;
    }
    if c == b {
      assert ex == dx && ey == dy;
      assert Same(dx) == dx && Same(dy) == dy;
      assert ex * dx == Sq(dx) && ey * dy == Sq(dy);
    }
  }

  lemma DivSelf(v: real)
    requires v != 0.0
    ensures v / v == 1.0
  {
  }

  /** A sum of two squares is 0 exactly when both terms are. */
  lemma SqSumZero(dx: real, dy: real)
    ensures Sq(dx) + Sq(dy) == 0.0 <==> dx == 0.0 && dy == 0.0
  {
    SqNonNegative(dx);
    SqNonNegative(dy);
    if dx != 0.0 {
      SqPositive(dx);
    }
    if dy != 0.0 {
      SqPositive(dy);
    }
  }

  function ProjectOntoSegment(a: Point, b: Point, c: Point): (pr: Projection)
    ensures 0.0 <= pr.t <= 1.0
    ensures pr.foot == Interp(a, b, pr.t)
  {
    var t := Clamp01(ProjectionRatio(a, b, c));
    Projection(t, Interp(a, b, t))
  }

  /** What segment i (from pts[i-1] to pts[i]) offers for `cursor`: distance, arc position, point. */
  datatype Candidate = Candidate(dist: real, pos: real, point: Point)

  /** The candidate of segment i; its arc position lies on that segment. */
  function SegmentCandidate(hypot: (real, real) -> real, pts: seq<Point>, cums: seq<real>, cursor: Point, i: nat): (c: Candidate)
    requires IsHypot(hypot)
    requires 1 <= i < |pts| && |cums| == |pts|
    ensures c.dist >= 0.0
    ensures cums[i - 1] <= c.pos <= cums[i - 1] + Dist(hypot, pts[i - 1], pts[i])
  {
    var pr := ProjectOntoSegment(pts[i - 1], pts[i], cursor);
    Candidate(Dist(hypot, pr.foot, cursor), cums[i - 1] + Along(pr.t, Dist(hypot, pts[i - 1], pts[i])), pr.foot)
  }

  /** The fraction `t` of a length `d`: `t * d`, within [0, d] for t in [0, 1]. */
  function Along(t: real, d: real): (r: real)
    requires 0.0 <= t <= 1.0 && 0.0 <= d
    ensures 0.0 <= r <= d
  {
    t * d
  }

  /** The candidates of all segments in path order; entry k belongs to segment k + 1. */
  function Candidates(hypot: (real, real) -> real, pts: seq<Point>, cums: seq<real>, cursor: Point): (cs: seq<Candidate>)
    requires IsHypot(hypot)
    requires |pts| >= 1 && |cums| == |pts|
    ensures |cs| == |pts| - 1
  {
    seq(|pts| - 1, k requires 0 <= k < |pts| - 1 => SegmentCandidate(hypot, pts, cums, cursor, k + 1))
  }

  /** The best candidate so far: distance, arc position, point and segment number (0: none yet). */
  datatype Closest = Closest(dist: Extended, pos: real, point: Point, seg: nat)

  /** The loop of `_nearest_position` after the first n candidates. */
  function ClosestUpTo(cands: seq<Candidate>, start: Point, n: nat): (c: Closest)
    requires n <= |cands|
    ensures c.dist.Infinity? <==> n == 0
    ensures c.dist.Finite? ==> 1 <= c.seg <= n
  {
    if n == 0 then Closest(Infinity, 0.0, start, 0)
    else
      var best := ClosestUpTo(cands, start, n - 1);
      var cand := cands[n - 1];
      if Below(cand.dist, best.dist) then Closest(Finite(cand.dist), cand.pos, cand.point, n) else best
  }

  /**
   * The kept candidate is the one of its own segment, at least as close as every
   * candidate seen, and strictly closer than every earlier one (the first of
   * equally close segments wins); with no candidate it is the start point at
   * position 0.
   */
  lemma {:induction false} ClosestUpToIsArgmin(cands: seq<Candidate>, start: Point, n: nat)
    requires n <= |cands|
    ensures var c := ClosestUpTo(cands, start, n);
            c.dist.Infinity? ==> c == Closest(Infinity, 0.0, start, 0)
    ensures var c := ClosestUpTo(cands, start, n);
            c.dist.Finite? ==>
              c == Closest(Finite(cands[c.seg - 1].dist), cands[c.seg - 1].pos, cands[c.seg - 1].point, c.seg)
    ensures var c := ClosestUpTo(cands, start, n);
            forall j :: 0 <= j < n ==> c.dist.Finite? && c.dist.value <= cands[j].dist
    ensures var c := ClosestUpTo(cands, start, n);
            forall j :: 0 <= j < c.seg - 1 ==> c.dist.Finite? && c.dist.value < cands[j].dist
  {
    if n > 0 {
      ClosestUpToIsArgmin(cands, start, n - 1);
    }
  }

  /**
   * `_nearest_position`: the closest projection of `cursor` onto the path, the
   * earliest segment winning ties; a single-point path yields position 0 at its
   * only point.
   */
  function ClosestOnPath(hypot: (real, real) -> real, pts: seq<Point>, cums: seq<real>, cursor: Point): (c: Closest)
    requires IsHypot(hypot)
    requires |pts| >= 1 && |cums| == |pts|
    ensures |pts| == 1 ==> c.pos == 0.0 && c.point == pts[0]
    ensures |pts| >= 2 ==> c.dist.Finite? && 1 <= c.seg < |pts|
  {
    ClosestUpTo(Candidates(hypot, pts, cums, cursor), pts[0], |pts| - 1)
  }

  /** The result of `_nearest_position` is the candidate of its own segment. */
  lemma ClosestOnPathIsCandidate(hypot: (real, real) -> real, pts: seq<Point>, cums: seq<real>, cursor: Point)
    requires IsHypot(hypot)
    requires |cums| == |pts| && |pts| >= 2
    ensures var c := ClosestOnPath(hypot, pts, cums, cursor);
            var own := SegmentCandidate(hypot, pts, cums, cursor, c.seg);
            c.dist == Finite(own.dist) && c.pos == own.pos && c.point == own.point
  {
    var c := ClosestOnPath(hypot, pts, cums, cursor);
    var cands := Candidates(hypot, pts, cums, cursor);
    ClosestUpToIsArgmin(cands, pts[0], |pts| - 1);
    assert cands[c.seg - 1] == SegmentCandidate(hypot, pts, cums, cursor, c.seg);
  }

  /**
   * No segment offers a candidate closer to the cursor than the result of
   * `_nearest_position`, and every segment before the chosen one offers a
   * strictly farther one.
   */
  lemma ClosestOnPathIsNearest(hypot: (real, real) -> real, pts: seq<Point>, cums: seq<real>, cursor: Point, j: nat)
    requires IsHypot(hypot)
    requires |cums| == |pts| && 1 <= j < |pts|
    ensures var c := ClosestOnPath(hypot, pts, cums, cursor);
            c.dist.value <= SegmentCandidate(hypot, pts, cums, cursor, j).dist
    ensures var c := ClosestOnPath(hypot, pts, cums, cursor);
            j < c.seg ==> c.dist.value < SegmentCandidate(hypot, pts, cums, cursor, j).dist
  {
    var cands := Candidates(hypot, pts, cums, cursor);
    ClosestUpToIsArgmin(cands, pts[0], |pts| - 1);
    assert cands[j - 1] == SegmentCandidate(hypot, pts, cums, cursor, j);
  }

  /** On the path's own cumulative lengths, the projected arc position lies in [0, total]. */
  lemma NearestPositionInRange(hypot: (real, real) -> real, pts: seq<Point>, cursor: Point)
    requires IsHypot(hypot) && |pts| >= 1
    ensures var cums := Cumulative(hypot, pts);
            0.0 <= ClosestOnPath(hypot, pts, cums, cursor).pos <= cums[|cums| - 1]
  {
    var cums := Cumulative(hypot, pts);
    var c := ClosestOnPath(hypot, pts, cums, cursor);
    if |pts| >= 2 {
      var k := c.seg;
      ClosestOnPathIsCandidate(hypot, pts, cums, cursor);
      assert cums[k - 1] <= c.pos <= cums[k - 1] + Dist(hypot, pts[k - 1], pts[k]);
      CumulativeStep(hypot, pts, k);
      CumulativeNonDecreasing(hypot, pts, k, |cums| - 1);
      CumulativeNonDecreasing(hypot, pts, 0, k - 1);
    }
  }

  method NearestPosition(hypot: (real, real) -> real, points: seq<Point>, cums: seq<real>, cursor: Point)
    returns (bestPos: real, bestPoint: Point)
    requires IsHypot(hypot)
    requires |points| >= 1 && |cums| == |points|
    ensures bestPos == ClosestOnPath(hypot, points, cums, cursor).pos
    ensures bestPoint == ClosestOnPath(hypot, points, cums, cursor).point
  {
    ghost var cands := Candidates(hypot, points, cums, cursor);
    var bestDist := Infinity;
    bestPos := 0.0;
    bestPoint := points[0];
    ghost var bestSeg: nat := 0;
    for i := 1 to |points|
      invariant Closest(bestDist, bestPos, bestPoint, bestSeg) == ClosestUpTo(cands, points[0], i - 1)
    {
      var cand := SegmentCandidate(hypot, points, cums, cursor, i);
      assert cands[i - 1] == cand;
      if Below(cand.dist, bestDist) {
        bestDist := Finite(cand.dist);
        bestPoint := cand.point;
        bestPos := cand.pos;
        bestSeg := i;
      }
    }
  }

  // ---------------------------------------------------------------------------
  // _sample_between

  /** Point at fraction `alpha` along segment i (from pts[i-1] to pts[i]). */
  function PathPoint(pts: seq<Point>, i: nat, alpha: real): Point
    requires 1 <= i < |pts|
  {
    Interp(pts[i - 1], pts[i], alpha)
  }

  /** Arc position of that point, measured with the cumulative lengths `cums`. */
  function ArcPosition(cums: seq<real>, i: nat, alpha: real): real
    requires 1 <= i < |cums|
  {
    cums[i - 1] + alpha * (cums[i] - cums[i - 1])
  }

  /** `p` lies on the path at an arc position in [lo, hi]. */
  ghost predicate InArcWindow(pts: seq<Point>, cums: seq<real>, p: Point, lo: real, hi: real)
    requires |cums| == |pts|
  {
    exists i: nat, alpha: real ::
      1 <= i < |pts| && 0.0 <= alpha <= 1.0 && p == PathPoint(pts, i, alpha)
      && lo <= ArcPosition(cums, i, alpha) <= hi
  }

  /** What the loop of `_sample_between` appends for segment i to `acc`. */
  function SegmentWindow(pts: seq<Point>, cums: seq<real>, start: real, end: real, i: nat, acc: seq<Point>)
    : (r: seq<Point>)
    requires 1 <= i < |pts| && |cums| == |pts|
    ensures acc <= r && |r| <= |acc| + 2
    ensures r == acc <==> cums[i] < start || cums[i - 1] > end || cums[i] - cums[i - 1] == 0.0
  {
    var segStart := cums[i - 1];
    var segEnd := cums[i];
    var segLen := segEnd - segStart;
    if segEnd < start || segStart > end || segLen == 0.0 then acc
    else
      var s := Max(start, segStart);
      var e := Min(end, segEnd);
      var ps := Interp(pts[i - 1], pts[i], (s - segStart) / segLen);
      var pe := Interp(pts[i - 1], pts[i], (e - segStart) / segLen);
      (if acc == [] || acc[|acc| - 1] != ps then acc + [ps] else acc) + [pe]
  }

  /** The `result` list after segments 1..n-1. */
  function SampleUpTo(pts: seq<Point>, cums: seq<real>, start: real, end: real, n: nat): (r: seq<Point>)
    requires 1 <= n <= |pts| && |cums| == |pts|
    ensures |r| <= 2 * (n - 1)
  {
    if n == 1 then []
    else SegmentWindow(pts, cums, start, end, n - 1, SampleUpTo(pts, cums, start, end, n - 1))
  }

  /** The window bounds after clamping to 0 <= start <= end <= total. */
  function ClampedStart(cums: seq<real>, start: real): (s: real)
    requires |cums| >= 1
    ensures s >= 0.0
    ensures cums[|cums| - 1] >= 0.0 ==> s <= cums[|cums| - 1]
    ensures 0.0 <= start <= cums[|cums| - 1] ==> s == start
  {
    Max(0.0, Min(start, cums[|cums| - 1]))
  }

  /** The end bound: never before the clamped start, and at most the total once that is non-negative. */
  function ClampedEnd(cums: seq<real>, start: real, end: real): (e: real)
    requires |cums| >= 1
    ensures ClampedStart(cums, start) <= e
    ensures cums[|cums| - 1] >= 0.0 ==> e <= cums[|cums| - 1]
    ensures ClampedStart(cums, start) <= end <= cums[|cums| - 1] ==> e == end
  {
    Max(ClampedStart(cums, start), Min(end, cums[|cums| - 1]))
  }

  /** `_sample_between`: never empty, and `[points[0]]` for a window ending at or before 0. */
  function Sample(pts: seq<Point>, cums: seq<real>, start: real, end: real): (r: seq<Point>)
    requires |pts| >= 1 && |cums| == |pts|
    ensures r != []
    ensures end <= 0.0 ==> r == [pts[0]]
  {
    if end <= 0.0 then [pts[0]]
    else
      var res := SampleUpTo(pts, cums, ClampedStart(cums, start), ClampedEnd(cums, start, end), |pts|);
      if res == [] then [pts[0]] else res
  }

  /** Cumulative lengths that never decrease along the list. */
  predicate NonDecreasing(cums: seq<real>)
  {
    forall i, j :: 0 <= i <= j < |cums| ==> cums[i] <= cums[j]
  }

  lemma CumulativeIsNonDecreasing(hypot: (real, real) -> real, pts: seq<Point>)
    requires IsHypot(hypot)
    ensures NonDecreasing(Cumulative(hypot, pts))
  {
    var cums := Cumulative(hypot, pts);
    forall i, j | 0 <= i <= j < |cums|
      ensures cums[i] <= cums[j]
    {
      CumulativeNonDecreasing(hypot, pts, i, j);
    }
  }

  /** Every point of `r` lies on the path inside the arc window [lo, hi]. */
  ghost predicate AllInWindow(pts: seq<Point>, cums: seq<real>, r: seq<Point>, lo: real, hi: real)
    requires |cums| == |pts|
  {
    forall k :: 0 <= k < |r| ==> InArcWindow(pts, cums, r[k], lo, hi)
  }

  /** Appending a point of the window keeps every point in the window. */
  lemma AppendInWindow(pts: seq<Point>, cums: seq<real>, r: seq<Point>, p: Point, lo: real, hi: real)
    requires |cums| == |pts|
    requires AllInWindow(pts, cums, r, lo, hi) && InArcWindow(pts, cums, p, lo, hi)
    ensures AllInWindow(pts, cums, r + [p], lo, hi)
  {
    forall k | 0 <= k < |r + [p]|
      ensures InArcWindow(pts, cums, (r + [p])[k], lo, hi)
    {
      if k < |r| {
        assert (r + [p])[k] == r[k];
      }
    }
  }

  /** Each segment's contribution lies inside the window. */
  lemma SegmentWindowInWindow(pts: seq<Point>, cums: seq<real>, s: real, e: real, i: nat, acc: seq<Point>)
    requires 1 <= i < |pts| && |cums| == |pts| && NonDecreasing(cums) && s <= e
    requires AllInWindow(pts, cums, acc, s, e)
    ensures AllInWindow(pts, cums, SegmentWindow(pts, cums, s, e, i, acc), s, e)
  {
    var segStart := cums[i - 1];
    var segEnd := cums[i];
    var segLen := segEnd - segStart;
    if !(segEnd < s || segStart > e || segLen == 0.0) {
      var ps := Interp(pts[i - 1], pts[i], (Max(s, segStart) - segStart) / segLen);
      var pe := Interp(pts[i - 1], pts[i], (Min(e, segEnd) - segStart) / segLen);
      ClippedEndsInWindow(pts, cums, s, e, i);
      var acc' := if acc == [] || acc[|acc| - 1] != ps then acc + [ps] else acc;
      if acc == [] || acc[|acc| - 1] != ps {
        AppendInWindow(pts, cums, acc, ps, s, e);
      }
      AppendInWindow(pts, cums, acc', pe, s, e);
      assert SegmentWindow(pts, cums, s, e, i, acc) == acc' + [pe];
    }
  }

  /** The two points a kept segment contributes lie in the window. */
  lemma ClippedEndsInWindow(pts: seq<Point>, cums: seq<real>, s: real, e: real, i: nat)
    requires 1 <= i < |pts| && |cums| == |pts| && NonDecreasing(cums) && s <= e
    requires !(cums[i] < s || cums[i - 1] > e || cums[i] - cums[i - 1] == 0.0)
    ensures InArcWindow(pts, cums, Interp(pts[i - 1], pts[i], (Max(s, cums[i - 1]) - cums[i - 1]) / (cums[i] - cums[i - 1])), s, e)
    ensures InArcWindow(pts, cums, Interp(pts[i - 1], pts[i], (Min(e, cums[i]) - cums[i - 1]) / (cums[i] - cums[i - 1])), s, e)
  {
    assert cums[i - 1] <= cums[i];
    WindowPoint(pts, cums, i, Max(s, cums[i - 1]), s, e);
    WindowPoint(pts, cums, i, Min(e, cums[i]), s, e);
  }

  /** Every point the loop emits lies on the path inside the clamped window. */
  lemma {:induction false} SampleUpToInWindow(pts: seq<Point>, cums: seq<real>, s: real, e: real, n: nat)
    requires 1 <= n <= |pts| && |cums| == |pts| && NonDecreasing(cums) && s <= e
    ensures AllInWindow(pts, cums, SampleUpTo(pts, cums, s, e, n), s, e)
  {
    if n > 1 {
      SampleUpToInWindow(pts, cums, s, e, n - 1);
      SegmentWindowInWindow(pts, cums, s, e, n - 1, SampleUpTo(pts, cums, s, e, n - 1));
    }
  }

  /** The point at arc position `v` of segment i, when v is inside both the segment and [lo, hi]. */
  lemma WindowPoint(pts: seq<Point>, cums: seq<real>, i: nat, v: real, lo: real, hi: real)
    requires 1 <= i < |pts| && |cums| == |pts| && cums[i - 1] < cums[i]
    requires cums[i - 1] <= v <= cums[i] && lo <= v <= hi
    ensures InArcWindow(pts, cums, Interp(pts[i - 1], pts[i], (v - cums[i - 1]) / (cums[i] - cums[i - 1])), lo, hi)
  {
    var segLen := cums[i] - cums[i - 1];
    var alpha := (v - cums[i - 1]) / segLen;
    UnitFraction(v - cums[i - 1], segLen);
    assert alpha * segLen == v - cums[i - 1];
    assert ArcPosition(cums, i, alpha) == v;
    assert Interp(pts[i - 1], pts[i], alpha) == PathPoint(pts, i, alpha);
  }

  lemma UnitFraction(num: real, den: real)
    requires 0.0 <= num <= den && den > 0.0
    ensures 0.0 <= num / den <= 1.0
  {
  }

  /** If the loop emitted nothing, the last cumulative length seen is below `s` or zero. */
  lemma {:induction false} SampleUpToEmpty(pts: seq<Point>, cums: seq<real>, s: real, e: real, n: nat)
    requires 1 <= n <= |pts| && |cums| == |pts| && cums[0] == 0.0 && 0.0 <= s <= e
    ensures SampleUpTo(pts, cums, s, e, n) == [] ==> cums[n - 1] < s || cums[n - 1] == 0.0
  {
    if n > 1 {
      SampleUpToEmpty(pts, cums, s, e, n - 1);
    }
  }

  /**
   * For a window ending after 0, every point `_sample_between` returns lies on
   * the path at an arc position inside the clamped window.
   */
  lemma SampleInWindow(pts: seq<Point>, cums: seq<real>, start: real, end: real)
    requires |pts| >= 2 && |cums| == |pts| && NonDecreasing(cums) && cums[0] == 0.0
    requires end > 0.0
    ensures AllInWindow(pts, cums, Sample(pts, cums, start, end),
                        ClampedStart(cums, start), ClampedEnd(cums, start, end))
  {
    var s := ClampedStart(cums, start);
    var e := ClampedEnd(cums, start, end);
    var res := SampleUpTo(pts, cums, s, e, |pts|);
    SampleUpToInWindow(pts, cums, s, e, |pts|);
    if res == [] {
      SampleUpToEmpty(pts, cums, s, e, |pts|);
      assert cums[0] <= cums[|cums| - 1];
      assert cums[|cums| - 1] == 0.0;
      assert pts[0] == PathPoint(pts, 1, 0.0);
      assert ArcPosition(cums, 1, 0.0) == 0.0;
      assert InArcWindow(pts, cums, pts[0], s, e);
    }
  }

  /** Widening the window keeps a point inside it. */
  lemma InArcWindowWiden(pts: seq<Point>, cums: seq<real>, p: Point, lo: real, hi: real, lo': real, hi': real)
    requires |cums| == |pts| && InArcWindow(pts, cums, p, lo, hi)
    requires lo' <= lo && hi <= hi'
    ensures InArcWindow(pts, cums, p, lo', hi')
  {
    var i: nat, alpha: real :| 1 <= i < |pts| && 0.0 <= alpha <= 1.0 && p == PathPoint(pts, i, alpha)
                             && lo <= ArcPosition(cums, i, alpha) <= hi;
  }

  method SampleBetween(points: seq<Point>, cums: seq<real>, start: real, end: real) returns (result: seq<Point>)
    requires |points| >= 1 && |cums| == |points|
    ensures result == Sample(points, cums, start, end)
  {
    if end <= 0.0 {
      return [points[0]];
    }
    var total := cums[|cums| - 1];
    var s := Max(0.0, Min(start, total));
    var e := Max(s, Min(end, total));
    result := [];
    for i := 1 to |points|
      invariant result == SampleUpTo(points, cums, s, e, i)
    {
      var segStart := cums[i - 1];
      var segEnd := cums[i];
      var segLen := segEnd - segStart;
      if segEnd < s || segStart > e || segLen == 0.0 {
        continue;
      }
      var sx := Max(s, segStart);
      var ex := Min(e, segEnd);
      var alphaS := (sx - segStart) / segLen;
      var alphaE := (ex - segStart) / segLen;
      var pS := Interp(points[i - 1], points[i], alphaS);
      var pE := Interp(points[i - 1], points[i], alphaE);
      if result == [] {
        result := result + [pS];
      } else if result[|result| - 1] != pS {
        result := result + [pS];
      }
      result := result + [pE];
    }
    if result == [] {
      result := [points[0]];
    }
  }

  // ---------------------------------------------------------------------------
  // lookahead, distance_to_end

  const LookaheadAheadPx: real := 60.0
  const LookaheadBehindPx: real := 20.0

  /**
   * `lookahead`: the piece of path around the cursor's projection, from `behind`
   * before it to `ahead` after it (clipped to the path). Never empty.
   */
  function Lookahead(hypot: (real, real) -> real, pts: seq<Point>, cursor: Point,
                     ahead: real := LookaheadAheadPx, behind: real := LookaheadBehindPx): (r: seq<Point>)
    requires IsHypot(hypot) && |pts| >= 1
    ensures r != []
  {
    var cums := Cumulative(hypot, pts);
    var pos := ClosestOnPath(hypot, pts, cums, cursor).pos;
    Sample(pts, cums, pos - behind, pos + ahead)
  }

  /** Every point `lookahead` returns lies on the path inside the clipped arc-length window. */
  lemma LookaheadWindow(hypot: (real, real) -> real, pts: seq<Point>, cursor: Point, ahead: real, behind: real)
    requires IsHypot(hypot) && |pts| >= 2 && ahead >= 0.0 && behind >= 0.0
    ensures var cums := Cumulative(hypot, pts);
            var pos := ClosestOnPath(hypot, pts, cums, cursor).pos;
            AllInWindow(pts, cums, Lookahead(hypot, pts, cursor, ahead, behind),
                        Max(0.0, pos - behind), Min(cums[|cums| - 1], pos + ahead))
  {
    var cums := Cumulative(hypot, pts);
    NearestPositionInRange(hypot, pts, cursor);
    CumulativeIsNonDecreasing(hypot, pts);
    SampleAroundInWindow(pts, cums, ClosestOnPath(hypot, pts, cums, cursor).pos, ahead, behind);
  }

  /** The window around a position on the path, clipped to [0, total], holds every point sampled for it. */
  lemma SampleAroundInWindow(pts: seq<Point>, cums: seq<real>, pos: real, ahead: real, behind: real)
    requires |pts| >= 2 && |cums| == |pts| && NonDecreasing(cums) && cums[0] == 0.0
    requires 0.0 <= pos <= cums[|cums| - 1] && ahead >= 0.0 && behind >= 0.0
    ensures AllInWindow(pts, cums, Sample(pts, cums, pos - behind, pos + ahead),
                        Max(0.0, pos - behind), Min(cums[|cums| - 1], pos + ahead))
  {
    var lo := Max(0.0, pos - behind);
    var hi := Min(cums[|cums| - 1], pos + ahead);
    if pos + ahead <= 0.0 {
      assert pts[0] == PathPoint(pts, 1, 0.0);
      assert ArcPosition(cums, 1, 0.0) == 0.0;
      assert InArcWindow(pts, cums, pts[0], lo, hi);
    } else {
      SampleInWindow(pts, cums, pos - behind, pos + ahead);
      assert ClampedStart(cums, pos - behind) == lo;
      assert ClampedEnd(cums, pos - behind, pos + ahead) == hi;
    }
  }

  /**
   * `distance_to_end`: the arc length left after the cursor's projection. The
   * `max(0, ...)` never clips, so it is exactly total minus position, and it lies
   * in [0, total].
   */
  function DistanceToEnd(hypot: (real, real) -> real, pts: seq<Point>, cursor: Point): (d: real)
    requires IsHypot(hypot) && |pts| >= 1
    ensures 0.0 <= d <= PolylineLength(hypot, pts)
    ensures d == PolylineLength(hypot, pts) - ClosestOnPath(hypot, pts, Cumulative(hypot, pts), cursor).pos
  {
    var cums := Cumulative(hypot, pts);
    var pos := ClosestOnPath(hypot, pts, cums, cursor).pos;
    NearestPositionInRange(hypot, pts, cursor);
    Max(0.0, cums[|cums| - 1] - pos)
  }

  // ---------------------------------------------------------------------------
  // min_distance_to_polyline

  /**
   * Distance from `c` to segment a-b: to its single point when a == b, otherwise
   * to the projection of `c` clamped to the segment.
   */
  function SegmentDistance(hypot: (real, real) -> real, a: Point, b: Point, c: Point): (d: real)
    requires IsHypot(hypot)
    ensures d >= 0.0
  {
    var dx := b.x - a.x;
    var dy := b.y - a.y;
    if dx == 0.0 && dy == 0.0 then Dist(hypot, a, c)
    else
      SumOfSquaresPositive(dx, dy);
      var t := Clamp01(((c.x - a.x) * dx + (c.y - a.y) * dy) / (Sq(dx) + Sq(dy)));
      Dist(hypot, Interp(a, b, t), c)
  }

  lemma SumOfSquaresPositive(dx: real, dy: real)
    requires dx != 0.0 || dy != 0.0
    ensures Sq(dx) + Sq(dy) > 0.0
  {
    SqNonNegative(dx);
    SqNonNegative(dy);
    if dx != 0.0 {
      SqPositive(dx);
    } else {
      SqPositive(dy);
    }
  }

  /**
   * The distance `min_distance_to_polyline` takes for a segment is the distance
   * to the projection `_nearest_position` uses for it: the two agree on every
   * segment, the zero-length one included.
   */
  lemma SegmentDistanceIsProjection(hypot: (real, real) -> real, a: Point, b: Point, c: Point)
    requires IsHypot(hypot)
    ensures SegmentDistance(hypot, a, b, c) == Dist(hypot, ProjectOntoSegment(a, b, c).foot, c)
  {
    var dx := b.x - a.x;
    var dy := b.y - a.y;
    if dx == 0.0 && dy == 0.0 {
      assert Sq(dx) + Sq(dy) == 0.0;
      assert ProjectOntoSegment(a, b, c).foot == Interp(a, b, 0.0) == a;
    } else {
      SumOfSquaresPositive(dx, dy);
    }
  }

  /** A point at parameter t of a proper segment projects back to parameter t. */
  lemma RatioOnSegment(a: Point, b: Point, t: real)
    requires a != b
    ensures ProjectionRatio(a, b, Interp(a, b, t)) == t
  {
    var dx := b.x - a.x;
    var dy := b.y - a.y;
    var c := Interp(a, b, t);
    SumOfSquaresPositive(dx, dy);
    assert c.x - a.x == dx * t && c.y - a.y == dy * t;
    DotAlong(dx, dy, t);
    DivCancel(t, Sq(dx) + Sq(dy));
  }

  lemma DotAlong(dx: real, dy: real, t: real)
    ensures (dx * t) * dx + (dy * t) * dy == t * (Sq(dx) + Sq(dy))
  {
  }

  lemma DivCancel(t: real, len: real)
    requires len != 0.0
    ensures (t * len) / len == t
  {
  }

  /** A point on segment a-b is at distance 0 from it. */
  lemma SegmentDistanceOnSegment(hypot: (real, real) -> real, a: Point, b: Point, t: real)
    requires IsHypot(hypot) && 0.0 <= t <= 1.0
    ensures SegmentDistance(hypot, a, b, Interp(a, b, t)) == 0.0
  {
    var c := Interp(a, b, t);
    SegmentDistanceIsProjection(hypot, a, b, c);
    if a == b {
      assert c == a;
      assert ProjectOntoSegment(a, b, c).foot == a;
    } else {
      RatioOnSegment(a, b, t);
      assert ProjectOntoSegment(a, b, c).foot == c;
    }
    DistSelf(hypot, c);
  }

  /** Distances from `c` to the segments of the path in order; entry k belongs to segment k + 1. */
  function SegmentDistances(hypot: (real, real) -> real, pts: seq<Point>, c: Point): (ds: seq<real>)
    requires IsHypot(hypot)
    ensures |ds| == if |pts| == 0 then 0 else |pts| - 1
  {
    seq(if |pts| == 0 then 0 else |pts| - 1, k requires 0 <= k < |pts| - 1 => SegmentDistance(hypot, pts[k], pts[k + 1], c))
  }

  /** `best` after the loop of `min_distance_to_polyline` has seen the first n distances. */
  function MinUpTo(ds: seq<real>, n: nat): (best: Extended)
    requires n <= |ds|
    ensures best.Infinity? <==> n == 0
  {
    if n == 0 then Infinity
    else
      var best := MinUpTo(ds, n - 1);
      if Below(ds[n - 1], best) then Finite(ds[n - 1]) else best
  }

  /** The running minimum is at most every distance seen and is one of them. */
  lemma {:induction false} MinUpToIsMinimum(ds: seq<real>, n: nat)
    requires n <= |ds|
    ensures forall j :: 0 <= j < n ==> AtMost(MinUpTo(ds, n), ds[j])
    ensures MinUpTo(ds, n).Finite? ==> exists j :: 0 <= j < n && MinUpTo(ds, n).value == ds[j]
  {
    if n > 0 {
      MinUpToIsMinimum(ds, n - 1);
      if MinUpTo(ds, n - 1).Finite? && !Below(ds[n - 1], MinUpTo(ds, n - 1)) {
        var j :| 0 <= j < n - 1 && MinUpTo(ds, n - 1).value == ds[j];
      }
    }
  }

  /** `min_distance_to_polyline`: infinite for fewer than two points. */
  function MinDistance(hypot: (real, real) -> real, pts: seq<Point>, c: Point): (best: Extended)
    requires IsHypot(hypot)
    ensures best.Infinity? <==> |pts| < 2
  {
    var ds := SegmentDistances(hypot, pts, c);
    MinUpTo(ds, |ds|)
  }

  /**
   * For two or more points the result is the smallest point-to-segment distance:
   * at most the distance to every segment, and equal to the distance to one.
   */
  lemma MinDistanceIsMinimum(hypot: (real, real) -> real, pts: seq<Point>, c: Point, j: nat)
    requires IsHypot(hypot) && 1 <= j < |pts|
    ensures AtMost(MinDistance(hypot, pts, c), SegmentDistance(hypot, pts[j - 1], pts[j], c))
    ensures exists k :: 1 <= k < |pts| && MinDistance(hypot, pts, c) == Finite(SegmentDistance(hypot, pts[k - 1], pts[k], c))
  {
    var ds := SegmentDistances(hypot, pts, c);
    MinUpToIsMinimum(ds, |ds|);
    assert ds[j - 1] == SegmentDistance(hypot, pts[j - 1], pts[j], c);
    var k :| 0 <= k < |ds| && MinUpTo(ds, |ds|).value == ds[k];
    assert ds[k] == SegmentDistance(hypot, pts[k], pts[k + 1], c);
    assert MinDistance(hypot, pts, c) == Finite(SegmentDistance(hypot, pts[(k + 1) - 1], pts[k + 1], c));
  }

  /** Any point lying on a segment of the polyline is at distance 0 from it. */
  lemma MinDistanceZeroOnPath(hypot: (real, real) -> real, pts: seq<Point>, j: nat, t: real)
    requires IsHypot(hypot) && 1 <= j < |pts| && 0.0 <= t <= 1.0
    ensures MinDistance(hypot, pts, PathPoint(pts, j, t)) == Finite(0.0)
  {
    var p := PathPoint(pts, j, t);
    SegmentDistanceOnSegment(hypot, pts[j - 1], pts[j], t);
    MinDistanceIsMinimum(hypot, pts, p, j);
  }

  /** Every vertex of a polyline of two or more points is at distance 0 from it. */
  lemma MinDistanceZeroAtVertex(hypot: (real, real) -> real, pts: seq<Point>, k: nat)
    requires IsHypot(hypot) && |pts| >= 2 && k < |pts|
    ensures MinDistance(hypot, pts, pts[k]) == Finite(0.0)
  {
    if k == 0 {
      MinDistanceZeroOnPath(hypot, pts, 1, 0.0);
    } else {
      MinDistanceZeroOnPath(hypot, pts, k, 1.0);
    }
  }

  method MinDistanceToPolyline(hypot: (real, real) -> real, point: Point, polyline: seq<Point>) returns (best: Extended)
    requires IsHypot(hypot)
    ensures best == MinDistance(hypot, polyline, point)
  {
    best := Infinity;
    var i := 1;
    while i < |polyline|
      invariant 1 <= i && (i <= |polyline| || i == 1)
      invariant best == MinUpTo(SegmentDistances(hypot, polyline, point), i - 1)
    {
      best := KeepCloser(hypot, point, polyline, i, best);
      i := i + 1;
    }
  }

  /** One pass of the loop of `min_distance_to_polyline`: segment i replaces `best` when strictly closer. */
  method KeepCloser(hypot: (real, real) -> real, point: Point, polyline: seq<Point>, i: nat, best: Extended)
    returns (next: Extended)
    requires IsHypot(hypot) && 1 <= i < |polyline|
    requires best == MinUpTo(SegmentDistances(hypot, polyline, point), i - 1)
    ensures next == MinUpTo(SegmentDistances(hypot, polyline, point), i)
  {
    var dist := SegmentDistance(hypot, polyline[i - 1], polyline[i], point);
    assert SegmentDistances(hypot, polyline, point)[i - 1] == dist;
    next := if Below(dist, best) then Finite(dist) else best;
  }
}
