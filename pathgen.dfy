/**
 * The seeded path generator of backend/path.py (`generate_path`): up to ten
 * attempts, each drawing the four control points of a cubic Bezier curve,
 * sampling it at 80 points and keeping it when its length is within the travel
 * range.
 *
 * `random.Random(seed)` is the stream `draw`: draw(k) is the k-th value its
 * `random()` yields, and `uniform(a, b)` is `a + (b - a) * random()`. Each
 * attempt reads seven consecutive values of the stream.
 */
module PathGen {
  import opened Geometry
  import Config

  const Margin: real := 60.0
  const Samples: nat := 80
  const MaxAttempts: nat := 10
  const DrawsPerAttempt: nat := 7

  /** `uniform(lo, hi)` for the stream value `u`. */
  function Uniform(lo: real, hi: real, u: real): real
  {
    lo + (hi - lo) * u
  }

  datatype Controls = Controls(p0: Point, p1: Point, p2: Point, p3: Point)

  /**
   * The control points of attempt `attempt` (counted from 1). The bounds are
   * written out for the 400 x 400 canvas and the 60 px margin: 120 = 0.3 * 400,
   * 280 = 0.7 * 400 and 340 = 400 - 60.
   */
  function AttemptControls(draw: nat -> real, attempt: nat): Controls
    requires attempt >= 1
  {
    var k := DrawsPerAttempt * (attempt - 1);
    var p0 := Point(Uniform(60.0, 120.0, draw(k)), Uniform(60.0, 280.0, draw(k + 1)));
    var p3 := Point(Uniform(280.0, 340.0, draw(k + 2)), Uniform(60.0, 280.0, draw(k + 3)));
    var bend := Uniform(-80.0, 80.0, draw(k + 4));
    var p1 := Point(p0.x + Uniform(60.0, 120.0, draw(k + 5)), p0.y + bend);
    var p2 := Point(p3.x - Uniform(60.0, 120.0, draw(k + 6)), p3.y - bend / 2.0);
    Controls(p0, p1, p2, p3)
  }

  /** `uniform(lo, hi)` stays within [lo, hi] for a stream value in [0, 1). */
  lemma UniformWithin(lo: real, hi: real, u: real)
    requires lo <= hi && 0.0 <= u < 1.0
    ensures lo <= Uniform(lo, hi, u) <= hi
  {
    var d, v := hi - lo, 1.0 - u;
    assert d >= 0.0 && v > 0.0;
    assert d * u >= 0.0 && d * v >= 0.0;
    assert d * v == d - d * u;
  }

  /** The seven stream values attempt `attempt` reads all lie in [0, 1), as `random()` promises. */
  predicate UnitDraws(draw: nat -> real, attempt: nat)
    requires attempt >= 1
  {
    var k := DrawsPerAttempt * (attempt - 1);
    forall j :: k <= j < k + DrawsPerAttempt ==> 0.0 <= draw(j) < 1.0
  }

  /**
   * The start lies in [60, 120] x [60, 280] and the end in [280, 340] x [60, 280];
   * p1 lies 60 to 120 px right of p0 and at most 80 px above or below it, and p2
   * lies 60 to 120 px left of p3, bent back by half as much.
   */
  lemma AttemptControlsInCanvas(draw: nat -> real, attempt: nat)
    requires attempt >= 1 && UnitDraws(draw, attempt)
    ensures var c := AttemptControls(draw, attempt);
            && 60.0 <= c.p0.x <= 120.0 && 60.0 <= c.p0.y <= 280.0
            && 280.0 <= c.p3.x <= 340.0 && 60.0 <= c.p3.y <= 280.0
            && 60.0 <= c.p1.x - c.p0.x <= 120.0 && -80.0 <= c.p1.y - c.p0.y <= 80.0
            && 60.0 <= c.p3.x - c.p2.x <= 120.0 && 2.0 * (c.p3.y - c.p2.y) == c.p1.y - c.p0.y
  {
    var k := DrawsPerAttempt * (attempt - 1);
    UniformWithin(60.0, 120.0, draw(k));
    UniformWithin(60.0, 280.0, draw(k + 1));
    UniformWithin(280.0, 340.0, draw(k + 2));
    UniformWithin(60.0, 280.0, draw(k + 3));
    UniformWithin(-80.0, 80.0, draw(k + 4));
    UniformWithin(60.0, 120.0, draw(k + 5));
    UniformWithin(60.0, 120.0, draw(k + 6));
  }

  /** The canvas bounds written out above are the configured ones. */
  lemma CanvasBounds()
    ensures Margin == 60.0 && Config.CanvasWidthPx * 0.3 == 120.0 && Config.CanvasHeightPx * 0.7 == 280.0
    ensures Config.CanvasWidthPx * 0.7 == 280.0 && Config.CanvasWidthPx - Margin == 340.0
  {
  }

  /** The curve sampled at t = i / 79 for i = 0 .. 79: it starts at p0 and ends at p3. */
  function Curve(c: Controls): (pts: seq<Point>)
    ensures |pts| == Samples
    ensures pts[0] == c.p0 && pts[Samples - 1] == c.p3
  {
    seq(Samples, i requires 0 <= i < Samples =>
      BezierPoint(i as real / (Samples - 1) as real, c.p0, c.p1, c.p2, c.p3))
  }

  predicate InTravelRange(length: real)
  {
    Config.PathTravelPxMin <= length <= Config.PathTravelPxMax
  }

  datatype GeneratedPath = GeneratedPath(points: seq<Point>, length: real)

  /** What attempt `attempt` produces: its 80 points and their polyline length. */
  function AttemptPath(hypot: (real, real) -> real, draw: nat -> real, attempt: nat): (g: GeneratedPath)
    requires IsHypot(hypot) && attempt >= 1
    ensures |g.points| == Samples && g.length == PolylineLength(hypot, g.points)
    ensures g.points[0] == AttemptControls(draw, attempt).p0
    ensures g.points[Samples - 1] == AttemptControls(draw, attempt).p3
  {
    var pts := Curve(AttemptControls(draw, attempt));
    GeneratedPath(pts, PolylineLength(hypot, pts))
  }

  /** The lengths of all ten attempts; entry i is attempt i + 1. */
  function AttemptLengths(hypot: (real, real) -> real, draw: nat -> real): (lengths: seq<real>)
    requires IsHypot(hypot)
    ensures |lengths| == MaxAttempts
  {
    seq(MaxAttempts, i requires 0 <= i < MaxAttempts => AttemptPath(hypot, draw, i + 1).length)
  }

  lemma AttemptLengthsAt(hypot: (real, real) -> real, draw: nat -> real, attempt: nat)
    requires IsHypot(hypot) && 1 <= attempt <= MaxAttempts
    ensures AttemptLengths(hypot, draw)[attempt - 1] == AttemptPath(hypot, draw, attempt).length
  {
  }

  /**
   * The attempt the loop returns once it reaches attempt `attempt`, given the
   * attempts' lengths: the first from there on whose length is in range, or the tenth.
   */
  function FirstInRange(lengths: seq<real>, attempt: nat): (k: nat)
    requires |lengths| == MaxAttempts && 1 <= attempt <= MaxAttempts
    ensures attempt <= k <= MaxAttempts
    decreases MaxAttempts - attempt
  {
    if InTravelRange(lengths[attempt - 1]) || attempt == MaxAttempts then attempt
    else FirstInRange(lengths, attempt + 1)
  }

  /** The chosen attempt is the first one in range; only the tenth may be out of range. */
  lemma {:induction false} FirstInRangeIsFirst(lengths: seq<real>, attempt: nat)
    requires |lengths| == MaxAttempts && 1 <= attempt <= MaxAttempts
    ensures var k := FirstInRange(lengths, attempt);
            (k < MaxAttempts ==> InTravelRange(lengths[k - 1]))
            && forall j :: attempt - 1 <= j < k - 1 ==> !InTravelRange(lengths[j])
    decreases MaxAttempts - attempt
  {
    if !InTravelRange(lengths[attempt - 1]) && attempt < MaxAttempts {
      FirstInRangeIsFirst(lengths, attempt + 1);
    }
  }

  /** The attempt `generate_path` returns. */
  function ChosenAttempt(hypot: (real, real) -> real, draw: nat -> real): (k: nat)
    requires IsHypot(hypot)
    ensures 1 <= k <= MaxAttempts
  {
    FirstInRange(AttemptLengths(hypot, draw), 1)
  }

  /**
   * `generate_path`: the path of the chosen attempt, so 80 points running from
   * that attempt's p0 to its p3.
   */
  function Generate(hypot: (real, real) -> real, draw: nat -> real): (g: GeneratedPath)
    requires IsHypot(hypot)
    ensures |g.points| == Samples && g.length == PolylineLength(hypot, g.points)
    ensures var c := AttemptControls(draw, ChosenAttempt(hypot, draw));
            g.points[0] == c.p0 && g.points[Samples - 1] == c.p3
  {
    AttemptPath(hypot, draw, ChosenAttempt(hypot, draw))
  }

  /** A path returned before the tenth attempt has a length in [200, 300]. */
  lemma GenerateInRange(hypot: (real, real) -> real, draw: nat -> real)
    requires IsHypot(hypot)
    ensures ChosenAttempt(hypot, draw) < MaxAttempts ==> InTravelRange(Generate(hypot, draw).length)
  {
    var lengths := AttemptLengths(hypot, draw);
    FirstInRangeIsFirst(lengths, 1);
    var k := ChosenAttempt(hypot, draw);
    AttemptLengthsAt(hypot, draw, k);
  }

  /** An attempt's control points depend only on its own seven values of the stream. */
  lemma SameControls(d1: nat -> real, d2: nat -> real, attempt: nat)
    requires 1 <= attempt <= MaxAttempts
    requires forall k: nat :: k < DrawsPerAttempt * MaxAttempts ==> d1(k) == d2(k)
    ensures AttemptControls(d1, attempt) == AttemptControls(d2, attempt)
  {
    var k := DrawsPerAttempt * (attempt - 1);
    assert d1(k) == d2(k) && d1(k + 1) == d2(k + 1) && d1(k + 2) == d2(k + 2) && d1(k + 3) == d2(k + 3);
    assert d1(k + 4) == d2(k + 4) && d1(k + 5) == d2(k + 5) && d1(k + 6) == d2(k + 6);
  }

  /**
   * The generator is deterministic in its seed: it reads at most the first 70
   * values of the stream, so streams agreeing on those give the same path.
   */
  lemma GenerateDeterministic(hypot: (real, real) -> real, d1: nat -> real, d2: nat -> real)
    requires IsHypot(hypot)
    requires forall k: nat :: k < DrawsPerAttempt * MaxAttempts ==> d1(k) == d2(k)
    ensures Generate(hypot, d1) == Generate(hypot, d2)
  {
    var l1 := AttemptLengths(hypot, d1);
    var l2 := AttemptLengths(hypot, d2);
    forall i | 0 <= i < MaxAttempts
      ensures l1[i] == l2[i]
    {
      SameControls(d1, d2, i + 1);
      AttemptLengthsAt(hypot, d1, i + 1);
      AttemptLengthsAt(hypot, d2, i + 1);
    }
    assert l1 == l2;
    SameControls(d1, d2, ChosenAttempt(hypot, d1));
  }

  /** One pass of the loop body: attempt `attempt` reads the stream from `next` on. */
  method Attempt(hypot: (real, real) -> real, draw: nat -> real, next: nat, attempt: nat)
    returns (points: seq<Point>, length: real)
    requires IsHypot(hypot) && attempt >= 1 && next == DrawsPerAttempt * (attempt - 1)
    ensures GeneratedPath(points, length) == AttemptPath(hypot, draw, attempt)
  {
    var p0 := Point(Uniform(60.0, 120.0, draw(next)), Uniform(60.0, 280.0, draw(next + 1)));
    var p3 := Point(Uniform(280.0, 340.0, draw(next + 2)), Uniform(60.0, 280.0, draw(next + 3)));
    var bend := Uniform(-80.0, 80.0, draw(next + 4));
    var p1 := Point(p0.x + Uniform(60.0, 120.0, draw(next + 5)), p0.y + bend);
    var p2 := Point(p3.x - Uniform(60.0, 120.0, draw(next + 6)), p3.y - bend / 2.0);
    assert Controls(p0, p1, p2, p3) == AttemptControls(draw, attempt);
    points := Curve(Controls(p0, p1, p2, p3));
    length := ApproxLength(hypot, points);
  }

  /** The retry loop of `generate_path`, reading the stream through a cursor `next`. */
  method GeneratePath(hypot: (real, real) -> real, draw: nat -> real) returns (points: seq<Point>, length: real)
    requires IsHypot(hypot)
    ensures GeneratedPath(points, length) == Generate(hypot, draw)
  {
    ghost var lengths := AttemptLengths(hypot, draw);
    var attempts := 0;
    var next := 0;
    while true
      invariant 0 <= attempts < MaxAttempts && next == DrawsPerAttempt * attempts
      invariant FirstInRange(lengths, attempts + 1) == ChosenAttempt(hypot, draw)
      decreases MaxAttempts - attempts
    {
      attempts := attempts + 1;
      points, length := Attempt(hypot, draw, next, attempts);
      next := next + DrawsPerAttempt;
      AttemptLengthsAt(hypot, draw, attempts);
      if InTravelRange(length) {
        assert FirstInRange(lengths, attempts) == attempts;
        return;
      }
      if attempts >= MaxAttempts {
        assert FirstInRange(lengths, attempts) == attempts;
        return;
      }
      assert FirstInRange(lengths, attempts) == FirstInRange(lengths, attempts + 1);
    }
  }
}
