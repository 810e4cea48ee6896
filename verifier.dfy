/**
 * The trajectory verifier of `verify_attempt` (backend/main.py): tolerance
 * selection, the scan over consecutive samples, the coverage counts, the speed
 * and pause statistics, the two behavioural flags and the reason cascade.
 *
 * A sample is "near" the path when `min_distance_to_polyline` from it is at most
 * the tolerance; the specification functions take these answers as the
 * sequence `near` (see `NearFlags`), the methods compute them.
 */
module Verifier {
  import opened Wrappers
  import opened Geometry
  import opened Models
  import Config

  // ---------------------------------------------------------------------------
  // _challenge_tolerance and tolerance selection

  /** The per-challenge tolerances issued by `new_challenge`. */
  datatype Tolerances = Tolerances(mouse: real, touch: real)

  /** `_challenge_tolerance`: pen is treated as touch. */
  function ChallengeTolerance(stored: Tolerances, pointer: PointerType): (tol: real)
    ensures pointer == Mouse ==> tol == stored.mouse
    ensures pointer != Mouse ==> tol == stored.touch
  {
    if pointer == Mouse then stored.mouse else stored.touch
  }

  /** The profile tolerance, used when the challenge has no stored tolerance. */
  function BaseTolerance(pointer: PointerType): (tol: real)
    ensures pointer == Mouse ==> tol == Config.MouseTolerancePx
    ensures pointer != Mouse ==> tol == Config.TouchTolerancePx
    ensures tol >= 1.0
  {
    if pointer == Mouse then Config.MouseTolerancePx else Config.TouchTolerancePx
  }

  /** The stored tolerance when the record has one (the `try` succeeds), else the base one. */
  function SelectedTolerance(stored: Option<Tolerances>, pointer: PointerType): (tol: real)
    ensures stored.None? ==> tol == BaseTolerance(pointer)
    ensures stored.Some? ==> tol == ChallengeTolerance(stored.value, pointer)
    ensures TolerancesAtLeastOne(stored) ==> tol >= 1.0
  {
    if stored.Some? then ChallengeTolerance(stored.value, pointer) else BaseTolerance(pointer)
  }

  /** Every tolerance `new_challenge` issues is at least 1. */
  predicate TolerancesAtLeastOne(stored: Option<Tolerances>)
  {
    stored.Some? ==> stored.value.mouse >= 1.0 && stored.value.touch >= 1.0
  }

  /**
   * Lines 185-195: the selected tolerance, scaled by 1.1 when the device pixel
   * ratio is present and at least 2. It is at least 1 for issued tolerances.
   */
  function EffectiveTolerance(stored: Option<Tolerances>, pointer: PointerType, dpr: Option<real>): (tol: real)
    ensures dpr.Some? && dpr.value >= 2.0 ==> tol == SelectedTolerance(stored, pointer) * 1.1
    ensures !(dpr.Some? && dpr.value >= 2.0) ==> tol == SelectedTolerance(stored, pointer)
    ensures TolerancesAtLeastOne(stored) ==> tol >= 1.0
  {
    var tol := SelectedTolerance(stored, pointer);
    if dpr.Some? && dpr.value >= 2.0 then tol * 1.1 else tol
  }

  /** Pen and touch pointers always get the same tolerance. */
  lemma PenIsTouch(stored: Option<Tolerances>, dpr: Option<real>)
    ensures EffectiveTolerance(stored, Pen, dpr) == EffectiveTolerance(stored, Touch, dpr)
  {
  }

  // ---------------------------------------------------------------------------
  // The scan loop (lines 208-229)

  function SamplePoint(s: TrajectorySample): Point
  {
    Point(s.x, s.y)
  }

  /** Whether each sample lies within `tol` of the path. */
  function NearFlags(hypot: (real, real) -> real, path: seq<Point>, tol: real, traj: seq<TrajectorySample>)
    : (near: seq<bool>)
    requires IsHypot(hypot)
    ensures |near| == |traj|
  {
    seq(|traj|, k requires 0 <= k < |traj| => AtMost(MinDistance(hypot, path, SamplePoint(traj[k])), tol))
  }

  /**
   * `min_distance_to_polyline(sample) <= tol` for every sample. The scan and the
   * coverage count both ask this of a sample; as the answer depends on the
   * sample alone, it is computed once per sample here.
   */
  method NearSamples(hypot: (real, real) -> real, path: seq<Point>, tol: real, traj: seq<TrajectorySample>)
    returns (near: seq<bool>)
    requires IsHypot(hypot)
    ensures near == NearFlags(hypot, path, tol, traj)
  {
    near := [];
    for k := 0 to |traj|
      invariant near == NearFlags(hypot, path, tol, traj)[..k]
    {
      var dist := MinDistanceToPolyline(hypot, SamplePoint(traj[k]), path);
      near := near + [AtMost(dist, tol)];
    }
  }

  /** Distance from sample k-1 to sample k. */
  function Jump(hypot: (real, real) -> real, traj: seq<TrajectorySample>, k: nat): real
    requires 1 <= k < |traj|
  {
    Dist(hypot, SamplePoint(traj[k - 1]), SamplePoint(traj[k]))
  }

  /** `max(0.001, (sample.t - prev.t) / 1000.0)` */
  function StepSeconds(traj: seq<TrajectorySample>, k: nat): (dt: real)
    requires 1 <= k < |traj|
    ensures dt >= 0.001
  {
    Max(0.001, (traj[k].t - traj[k - 1].t) as real / 1000.0)
  }

  datatype ScanState = ScanState(monotonic: bool, jumpsOk: bool, totalSegLen: real, coveredSegLen: real,
                                 speeds: seq<real>, accels: seq<real>)

  /** The loop has left through one of its `break`s. */
  predicate Stopped(s: ScanState)
  {
    !s.monotonic || !s.jumpsOk
  }

  /** Sample k is in time order and within twice the tolerance of sample k-1. */
  predicate StepOk(hypot: (real, real) -> real, traj: seq<TrajectorySample>, tol: real, k: nat)
    requires 1 <= k < |traj|
  {
    traj[k].t > traj[k - 1].t && Jump(hypot, traj, k) <= tol * 2.0
  }

  /** One pass of the loop body for sample k >= 1. */
  function ScanStep(hypot: (real, real) -> real, traj: seq<TrajectorySample>, tol: real, near: seq<bool>,
                    k: nat, s: ScanState): (r: ScanState)
    requires 1 <= k < |traj| && |near| == |traj|
  {
    if traj[k].t <= traj[k - 1].t then ScanState(false, s.jumpsOk, s.totalSegLen, s.coveredSegLen, s.speeds, s.accels)
    else
      var jump := Jump(hypot, traj, k);
      if jump > tol * 2.0 then ScanState(s.monotonic, false, s.totalSegLen, s.coveredSegLen, s.speeds, s.accels)
      else
        var dt := StepSeconds(traj, k);
        var speeds := s.speeds + [jump / dt];
        var accels := if |speeds| > 1 then s.accels + [(speeds[|speeds| - 1] - speeds[|speeds| - 2]) / dt]
                      else s.accels;
        var covered := if near[k] && near[k - 1] then s.coveredSegLen + jump else s.coveredSegLen;
        ScanState(s.monotonic, s.jumpsOk, s.totalSegLen + jump, covered, speeds, accels)
  }

  /** The loop's variables once samples 0 .. n-1 have been seen (sample 0 only sets `last_t`). */
  function ScanUpTo(hypot: (real, real) -> real, traj: seq<TrajectorySample>, tol: real, near: seq<bool>,
                    n: nat): (s: ScanState)
    requires 1 <= n <= |traj| && |near| == |traj|
  {
    if n == 1 then ScanState(true, true, 0.0, 0.0, [], [])
    else
      var s := ScanUpTo(hypot, traj, tol, near, n - 1);
      if Stopped(s) then s else ScanStep(hypot, traj, tol, near, n - 1, s)
  }

  /**
   * One step stops the loop exactly when the sample is out of time order or too
   * far from its predecessor; a fine step records one more speed, adds the jump
   * to the total length, and adds it to the covered length exactly when both
   * samples are near the path; a bad one records nothing.
   */
  lemma ScanStepEffect(hypot: (real, real) -> real, traj: seq<TrajectorySample>, tol: real, near: seq<bool>,
                       k: nat, s: ScanState)
    requires 1 <= k < |traj| && |near| == |traj|
    ensures var r := ScanStep(hypot, traj, tol, near, k, s);
            && (Stopped(r) <==> Stopped(s) || !StepOk(hypot, traj, tol, k))
            && (StepOk(hypot, traj, tol, k) ==> |r.speeds| == |s.speeds| + 1 && s.speeds == r.speeds[..|s.speeds|])
            && (!StepOk(hypot, traj, tol, k) ==> r.speeds == s.speeds && r.totalSegLen == s.totalSegLen
                                                 && r.coveredSegLen == s.coveredSegLen)
            && (r.coveredSegLen == s.coveredSegLen
                || r.coveredSegLen - s.coveredSegLen == r.totalSegLen - s.totalSegLen)
            && (StepOk(hypot, traj, tol, k) ==>
                  && r.totalSegLen == s.totalSegLen + Jump(hypot, traj, k)
                  && r.coveredSegLen == s.coveredSegLen + (if near[k] && near[k - 1] then Jump(hypot, traj, k) else 0.0))
  {
  }

  /** The scan records one speed per step it has taken: n - 1 while it runs, fewer once stopped. */
  lemma {:induction false} ScanSpeedCount(hypot: (real, real) -> real, traj: seq<TrajectorySample>, tol: real,
                                          near: seq<bool>, n: nat)
    requires 1 <= n <= |traj| && |near| == |traj|
    ensures |ScanUpTo(hypot, traj, tol, near, n).speeds| <= n - 1
    ensures !Stopped(ScanUpTo(hypot, traj, tol, near, n)) ==> |ScanUpTo(hypot, traj, tol, near, n).speeds| == n - 1
  {
    if n > 1 {
      ScanSpeedCount(hypot, traj, tol, near, n - 1);
      var s := ScanUpTo(hypot, traj, tol, near, n - 1);
      if !Stopped(s) {
        ScanStepEffect(hypot, traj, tol, near, n - 1, s);
      }
    }
  }

  /** While the loop runs, sample n moves it on by one step. */
  lemma ScanUpToNext(hypot: (real, real) -> real, traj: seq<TrajectorySample>, tol: real, near: seq<bool>, n: nat)
    requires 1 <= n < |traj| && |near| == |traj|
    requires !Stopped(ScanUpTo(hypot, traj, tol, near, n))
    ensures ScanUpTo(hypot, traj, tol, near, n + 1) == ScanStep(hypot, traj, tol, near, n, ScanUpTo(hypot, traj, tol, near, n))
  {
  }

  /** Once the loop has stopped, later samples change nothing. */
  lemma {:induction false} ScanStaysStopped(hypot: (real, real) -> real, traj: seq<TrajectorySample>, tol: real,
                                            near: seq<bool>, n: nat, m: nat)
    requires 1 <= n <= m <= |traj| && |near| == |traj|
    requires Stopped(ScanUpTo(hypot, traj, tol, near, n))
    ensures ScanUpTo(hypot, traj, tol, near, m) == ScanUpTo(hypot, traj, tol, near, n)
  {
    if m > n {
      ScanStaysStopped(hypot, traj, tol, near, n, m - 1);
    }
  }

  /** A sample out of time order ends the scan with `monotonic` cleared and nothing else changed. */
  lemma StopsOutOfOrder(hypot: (real, real) -> real, traj: seq<TrajectorySample>, tol: real, near: seq<bool>, n: nat)
    requires 1 <= n < |traj| && |near| == |traj|
    requires !Stopped(ScanUpTo(hypot, traj, tol, near, n)) && traj[n].t <= traj[n - 1].t
    ensures var s := ScanUpTo(hypot, traj, tol, near, n);
            ScanUpTo(hypot, traj, tol, near, |traj|)
            == ScanState(false, s.jumpsOk, s.totalSegLen, s.coveredSegLen, s.speeds, s.accels)
  {
    ScanUpToNext(hypot, traj, tol, near, n);
    ScanStaysStopped(hypot, traj, tol, near, n + 1, |traj|);
  }

  /** A jump of more than twice the tolerance ends the scan with `jumpsOk` cleared and nothing else changed. */
  lemma StopsOnJump(hypot: (real, real) -> real, traj: seq<TrajectorySample>, tol: real, near: seq<bool>, n: nat)
    requires 1 <= n < |traj| && |near| == |traj|
    requires !Stopped(ScanUpTo(hypot, traj, tol, near, n))
    requires traj[n].t > traj[n - 1].t && Jump(hypot, traj, n) > tol * 2.0
    ensures var s := ScanUpTo(hypot, traj, tol, near, n);
            ScanUpTo(hypot, traj, tol, near, |traj|)
            == ScanState(s.monotonic, false, s.totalSegLen, s.coveredSegLen, s.speeds, s.accels)
  {
    ScanUpToNext(hypot, traj, tol, near, n);
    ScanStaysStopped(hypot, traj, tol, near, n + 1, |traj|);
  }

  /**
   * What the scan accumulates: covered length never exceeds the total, both are
   * non-negative, speeds are non-negative, and there is one acceleration per
   * speed after the first.
   */
  lemma {:induction false} ScanInvariant(hypot: (real, real) -> real, traj: seq<TrajectorySample>, tol: real,
                                         near: seq<bool>, n: nat)
    requires IsHypot(hypot) && 1 <= n <= |traj| && |near| == |traj|
    ensures var s := ScanUpTo(hypot, traj, tol, near, n);
            0.0 <= s.coveredSegLen <= s.totalSegLen
            && (forall i :: 0 <= i < |s.speeds| ==> s.speeds[i] >= 0.0)
            && |s.accels| == (if |s.speeds| == 0 then 0 else |s.speeds| - 1)
  {
    if n > 1 {
      ScanInvariant(hypot, traj, tol, near, n - 1);
      var s := ScanUpTo(hypot, traj, tol, near, n - 1);
      if !Stopped(s) && traj[n - 1].t > traj[n - 2].t && Jump(hypot, traj, n - 1) <= tol * 2.0 {
        var jump := Jump(hypot, traj, n - 1);
        var dt := StepSeconds(traj, n - 1);
        assert jump >= 0.0;
        assert jump / dt >= 0.0;
      }
    }
  }

  /** Every step before sample k is fine. */
  predicate StepsOkBefore(hypot: (real, real) -> real, traj: seq<TrajectorySample>, tol: real, k: nat)
    requires k <= |traj|
  {
    forall j :: 1 <= j < k ==> StepOk(hypot, traj, tol, j)
  }

  /** Sample k is the first bad one, and it is out of time order. */
  predicate FirstBadIsOutOfOrder(hypot: (real, real) -> real, traj: seq<TrajectorySample>, tol: real, k: nat)
    requires 1 <= k < |traj|
  {
    traj[k].t <= traj[k - 1].t && StepsOkBefore(hypot, traj, tol, k)
  }

  /** Sample k is the first bad one, in time order but too far from sample k-1. */
  predicate FirstBadIsJump(hypot: (real, real) -> real, traj: seq<TrajectorySample>, tol: real, k: nat)
    requires 1 <= k < |traj|
  {
    traj[k].t > traj[k - 1].t && !StepOk(hypot, traj, tol, k) && StepsOkBefore(hypot, traj, tol, k)
  }

  /**
   * The scan stops at the first sample that is out of time order or too far
   * from its predecessor, and that sample decides which flag is cleared: the
   * two flags are never both cleared, they are both set exactly when every step
   * is fine, and a cleared flag points at the first bad step.
   */
  lemma {:induction false} ScanFirstFailure(hypot: (real, real) -> real, traj: seq<TrajectorySample>, tol: real,
                                            near: seq<bool>, n: nat)
    requires 1 <= n <= |traj| && |near| == |traj|
    ensures ScanUpTo(hypot, traj, tol, near, n).monotonic || ScanUpTo(hypot, traj, tol, near, n).jumpsOk
    ensures !Stopped(ScanUpTo(hypot, traj, tol, near, n)) <==> StepsOkBefore(hypot, traj, tol, n)
    ensures !ScanUpTo(hypot, traj, tol, near, n).monotonic ==>
            exists k :: 1 <= k < n && FirstBadIsOutOfOrder(hypot, traj, tol, k)
    ensures !ScanUpTo(hypot, traj, tol, near, n).jumpsOk ==>
            exists k :: 1 <= k < n && FirstBadIsJump(hypot, traj, tol, k)
  {
    if n > 1 {
      ScanFirstFailure(hypot, traj, tol, near, n - 1);
      var prev := ScanUpTo(hypot, traj, tol, near, n - 1);
      if Stopped(prev) {
        assert ScanUpTo(hypot, traj, tol, near, n) == prev;
        assert !StepsOkBefore(hypot, traj, tol, n);
      } else if traj[n - 1].t <= traj[n - 2].t {
        assert FirstBadIsOutOfOrder(hypot, traj, tol, n - 1);
        assert !StepOk(hypot, traj, tol, n - 1);
      } else if Jump(hypot, traj, n - 1) > tol * 2.0 {
        assert FirstBadIsJump(hypot, traj, tol, n - 1);
      } else {
        assert StepOk(hypot, traj, tol, n - 1);
      }
    }
  }

  /**
   * The loop body for a sample in time order and within twice the tolerance of
   * its predecessor: the totals, the speed, the acceleration and the covered
   * length are updated.
   */
  method AdvanceScan(hypot: (real, real) -> real, tol: real, traj: seq<TrajectorySample>, near: seq<bool>,
                     idx: nat, st: ScanState) returns (next: ScanState)
    requires 1 <= idx < |traj| && |near| == |traj|
    requires st == ScanUpTo(hypot, traj, tol, near, idx) && !Stopped(st)
    requires traj[idx].t > traj[idx - 1].t && Jump(hypot, traj, idx) <= tol * 2.0
    ensures next == ScanUpTo(hypot, traj, tol, near, idx + 1) && !Stopped(next)
  {
    ScanUpToNext(hypot, traj, tol, near, idx);
    var sample := traj[idx];
    var prev := traj[idx - 1];
    var jumpDist := hypot(sample.x - prev.x, sample.y - prev.y);
    var totalSegLen := st.totalSegLen + jumpDist;
    var dtS := Max(0.001, (sample.t - prev.t) as real / 1000.0);
    var speed := jumpDist / dtS;
    var speeds := st.speeds + [speed];
    var accels := st.accels;
    if |speeds| > 1 {
      accels := accels + [(speeds[|speeds| - 1] - speeds[|speeds| - 2]) / dtS];
    }
    var coveredSegLen := st.coveredSegLen;
    if near[idx] && near[idx - 1] {
      coveredSegLen := coveredSegLen + jumpDist;
    }
    next := ScanState(st.monotonic, st.jumpsOk, totalSegLen, coveredSegLen, speeds, accels);
  }

  /**
   * The scan loop, with both `break`s; its variables are kept together as one
   * `ScanState`. Its pass over sample 0 only sets `last_t`, so it is written
   * before the loop.
   */
  method Scan(hypot: (real, real) -> real, tol: real, traj: seq<TrajectorySample>, near: seq<bool>)
    returns (s: ScanState)
    requires |traj| >= 1 && |near| == |traj|
    ensures s == ScanUpTo(hypot, traj, tol, near, |traj|)
  {
    s := ScanState(true, true, 0.0, 0.0, [], []);
    var lastT := traj[0].t;
    var idx := 1;
    while idx < |traj|
      invariant 1 <= idx <= |traj|
      invariant lastT == traj[idx - 1].t
      invariant s == ScanUpTo(hypot, traj, tol, near, idx) && !Stopped(s)
    {
      var stop;
      s, stop := ScanSample(hypot, tol, traj, near, idx, s, lastT);
      if stop {
        break;
      }
      lastT := traj[idx].t;
      idx := idx + 1;
    }
  }

  /**
   * One pass of the loop body at sample `idx`; `stop` says it left through a
   * `break`, and the state is then the scan's final one.
   */
  method ScanSample(hypot: (real, real) -> real, tol: real, traj: seq<TrajectorySample>, near: seq<bool>,
                    idx: nat, st: ScanState, lastT: int) returns (next: ScanState, stop: bool)
    requires 1 <= idx < |traj| && |near| == |traj| && lastT == traj[idx - 1].t
    requires st == ScanUpTo(hypot, traj, tol, near, idx) && !Stopped(st)
    ensures stop ==> next == ScanUpTo(hypot, traj, tol, near, |traj|)
    ensures !stop ==> next == ScanUpTo(hypot, traj, tol, near, idx + 1) && !Stopped(next)
  {
    var sample := traj[idx];
    var prev := traj[idx - 1];
    if sample.t <= lastT {
      StopsOutOfOrder(hypot, traj, tol, near, idx);
      return ScanState(false, st.jumpsOk, st.totalSegLen, st.coveredSegLen, st.speeds, st.accels), true;
    }
    var jumpDist := hypot(sample.x - prev.x, sample.y - prev.y);
    assert jumpDist == Jump(hypot, traj, idx);
    if jumpDist > tol * 2.0 {
      StopsOnJump(hypot, traj, tol, near, idx);
      return ScanState(st.monotonic, false, st.totalSegLen, st.coveredSegLen, st.speeds, st.accels), true;
    }
    next := AdvanceScan(hypot, tol, traj, near, idx, st);
    stop := false;
  }

  // ---------------------------------------------------------------------------
  // Coverage (lines 231-236)

  /** Number of samples among the first n that are near the path. */
  function HitsUpTo(near: seq<bool>, n: nat): (hits: nat)
    requires n <= |near|
    ensures hits <= n
  {
    if n == 0 then 0 else HitsUpTo(near, n - 1) + (if near[n - 1] then 1 else 0)
  }

  /** The coverage loop: the number of samples near the path. */
  method CoverageHits(near: seq<bool>) returns (hits: nat)
    ensures hits == HitsUpTo(near, |near|)
  {
    hits := 0;
    for k := 0 to |near|
      invariant hits == HitsUpTo(near, k)
    {
      if near[k] {
        hits := hits + 1;
      }
    }
  }

  /** `covered_seg_len / total_seg_len if total_seg_len > 0 else 0.0`, a ratio in [0, 1]. */
  function LengthRatio(covered: real, total: real): (r: real)
    requires 0.0 <= covered <= total
    ensures 0.0 <= r <= 1.0
    ensures total == 0.0 ==> r == 0.0
  {
    if total > 0.0 then UnitFraction(covered, total); covered / total else 0.0
  }

  /** `coverage_hits / len(trajectory)`, a ratio in [0, 1]. */
  function HitRatio(hits: nat, count: nat): (r: real)
    requires 0 < count && hits <= count
    ensures 0.0 <= r <= 1.0
  {
    UnitFraction(hits as real, count as real);
    hits as real / count as real
  }

  // ---------------------------------------------------------------------------
  // _speed_stats (lines 33-48)

  function Sum(xs: seq<real>): real
  {
    if |xs| == 0 then 0.0 else Sum(xs[..|xs| - 1]) + xs[|xs| - 1]
  }

  lemma {:induction false} SumNonNegative(xs: seq<real>)
    requires forall i :: 0 <= i < |xs| ==> xs[i] >= 0.0
    ensures Sum(xs) >= 0.0
  {
    if |xs| > 0 {
      SumNonNegative(xs[..|xs| - 1]);
    }
  }

  lemma {:induction false} SumPositive(xs: seq<real>)
    requires |xs| > 0 && forall i :: 0 <= i < |xs| ==> xs[i] > 0.0
    ensures Sum(xs) > 0.0
  {
    SumNonNegative(xs[..|xs| - 1]);
  }

  /** `(dx * dx + dy * dy) ** 0.5` for segment k */
  function SegmentDist(hypot: (real, real) -> real, traj: seq<TrajectorySample>, k: nat): real
    requires 1 <= k < |traj|
  {
    hypot(traj[k].x - traj[k - 1].x, traj[k].y - traj[k - 1].y)
  }

  /** `max(1, traj[k].t - traj[k-1].t) / 1000.0` */
  function SegmentSeconds(traj: seq<TrajectorySample>, k: nat): (dt: real)
    requires 1 <= k < |traj|
    ensures dt >= 0.001
  {
    (if traj[k].t - traj[k - 1].t >= 1 then traj[k].t - traj[k - 1].t else 1) as real / 1000.0
  }

  /** The `distances` list. */
  function Distances(hypot: (real, real) -> real, traj: seq<TrajectorySample>): (ds: seq<real>)
    ensures |ds| == if |traj| == 0 then 0 else |traj| - 1
  {
    seq(if |traj| == 0 then 0 else |traj| - 1, k requires 0 <= k < |traj| - 1 => SegmentDist(hypot, traj, k + 1))
  }

  /** The `durations` list. */
  function Durations(traj: seq<TrajectorySample>): (ts: seq<real>)
    ensures |ts| == if |traj| == 0 then 0 else |traj| - 1
    ensures forall i :: 0 <= i < |ts| ==> ts[i] >= 0.001
  {
    seq(if |traj| == 0 then 0 else |traj| - 1, k requires 0 <= k < |traj| - 1 => SegmentSeconds(traj, k + 1))
  }

  /** The speed of segment k, distance over duration. */
  function SegmentSpeed(hypot: (real, real) -> real, traj: seq<TrajectorySample>, k: nat): real
    requires 1 <= k < |traj|
  {
    SegmentDist(hypot, traj, k) / SegmentSeconds(traj, k)
  }

  /** `d / t for d, t in zip(distances, durations) if t > 0`; every duration is positive. */
  function Speeds(hypot: (real, real) -> real, traj: seq<TrajectorySample>): (vs: seq<real>)
    ensures |vs| == if |traj| == 0 then 0 else |traj| - 1
  {
    seq(if |traj| == 0 then 0 else |traj| - 1, k requires 0 <= k < |traj| - 1 => SegmentSpeed(hypot, traj, k + 1))
  }

  /** `max(xs[:n])`: it bounds every value and is one of them. */
  function MaxOf(xs: seq<real>, n: nat): (m: real)
    requires 1 <= n <= |xs|
    ensures forall i :: 0 <= i < n ==> xs[i] <= m
    ensures exists i :: 0 <= i < n && xs[i] == m
  {
    if n == 1 then xs[0] else Max(MaxOf(xs, n - 1), xs[n - 1])
  }

  datatype SpeedStats = SpeedStats(meanSpeed: real, maxSpeed: real)

  /** `_speed_stats`: total distance over total time, and the largest segment speed; (0, 0) without segments. */
  function SpeedStatsOf(hypot: (real, real) -> real, traj: seq<TrajectorySample>): (st: SpeedStats)
    ensures |traj| < 2 ==> st == SpeedStats(0.0, 0.0)
  {
    var ds := Distances(hypot, traj);
    var ts := Durations(traj);
    if |ds| == 0 then SpeedStats(0.0, 0.0)
    else
      var totalTime := Sum(ts);
      SpeedStats(if totalTime != 0.0 then Sum(ds) / totalTime else 0.0, MaxOf(Speeds(hypot, traj), |ds|))
  }

  lemma DistancesNonNegative(hypot: (real, real) -> real, traj: seq<TrajectorySample>)
    requires IsHypot(hypot)
    ensures forall i :: 0 <= i < |Distances(hypot, traj)| ==> Distances(hypot, traj)[i] >= 0.0
  {
  }

  /** The mean speed is non-negative: distances are, and every duration is at least 1 ms. */
  lemma MeanSpeedNonNegative(hypot: (real, real) -> real, traj: seq<TrajectorySample>)
    requires IsHypot(hypot)
    ensures SpeedStatsOf(hypot, traj).meanSpeed >= 0.0
  {
    if |traj| >= 2 {
      var ds := Distances(hypot, traj);
      var ts := Durations(traj);
      DistancesNonNegative(hypot, traj);
      SumNonNegative(ds);
      SumPositive(ts);
      assert Sum(ds) / Sum(ts) >= 0.0;
    }
  }

  /** The maximum speed is non-negative. */
  lemma MaxSpeedNonNegative(hypot: (real, real) -> real, traj: seq<TrajectorySample>)
    requires IsHypot(hypot)
    ensures SpeedStatsOf(hypot, traj).maxSpeed >= 0.0
  {
    if |traj| >= 2 {
      var vs := Speeds(hypot, traj);
      assert vs[0] == SegmentDist(hypot, traj, 1) / SegmentSeconds(traj, 1);
      assert vs[0] >= 0.0;
      assert MaxOf(vs, |vs|) >= vs[0];
    }
  }

  /** The maximum speed bounds the speed of every segment and is the speed of one of them. */
  lemma SpeedStatsMax(hypot: (real, real) -> real, traj: seq<TrajectorySample>)
    requires |traj| >= 2
    ensures forall k :: 1 <= k < |traj| ==> SegmentSpeed(hypot, traj, k) <= SpeedStatsOf(hypot, traj).maxSpeed
    ensures exists k :: 1 <= k < |traj| && SegmentSpeed(hypot, traj, k) == SpeedStatsOf(hypot, traj).maxSpeed
  {
    var vs := Speeds(hypot, traj);
    var m := SpeedStatsOf(hypot, traj).maxSpeed;
    assert m == MaxOf(vs, |vs|);
    forall k | 1 <= k < |traj|
      ensures SegmentSpeed(hypot, traj, k) <= m
    {
      assert vs[k - 1] == SegmentSpeed(hypot, traj, k);
    }
    var i :| 0 <= i < |vs| && vs[i] == m;
    assert vs[i] == SegmentSpeed(hypot, traj, i + 1);
  }

  /** `_speed_stats`: the loop building the two lists, then the sums and the maximum. */
  method SpeedStatsLoop(hypot: (real, real) -> real, traj: seq<TrajectorySample>) returns (st: SpeedStats)
    ensures st == SpeedStatsOf(hypot, traj)
  {
    var distances: seq<real> := [];
    var durations: seq<real> := [];
    var i := 1;
    while i < |traj|
      invariant 1 <= i <= |traj| || (|traj| <= 1 && i == 1)
      invariant |distances| == |durations| == i - 1
      invariant distances == Distances(hypot, traj)[..i - 1]
      invariant durations == Durations(traj)[..i - 1]
    {
      var dx := traj[i].x - traj[i - 1].x;
      var dy := traj[i].y - traj[i - 1].y;
      var dt := if traj[i].t - traj[i - 1].t >= 1 then traj[i].t - traj[i - 1].t else 1;
      distances := distances + [hypot(dx, dy)];
      durations := durations + [dt as real / 1000.0];
      i := i + 1;
    }
    if |distances| == 0 {
      return SpeedStats(0.0, 0.0);
    }
    assert distances == Distances(hypot, traj);
    assert durations == Durations(traj);
    var totalDist := Sum(distances);
    var totalTime := Sum(durations);
    var meanSpeed := if totalTime != 0.0 then totalDist / totalTime else 0.0;
    var ratios := seq(|distances|, k requires 0 <= k < |distances| => distances[k] / durations[k]);
    assert ratios == Speeds(hypot, traj);
    st := SpeedStats(meanSpeed, MaxOf(ratios, |ratios|));
  }

  // ---------------------------------------------------------------------------
  // _pause_stats (lines 51-59)

  const PauseGapMs: int := 150

  /** The gaps of at least `gapMs` among the first n - 1 steps, in order. */
  function PausesUpTo(traj: seq<TrajectorySample>, gapMs: int, n: nat): (pauses: seq<int>)
    requires 1 <= n <= |traj| || n <= 1
    ensures |pauses| <= (if n == 0 then 0 else n - 1)
    ensures forall i :: 0 <= i < |pauses| ==> pauses[i] >= gapMs
  {
    if n <= 1 then []
    else
      var gap := traj[n - 1].t - traj[n - 2].t;
      PausesUpTo(traj, gapMs, n - 1) + (if gap >= gapMs then [gap] else [])
  }

  /** `_pause_stats`: the count always equals the length of the list. */
  method PauseStats(traj: seq<TrajectorySample>, gapMs: int) returns (count: nat, pauses: seq<int>)
    ensures pauses == PausesUpTo(traj, gapMs, |traj|)
    ensures count == |pauses|
  {
    pauses := [];
    count := 0;
    var i := 1;
    while i < |traj|
      invariant 1 <= i <= |traj| || (|traj| <= 1 && i == 1)
      invariant pauses == PausesUpTo(traj, gapMs, i) && count == |pauses|
    {
      var gap := traj[i].t - traj[i - 1].t;
      if gap >= gapMs {
        count := count + 1;
        pauses := pauses + [gap];
      }
      i := i + 1;
    }
  }

  // ---------------------------------------------------------------------------
  // Behavioural flags (lines 255-266)

  /** `sum((s - mean) ** 2 for s in xs)` */
  function SumSquaredDeviation(xs: seq<real>, mean: real): real
  {
    if |xs| == 0 then 0.0 else SumSquaredDeviation(xs[..|xs| - 1], mean) + Sq(xs[|xs| - 1] - mean)
  }

  function Mean(xs: seq<real>): real
    requires |xs| > 0
  {
    Sum(xs) / |xs| as real
  }

  /**
   * `std_s / mean_s < SPEED_CONSTANTITY_RATIO` for a non-zero mean. With
   * std_s = var_s ** 0.5 >= 0 it holds exactly when the mean is negative or
   * var_s < (ratio * mean_s) ** 2.
   */
  predicate BelowConstancyRatio(variance: real, mean: real)
    requires mean != 0.0
  {
    mean < 0.0 || variance < Sq(Config.SpeedConstancyRatio * mean)
  }

  /**
   * With `std` the non-negative square root of the variance, the comparison
   * without a root agrees with `std / mean < SPEED_CONSTANTITY_RATIO`.
   */
  lemma ConstancyRatioWithoutRoot(variance: real, mean: real, std: real)
    requires mean != 0.0 && std >= 0.0 && std * std == variance
    ensures BelowConstancyRatio(variance, mean) <==> std / mean < Config.SpeedConstancyRatio
  {
    if mean < 0.0 {
      assert std / mean <= 0.0;
    } else {
      var c := Config.SpeedConstancyRatio * mean;
      DivBelow(std, mean, Config.SpeedConstancyRatio);
      SquareMonotone(std, c);
      assert Sq(std) == std * std;
    }
  }

  /** For a positive divisor, `a / m < r` exactly when `a < r * m`. */
  lemma DivBelow(a: real, m: real, r: real)
    requires m > 0.0
    ensures a / m < r <==> a < r * m
  {
    var q := a / m;
    assert q * m == a;
    if q < r {
      assert q * m < r * m;
    } else {
      assert q * m >= r * m;
    }
  }

  /** Squaring preserves the order of non-negative reals. */
  lemma SquareMonotone(x: real, y: real)
    requires x >= 0.0 && y >= 0.0
    ensures x < y <==> Sq(x) < Sq(y)
  {
    if x < y {
      MulMonotone(x, x, y);
      MulMonotone(y, x, y);
      assert x * y < y * y by {
        assert (y - x) * y > 0.0;
      }
    } else {
      MulMonotone(y, y, x);
      MulMonotone(x, y, x);
    }
  }

  /** Multiplying by a non-negative factor keeps the order. */
  lemma MulMonotone(k: real, a: real, b: real)
    requires k >= 0.0 && a <= b
    ensures k * a <= k * b && a * k <= b * k
  {
    assert k * (b - a) >= 0.0;
  }

  datatype Crash = ZeroDivision

  /**
   * Lines 257-262 as written: the guard tests `mean_speed` of the whole
   * trajectory, but the division is by the mean of the scan's `speeds`, which
   * can be 0 when the scan stopped early after stationary samples.
   */
  function SpeedConstancyAsWritten(speeds: seq<real>, meanSpeed: real): (r: Result<bool, Crash>)
    ensures r.Err? <==> |speeds| > 0 && meanSpeed > 0.0 && Sum(speeds) == 0.0
  {
    if |speeds| > 0 && meanSpeed > 0.0 then
      var m := Mean(speeds);
      if m == 0.0 then Err(ZeroDivision)
      else Ok(BelowConstancyRatio(SumSquaredDeviation(speeds, m) / |speeds| as real, m))
    else Ok(false)
  }

  /** The speed-constancy flag with the division guarded by the mean it divides by. */
  function SpeedConstancy(speeds: seq<real>, meanSpeed: real): (flag: bool)
    ensures flag ==> |speeds| > 0 && meanSpeed > 0.0 && Sum(speeds) != 0.0
  {
    if |speeds| > 0 && meanSpeed > 0.0 && Mean(speeds) != 0.0 then
      var m := Mean(speeds);
      BelowConstancyRatio(SumSquaredDeviation(speeds, m) / |speeds| as real, m)
    else false
  }

  /** Wherever the code as written yields a flag, the guarded version yields the same flag. */
  lemma SpeedConstancyAgrees(speeds: seq<real>, meanSpeed: real)
    ensures SpeedConstancyAsWritten(speeds, meanSpeed).Ok? ==>
            SpeedConstancy(speeds, meanSpeed) == SpeedConstancyAsWritten(speeds, meanSpeed).value
    ensures SpeedConstancyAsWritten(speeds, meanSpeed).Err? ==> !SpeedConstancy(speeds, meanSpeed)
  {
  }

  function Abs(x: real): real
  {
    if x < 0.0 then -x else x
  }

  /** `max(abs(a) for a in xs)` over the first n values. */
  function MaxAbs(xs: seq<real>, n: nat): (m: real)
    requires 1 <= n <= |xs|
    ensures forall i :: 0 <= i < n ==> Abs(xs[i]) <= m
    ensures exists i :: 0 <= i < n && Abs(xs[i]) == m
  {
    if n == 1 then Abs(xs[0]) else Max(MaxAbs(xs, n - 1), Abs(xs[n - 1]))
  }

  /** The acceleration flag: some acceleration exceeds MAX_ACCEL_PX_PER_S2 in size. */
  function AccelFlag(accels: seq<real>): (flag: bool)
    ensures flag <==> exists i :: 0 <= i < |accels| && Abs(accels[i]) > Config.MaxAccelPxPerS2
  {
    |accels| > 0 && MaxAbs(accels, |accels|) > Config.MaxAccelPxPerS2
  }

  // ---------------------------------------------------------------------------
  // The reason cascade (lines 268-296)

  datatype Reason = InsufficientSamples | NonMonotonicTime | JumpDetected | LowCoverage | Incomplete
                  | Timeout | TooFast | Success | SuccessWithBehaviouralFlag

  /** The reason string of the response. */
  function ReasonName(r: Reason): (name: string)
    ensures |name| >= 7
  {
    match r
    case InsufficientSamples => "insufficient_samples"
    case NonMonotonicTime => "non_monotonic_time"
    case JumpDetected => "jump_detected"
    case LowCoverage => "low_coverage"
    case Incomplete => "incomplete"
    case Timeout => "timeout"
    case TooFast => "too_fast"
    case Success => "success"
    case SuccessWithBehaviouralFlag => "success_with_behavioural_flag"
  }

  /** Distinct reasons are reported under distinct strings. */
  lemma ReasonNameInjective(a: Reason, b: Reason)
    ensures ReasonName(a) == ReasonName(b) ==> a == b
  {
  }

  /** Exactly the two passing reasons are reported under strings that begin with `success`. */
  lemma ReasonNameSuccessPrefix(r: Reason)
    ensures r == Success || r == SuccessWithBehaviouralFlag <==> ReasonName(r)[..7] == "success"
  {
    var name := ReasonName(r);
    if r != Success && r != SuccessWithBehaviouralFlag {
      assert name[0] != 's';
    }
  }

  /** The facts the cascade tests, in its order. */
  datatype Signals = Signals(minSamples: bool, monotonic: bool, jumpsOk: bool, coverageLenRatio: real,
                             coverageRatio: real, endReached: bool, ttlExpired: bool, tooFast: bool,
                             behaviouralFlag: bool)

  predicate CoverageOk(s: Signals)
  {
    s.coverageLenRatio >= Config.RequiredCoverageRatio && s.coverageRatio >= Config.RequiredCoverageRatio
  }

  /** Every blocking check passes; the behavioural flag is not among them. */
  predicate AllChecksPass(s: Signals)
  {
    s.minSamples && s.monotonic && s.jumpsOk && CoverageOk(s) && s.endReached && !s.ttlExpired && !s.tooFast
  }

  datatype Decision = Decision(reason: Reason, passed: bool)

  /**
   * The cascade: the first failing check names the reason, in the order
   * insufficient_samples, non_monotonic_time, jump_detected, low_coverage (length
   * ratio, then hit ratio), incomplete, timeout, too_fast; `passed` holds exactly
   * when every check passes, and the behavioural flag then only picks the
   * success reason.
   */
  function Decide(s: Signals): (d: Decision)
    ensures d.passed <==> AllChecksPass(s)
    ensures d.passed <==> d.reason == Success || d.reason == SuccessWithBehaviouralFlag
    ensures d.reason == InsufficientSamples <==> !s.minSamples
    ensures d.reason == NonMonotonicTime <==> s.minSamples && !s.monotonic
    ensures d.reason == JumpDetected <==> s.minSamples && s.monotonic && !s.jumpsOk
    ensures d.reason == LowCoverage <==> s.minSamples && s.monotonic && s.jumpsOk && !CoverageOk(s)
    ensures d.reason == Incomplete <==> s.minSamples && s.monotonic && s.jumpsOk && CoverageOk(s) && !s.endReached
    ensures d.reason == Timeout <==>
            s.minSamples && s.monotonic && s.jumpsOk && CoverageOk(s) && s.endReached && s.ttlExpired
    ensures d.reason == TooFast <==>
            s.minSamples && s.monotonic && s.jumpsOk && CoverageOk(s) && s.endReached && !s.ttlExpired && s.tooFast
    ensures d.passed ==> (d.reason == SuccessWithBehaviouralFlag <==> s.behaviouralFlag)
  {
    if !s.minSamples then Decision(InsufficientSamples, false)
    else if !s.monotonic then Decision(NonMonotonicTime, false)
    else if !s.jumpsOk then Decision(JumpDetected, false)
    else if s.coverageLenRatio < Config.RequiredCoverageRatio then Decision(LowCoverage, false)
    else if s.coverageRatio < Config.RequiredCoverageRatio then Decision(LowCoverage, false)
    else if !s.endReached then Decision(Incomplete, false)
    else if s.ttlExpired then Decision(Timeout, false)
    else if s.tooFast then Decision(TooFast, false)
    else Decision(if !s.behaviouralFlag then Success else SuccessWithBehaviouralFlag, true)
  }

  /** The behavioural flag never changes whether an attempt passes. */
  lemma BehaviouralFlagNeverBlocks(s: Signals, flag: bool)
    ensures Decide(s.(behaviouralFlag := flag)).passed == Decide(s).passed
  {
  }

  // ---------------------------------------------------------------------------
  // The whole verifier

  datatype Outcome = Outcome(
    reason: Reason,
    passed: bool,
    coverageRatio: real,
    coverageLenRatio: real,
    durationMs: int,
    ttlExpired: bool,
    tooFast: bool,
    speedConstFlag: bool,
    accelFlag: bool,
    behaviouralFlag: bool,
    speedStats: SpeedStats,
    pauseCount: nat,
    pauses: seq<int>)

  /** Everything the verifier measures before the speed-constancy flag. */
  datatype Measures = Measures(scan: ScanState, hits: nat, stats: SpeedStats, pauses: seq<int>)

  function Measure(hypot: (real, real) -> real, path: seq<Point>, tol: real, traj: seq<TrajectorySample>)
    : (m: Measures)
    requires IsHypot(hypot) && |traj| >= 2
    ensures m.hits <= |traj|
    ensures 0.0 <= m.scan.coveredSegLen <= m.scan.totalSegLen
  {
    var near := NearFlags(hypot, path, tol, traj);
    ScanInvariant(hypot, traj, tol, near, |traj|);
    Measures(ScanUpTo(hypot, traj, tol, near, |traj|), HitsUpTo(near, |traj|), SpeedStatsOf(hypot, traj),
             PausesUpTo(traj, PauseGapMs, |traj|))
  }

  /** The outcome once the speed-constancy flag is known. */
  function Assemble(hypot: (real, real) -> real, path: seq<Point>, tol: real, traj: seq<TrajectorySample>,
                    now: real, expiresAt: real, m: Measures, speedConstFlag: bool): (o: Outcome)
    requires |path| >= 1 && |traj| >= 2 && m.hits <= |traj|
    requires 0.0 <= m.scan.coveredSegLen <= m.scan.totalSegLen
    ensures 0.0 <= o.coverageRatio <= 1.0 && 0.0 <= o.coverageLenRatio <= 1.0
    ensures o.passed <==> o.reason == Success || o.reason == SuccessWithBehaviouralFlag
    ensures o.ttlExpired <==> now > expiresAt
    ensures o.tooFast <==> traj[|traj| - 1].t - traj[0].t < Config.TooFastThresholdMs
    ensures o.behaviouralFlag <==> speedConstFlag || o.accelFlag
    ensures o.pauseCount == |o.pauses|
    ensures o.passed ==> PassConditions(traj, o)
  {
    var durationMs := traj[|traj| - 1].t - traj[0].t;
    var endDistance := Dist(hypot, path[|path| - 1], SamplePoint(traj[|traj| - 1]));
    var accelFlag := AccelFlag(m.scan.accels);
    var behavioural := speedConstFlag || accelFlag;
    var signals := Signals(|traj| >= Config.MinSamples, m.scan.monotonic, m.scan.jumpsOk,
                           LengthRatio(m.scan.coveredSegLen, m.scan.totalSegLen), HitRatio(m.hits, |traj|),
                           endDistance <= tol, now > expiresAt, durationMs < Config.TooFastThresholdMs,
                           behavioural);
    var d := Decide(signals);
    Outcome(d.reason, d.passed, signals.coverageRatio, signals.coverageLenRatio, durationMs, signals.ttlExpired,
            signals.tooFast, speedConstFlag, accelFlag, behavioural, m.stats, |m.pauses|, m.pauses)
  }

  /** What every passing attempt has: enough samples, both coverage ratios at 0.75, on time, not too fast. */
  predicate PassConditions(traj: seq<TrajectorySample>, o: Outcome)
  {
    && |traj| >= Config.MinSamples
    && o.coverageRatio >= Config.RequiredCoverageRatio && o.coverageLenRatio >= Config.RequiredCoverageRatio
    && !o.ttlExpired && !o.tooFast && o.durationMs >= Config.TooFastThresholdMs
  }

  /** `verify_attempt` from the tolerance on, with the guarded speed-constancy flag. */
  function Evaluate(hypot: (real, real) -> real, path: seq<Point>, tol: real, traj: seq<TrajectorySample>,
                    now: real, expiresAt: real): (o: Outcome)
    requires IsHypot(hypot) && |path| >= 1 && |traj| >= 2
    ensures 0.0 <= o.coverageRatio <= 1.0 && 0.0 <= o.coverageLenRatio <= 1.0
    ensures o.passed <==> o.reason == Success || o.reason == SuccessWithBehaviouralFlag
    ensures o.ttlExpired <==> now > expiresAt
    ensures o.passed ==> PassConditions(traj, o)
  {
    var m := Measure(hypot, path, tol, traj);
    Assemble(hypot, path, tol, traj, now, expiresAt, m, SpeedConstancy(m.scan.speeds, m.stats.meanSpeed))
  }

  /**
   * What a passing attempt needs: at least MIN_SAMPLES samples, every step in
   * time order and within twice the tolerance, both coverage ratios at 0.75 or
   * more, the last sample within the tolerance of the path's end, a challenge
   * not past its expiry and a trace of at least a second.
   */
  predicate AcceptanceConditions(hypot: (real, real) -> real, path: seq<Point>, tol: real,
                                 traj: seq<TrajectorySample>, now: real, expiresAt: real, o: Outcome)
    requires |path| >= 1 && |traj| >= 2
  {
    && |traj| >= Config.MinSamples
    && StepsOkBefore(hypot, traj, tol, |traj|)
    && o.coverageLenRatio >= Config.RequiredCoverageRatio
    && o.coverageRatio >= Config.RequiredCoverageRatio
    && Dist(hypot, path[|path| - 1], SamplePoint(traj[|traj| - 1])) <= tol
    && now <= expiresAt
    && traj[|traj| - 1].t - traj[0].t >= Config.TooFastThresholdMs
  }

  /** `coverage_len_ratio`: the length the scan covered near the path over the length it walked. */
  function LengthCoverage(hypot: (real, real) -> real, path: seq<Point>, tol: real, traj: seq<TrajectorySample>)
    : (r: real)
    requires IsHypot(hypot) && |traj| >= 2
    ensures 0.0 <= r <= 1.0
  {
    var near := NearFlags(hypot, path, tol, traj);
    ScanInvariant(hypot, traj, tol, near, |traj|);
    var s := ScanUpTo(hypot, traj, tol, near, |traj|);
    LengthRatio(s.coveredSegLen, s.totalSegLen)
  }

  /**
   * An attempt passes exactly when it meets `AcceptanceConditions`. The length
   * ratio is the scan's covered length over its total, the hit ratio is the
   * share of samples within the tolerance of the path, and the duration is the
   * time from the first sample to the last.
   */
  lemma EvaluatePassIff(hypot: (real, real) -> real, path: seq<Point>, tol: real, traj: seq<TrajectorySample>,
                        now: real, expiresAt: real)
    requires IsHypot(hypot) && |path| >= 1 && |traj| >= 2
    ensures var o := Evaluate(hypot, path, tol, traj, now, expiresAt);
            && o.coverageLenRatio == LengthCoverage(hypot, path, tol, traj)
            && o.coverageRatio == HitRatio(HitsUpTo(NearFlags(hypot, path, tol, traj), |traj|), |traj|)
            && o.durationMs == traj[|traj| - 1].t - traj[0].t
            && (o.passed <==> AcceptanceConditions(hypot, path, tol, traj, now, expiresAt, o))
  {
    ScanFirstFailure(hypot, traj, tol, NearFlags(hypot, path, tol, traj), |traj|);
  }

  /** `verify_attempt` as written: it raises ZeroDivisionError where the unguarded division fails. */
  function EvaluateAsWritten(hypot: (real, real) -> real, path: seq<Point>, tol: real, traj: seq<TrajectorySample>,
                             now: real, expiresAt: real): (r: Result<Outcome, Crash>)
    requires IsHypot(hypot) && |path| >= 1 && |traj| >= 2
    ensures var m := Measure(hypot, path, tol, traj);
            r.Err? <==> |m.scan.speeds| > 0 && m.stats.meanSpeed > 0.0 && Sum(m.scan.speeds) == 0.0
  {
    var m := Measure(hypot, path, tol, traj);
    match SpeedConstancyAsWritten(m.scan.speeds, m.stats.meanSpeed)
    case Err(e) => Err(e)
    case Ok(flag) => Ok(Assemble(hypot, path, tol, traj, now, expiresAt, m, flag))
  }

  /** Where the code as written returns an outcome, the guarded verifier returns the same one. */
  lemma EvaluateAgrees(hypot: (real, real) -> real, path: seq<Point>, tol: real, traj: seq<TrajectorySample>,
                       now: real, expiresAt: real)
    requires IsHypot(hypot) && |path| >= 1 && |traj| >= 2
    ensures EvaluateAsWritten(hypot, path, tol, traj, now, expiresAt).Ok? ==>
            EvaluateAsWritten(hypot, path, tol, traj, now, expiresAt).value
            == Evaluate(hypot, path, tol, traj, now, expiresAt)
  {
    var m := Measure(hypot, path, tol, traj);
    SpeedConstancyAgrees(m.scan.speeds, m.stats.meanSpeed);
  }

  /**
   * A trajectory that stays put for one step and then jumps 100 px: the scan
   * stops at the jump with `speeds == [0.0]`, while the whole-trajectory mean
   * speed is positive, so the code as written divides by zero.
   */
  const StallThenJump: seq<TrajectorySample> :=
    [TrajectorySample(0.0, 0.0, 0), TrajectorySample(0.0, 0.0, 10), TrajectorySample(100.0, 0.0, 20)]

  /** On `StallThenJump` the scan keeps the speed of the stationary step only. */
  lemma StallThenJumpScan(hypot: (real, real) -> real, path: seq<Point>, tol: real)
    requires IsHypot(hypot) && hypot(100.0, 0.0) == 100.0 && tol == 20.0
    ensures ScanUpTo(hypot, StallThenJump, tol, NearFlags(hypot, path, tol, StallThenJump), 3).speeds == [0.0]
  {
    var traj := StallThenJump;
    var near := NearFlags(hypot, path, tol, traj);
    assert Jump(hypot, traj, 1) == 0.0;
    assert Jump(hypot, traj, 2) == 100.0;
    var s0 := ScanUpTo(hypot, traj, tol, near, 1);
    var s1 := ScanUpTo(hypot, traj, tol, near, 2);
    assert s1 == ScanStep(hypot, traj, tol, near, 1, s0);
    assert s1.speeds == [0.0];
    assert ScanUpTo(hypot, traj, tol, near, 3) == ScanStep(hypot, traj, tol, near, 2, s1);
  }

  /** On `StallThenJump` the whole-trajectory mean speed is 100 px over 0.02 s. */
  lemma StallThenJumpMeanSpeed(hypot: (real, real) -> real)
    requires IsHypot(hypot) && hypot(100.0, 0.0) == 100.0
    ensures SpeedStatsOf(hypot, StallThenJump).meanSpeed == 5000.0
  {
    var traj := StallThenJump;
    var ds := Distances(hypot, traj);
    var ts := Durations(traj);
    assert ds == [0.0, 100.0];
    assert ts == [0.01, 0.01];
    assert ds[..1] == [0.0] && ts[..1] == [0.01];
    assert Sum([0.0]) == 0.0 && Sum([0.01]) == 0.01 by {
      assert [0.0][..0] == [] && [0.01][..0] == [];
    }
  }

  lemma EvaluateAsWrittenCrashes(hypot: (real, real) -> real, path: seq<Point>, now: real, expiresAt: real)
    requires IsHypot(hypot) && hypot(100.0, 0.0) == 100.0 && |path| >= 1
    ensures EvaluateAsWritten(hypot, path, 20.0, StallThenJump, now, expiresAt) == Err(ZeroDivision)
  {
    StallThenJumpScan(hypot, path, 20.0);
    StallThenJumpMeanSpeed(hypot);
    var m := Measure(hypot, path, 20.0, StallThenJump);
    assert m.scan.speeds == [0.0];
    assert Sum(m.scan.speeds) == 0.0 by {
      assert [0.0][..0] == [];
    }
  }

  /** The imperative verifier: the loops of lines 199-253 and the cascade. */
  method VerifyTrajectory(hypot: (real, real) -> real, path: seq<Point>, tol: real, traj: seq<TrajectorySample>,
                          now: real, expiresAt: real) returns (o: Outcome)
    requires IsHypot(hypot) && |path| >= 1 && |traj| >= 2
    ensures o == Evaluate(hypot, path, tol, traj, now, expiresAt)
  {
    var near := NearSamples(hypot, path, tol, traj);
    var scan := Scan(hypot, tol, traj, near);
    var hits := CoverageHits(near);
    var stats := SpeedStatsLoop(hypot, traj);
    var pauseCount, pauses := PauseStats(traj, PauseGapMs);
    var m := Measures(scan, hits, stats, pauses);
    assert m == Measure(hypot, path, tol, traj);
    var speedConstFlag := false;
    if |scan.speeds| > 0 && stats.meanSpeed > 0.0 {
      var meanS := Sum(scan.speeds) / |scan.speeds| as real;
      if meanS != 0.0 {
        var varS := SumSquaredDeviation(scan.speeds, meanS) / |scan.speeds| as real;
        speedConstFlag := BelowConstancyRatio(varS, meanS);
      }
    }
    o := Assemble(hypot, path, tol, traj, now, expiresAt, m, speedConstFlag);
  }
}
