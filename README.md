# Line-trace CAPTCHA backend: a Dafny model

The backend this project models works like this:

- It issues a challenge. A challenge is a smooth cubic-Bézier path of 80 sampled points on a 400 × 400 canvas, signed into an HMAC token.
- While the user traces, it lets the client peek at a short window of the path around the cursor.
- At the end it scores the traced trajectory once:
  - the scan checks timestamps and jumps, and measures covered length;
  - it computes sample coverage, end reach, duration and expiry;
  - it computes behavioural speed and acceleration flags;
  - a fixed reason cascade decides the outcome.
- Scoring marks the challenge used, so it can never be replayed. The one exception is the crash listed under "## Findings": there the source answers 500 before it marks the challenge used.

Modules:

- `Geometry` (`geometry.dfy`) holds the polyline geometry of `backend/path.py`:
  - Bézier points, arc length and cumulative lengths;
  - projection onto the nearest segment;
  - arc-length window sampling and `lookahead`;
  - `distance_to_end` and `min_distance_to_polyline`.
- `PathGen` (`pathgen.dfy`) holds the seeded path generator and its retry loop.
- `Models` (`models.dfy`) holds the request and response records of `backend/models.py` and the trajectory validator.
- `Token` (`token.dfy`) holds the token format of `backend/token.py`:
  - unpadded base64url (RFC 4648, section 5);
  - a `msg.sig` string signed with HMAC-SHA256 (RFC 2104).
- `Verifier` (`verifier.dfy`) holds the scoring of `verify_attempt` and its helpers `_challenge_tolerance`, `_speed_stats` and `_pause_stats` in `backend/main.py`.
- `Lifecycle` (`lifecycle.dfy`) holds the handlers `new_challenge`, `peek_path` and `verify_attempt` over a class `ChallengeStore` that keeps the challenge records.
- `Config` (`config.dfy`) holds the constants of `backend/config.py`. It also takes three constants from `src/line_captcha/config.ts` that the Python configuration lacks: 20 minimum samples, a 0.08 speed-constancy ratio and 12000 px/s² maximum acceleration.
- `Wrappers` (`wrappers.dfy`) holds `Option` and `Result`.

Each loop of the source is a `method` whose `ensures` ties its result to a recursive specification function. The properties are proved about those functions:

| source loop | method |
|---|---|
| `_approx_length` | `ApproxLength` |
| `_cumulative_lengths` | `CumulativeLengths` |
| `_nearest_position` | `NearestPosition` |
| `_sample_between` | `SampleBetween` |
| `min_distance_to_polyline` | `MinDistanceToPolyline` |
| `generate_path` | `GeneratePath` |
| the verify scan | `Scan` |
| the coverage loop | `CoverageHits` |
| `_speed_stats` | `SpeedStatsLoop` |
| `_pause_stats` | `PauseStats` |

The store is a class whose methods are proved equal to the functions `NewResult`, `PeekResult` and `VerifyResult`. Those functions carry the status codes and the single-use guarantee.

Parameters stand in for what the model cannot compute:

- `math.hypot` and `** 0.5` are a parameter `hypot`, constrained by `Geometry.IsHypot`: the result is never negative, and the zero displacement has length 0.
- The random stream of `random.Random(seed)` is `drawOf(seed): nat -> real`, so equal seeds give equal streams and equal paths.
- HMAC, the base64 library and JSON are fields of `Token.Primitives`. `Token.Lawful` states what base64 must satisfy: padded output that decodes back. `Token.JsonRoundTrips` asks the JSON round trip of each signed payload separately.
- The clock, the uuids, the tolerance jitters, the signing key and the finish-reveal radius are parameters.

## Model

| member | source | states |
|---|---|---|
| Geometry.DistSelf | backend/path.py:21-27 | the distance from a point to itself is 0 |
| Geometry.Clamp01 | backend/path.py:53 | `max(0, min(1, v))` lies in [0,1] and leaves a value already in [0,1] unchanged |
| Geometry.BezierPoint | backend/path.py:10-18 | the cubic Bézier point is p0 at t = 0 and p3 at t = 1 |
| Geometry.Interp | backend/path.py:64-65 | interpolation gives p1 at alpha 0 and p2 at alpha 1 |
| Geometry.LengthUpTo | backend/path.py:21-27 | the length of a prefix of the polyline is non-negative |
| Geometry.PolylineLength | backend/path.py:21-27 | the polyline length is non-negative |
| Geometry.LengthUpToMonotone | backend/path.py:21-27 | a longer prefix never has a shorter length |
| Geometry.ApproxLength | backend/path.py:21-27 | the accumulating loop returns the polyline length |
| Geometry.CumulativeUpTo | backend/path.py:30-36 | entry k of a cumulative prefix is the length of the first k+1 points, starting at 0 |
| Geometry.Cumulative | backend/path.py:30-36 | one entry per point, starting at 0, each entry the prefix length, the last entry equal to the polyline length |
| Geometry.CumulativeNonDecreasing | backend/path.py:30-36 | cumulative lengths never decrease |
| Geometry.CumulativeStep | backend/path.py:35 | each cumulative entry is the previous one plus the segment's length |
| Geometry.CumulativeLengths | backend/path.py:30-36 | the appending loop returns exactly the cumulative lengths |
| Geometry.ProjectOntoSegment | backend/path.py:44-55 | the projection parameter is clamped to [0,1], and the foot is the interpolated point at that parameter |
| Geometry.ProjectionRatioAtEnds | backend/path.py:48-52 | the unclamped projection parameter is 0 for a zero-length segment and at the segment's start, and 1 at its end |
| Geometry.SegmentCandidate | backend/path.py:44-60 | a segment's candidate distance is non-negative and its arc position lies within that segment's arc span |
| Geometry.Along | backend/path.py:60 | `proj * seg_len` lies between 0 and the segment length |
| Geometry.Candidates | backend/path.py:43 | one candidate per segment |
| Geometry.ClosestUpTo | backend/path.py:40-61 | the best distance is infinite exactly when no segment has been examined, and the chosen segment is one of those examined |
| Geometry.ClosestUpToIsArgmin | backend/path.py:57-60 | the chosen candidate is at most every examined distance and strictly below every earlier one (ties keep the earliest segment); it starts as `(0, points[0])` |
| Geometry.ClosestOnPath | backend/path.py:39-61 | a single-point polyline yields position 0 and `points[0]`; otherwise a real segment is chosen |
| Geometry.ClosestOnPathIsCandidate | backend/path.py:57-60 | the result is exactly the chosen segment's distance, position and point |
| Geometry.ClosestOnPathIsNearest | backend/path.py:57-60 | no segment is closer, and every segment before the chosen one is strictly farther |
| Geometry.NearestPositionInRange | backend/path.py:39-61 | the returned arc position lies in [0, total length] |
| Geometry.NearestPosition | backend/path.py:39-61 | the loop returns the position and point of the nearest projection |
| Geometry.Sample | backend/path.py:68-94 | the window sample is never empty and is exactly `[points[0]]` when end <= 0 |
| Geometry.SegmentWindow | backend/path.py:76-91 | one segment adds nothing exactly when it lies before the start, after the end or has zero length; otherwise it keeps the earlier output as a prefix and adds one or two points |
| Geometry.SampleUpTo | backend/path.py:75-91 | the first n segments emit at most two points each |
| Geometry.ClampedStart | backend/path.py:72 | the clamped start is non-negative, at most the total length, and the start itself when that already lies in [0, total] |
| Geometry.ClampedEnd | backend/path.py:73 | the clamped end is at least the clamped start, at most the total length, and the end itself when that already lies between the clamped start and the total |
| Geometry.CumulativeIsNonDecreasing | backend/path.py:30-36 | the cumulative-length sequence is sorted |
| Geometry.SampleUpToInWindow | backend/path.py:75-91 | every point emitted by the first segments lies on the path between the clamped start and end arc positions |
| Geometry.SampleInWindow | backend/path.py:68-94 | every point of the window lies on the path between `max(0, min(start, total))` and `max(start', min(end, total))` |
| Geometry.SampleUpToEmpty | backend/path.py:79-80 | no output means every segment so far lies before the start or has zero length |
| Geometry.SampleBetween | backend/path.py:68-94 | the loop returns exactly the window sample, skipping zero-length segments and repeated start points |
| Geometry.Lookahead | backend/path.py:97-107 | the look-ahead window is never empty |
| Geometry.LookaheadWindow | backend/path.py:97-107 | every look-ahead point lies on the path within [pos − behind, pos + ahead] of the cursor's projection, clamped to the path |
| Geometry.SampleAroundInWindow | backend/path.py:103-107 | the window around a position in [0, total] holds every sampled point, clipped to [0, total] |
| Geometry.DistanceToEnd | backend/path.py:173-179 | the distance to the end lies in [0, path length] and is the path length minus the projection's arc position |
| Geometry.SegmentDistance | backend/path.py:160-167 | a point-to-segment distance is non-negative |
| Geometry.SegmentDistanceIsProjection | backend/path.py:160-167 | the segment distance is the distance to the clamped projection foot, and to the vertex for a zero-length segment |
| Geometry.SegmentDistanceOnSegment | backend/path.py:160-167 | a point on a segment is at distance 0 from it |
| Geometry.SegmentDistances | backend/path.py:155 | one distance per segment |
| Geometry.MinUpTo | backend/path.py:154-169 | the running minimum is infinite exactly before any segment |
| Geometry.MinUpToIsMinimum | backend/path.py:168-169 | the running minimum is at most every examined distance and equals one of them |
| Geometry.MinDistance | backend/path.py:149-170 | the minimum distance is +∞ exactly for a polyline with fewer than 2 points |
| Geometry.MinDistanceIsMinimum | backend/path.py:149-170 | the minimum distance is at most every segment's distance and is attained by one segment |
| Geometry.MinDistanceZeroOnPath | backend/path.py:149-170 | a point lying on a segment of the path is at distance 0 |
| Geometry.MinDistanceZeroAtVertex | backend/path.py:149-170 | a vertex of the path is at distance 0 |
| Geometry.KeepCloser | backend/path.py:156-169 | one pass replaces the running minimum with segment i's distance exactly when that is strictly smaller |
| Geometry.MinDistanceToPolyline | backend/path.py:149-170 | the loop returns the minimum distance |
| PathGen.CanvasBounds | backend/path.py:119-127 | the sampling bounds for the 400 px canvas with a 60 px margin are 60, 120, 280 and 340 |
| PathGen.UniformWithin | backend/path.py:121-135 | `uniform(lo, hi)` lies in [lo, hi] for a stream value in [0, 1) |
| PathGen.AttemptControlsInCanvas | backend/path.py:119-137 | with stream values in [0, 1), p0 lies in [60, 120] × [60, 280] and p3 in [280, 340] × [60, 280]; p1 lies 60 to 120 px right of p0 and at most 80 px above or below it; p2 lies 60 to 120 px left of p3, bent back by half of p1's bend |
| PathGen.Curve | backend/path.py:139-140 | 80 samples, the first p0 and the last p3 |
| PathGen.AttemptPath | backend/path.py:118-141 | an attempt yields 80 points from p0 to p3 with their polyline length |
| PathGen.AttemptLengths | backend/path.py:117-146 | one length per possible attempt, 10 in all |
| PathGen.AttemptLengthsAt | backend/path.py:141 | the recorded length of an attempt is that attempt's path length |
| PathGen.FirstInRange | backend/path.py:142-146 | the attempt chosen lies between the current attempt and 10 |
| PathGen.FirstInRangeIsFirst | backend/path.py:142-146 | the chosen attempt is the first whose length is in [200, 300], or the tenth |
| PathGen.ChosenAttempt | backend/path.py:144-146 | the generator stops after at most 10 attempts |
| PathGen.Generate | backend/path.py:110-146 | the path has exactly 80 points, starts at p0 and ends at p3 of the chosen attempt, and its length is the polyline length |
| PathGen.GenerateInRange | backend/path.py:142-143 | a path returned before the tenth attempt has a length in [200, 300] |
| PathGen.SameControls | backend/path.py:115-137 | an attempt's control points depend only on the stream's values |
| PathGen.GenerateDeterministic | backend/path.py:115 | two streams that agree on the draws used give the same path, so the path is a function of the seed |
| PathGen.Attempt | backend/path.py:118-141 | one attempt of the loop computes that attempt's path |
| PathGen.GeneratePath | backend/path.py:110-146 | the retry loop returns the generated path |
| Models.ParsePointerType | backend/models.py:46 | a pointer type is accepted exactly when it is `mouse`, `touch` or `pen`, and spells back to itself |
| Models.PointerTypeName | backend/models.py:46 | a pointer type is spelt `mouse`, `touch` or `pen`, `mouse` exactly for the mouse and `touch` exactly for touch |
| Models.PointerTypeRoundTrip | backend/models.py:46 | parsing the spelling of a pointer type gives it back |
| Models.ValidateTrajectory | backend/models.py:52-56 | a trajectory is accepted unchanged exactly when it has at least two samples |
| Models.MakeVerifyRequest | backend/models.py:41-56 | a request is built exactly when the pointer type is valid and there are at least two samples; it then carries the ids, nonce, token, session, OS and browser family, device pixel ratio and trajectory unchanged, with the parsed pointer type that spells back to the wire value |
| Token.Pads | backend/token.py:14 | `k` pad characters |
| Token.StripPad | backend/token.py:9-10 | stripping removes only trailing `=` and leaves none at the end |
| Token.PadCount | backend/token.py:14 | `-len % 4` is in 0..3 and makes the length a multiple of 4 |
| Token.Repad | backend/token.py:13-15 | re-padding keeps the text, appends only `=`, and makes the length a multiple of 4 with fewer than 4 added |
| Token.B64Encode | backend/token.py:9-10 | the encoding is the library's output with its trailing `=` removed, and never ends in `=` |
| Token.StripPadded | backend/token.py:9-10 | stripping `=` padding from text ending in a non-`=` restores that text |
| Token.RepadStrip | backend/token.py:9-15 | for base64 text, re-padding the stripped text restores it |
| Token.PadCountUnique | backend/token.py:14 | the pad count is the only count in 0..3 that completes a multiple of 4 |
| Token.B64RoundTrip | backend/token.py:9-15 | `_b64decode(_b64encode(b)) == b` |
| Token.B64EncodeAlphabet | backend/token.py:9-10 | encoded text uses only the base64url alphabet, so it holds no `.` |
| Token.SplitDot | backend/token.py:26 | splitting at `.` yields one more part than there are dots |
| Token.CountDotsIsMultiplicity | backend/token.py:26 | the dot count is the number of `.` characters in the text |
| Token.SplitNoDot | backend/token.py:26 | text without a dot splits into itself |
| Token.SplitOneDot | backend/token.py:26 | `a.b` with dot-free parts splits into `[a, b]` |
| Token.CountDotsAppend | backend/token.py:21 | dot counts add over concatenation |
| Token.CountDotsPositive | backend/token.py:25-28 | a dot anywhere gives a positive dot count |
| Token.Sign | backend/token.py:18-21 | the token is the encoded payload, a dot and the encoded HMAC of the payload's JSON, and never ends in `=` |
| Token.SignOneDot | backend/token.py:18-21 | a signed token has exactly one dot and splits into the encoded message and the encoded HMAC |
| Token.Verify | backend/token.py:24-34 | a token without exactly one dot is refused as a format error; an accepted token carries the HMAC of its message and the payload its message parses to |
| Token.VerifySign | backend/token.py:18-34 | with lawful base64 and a JSON encoding that round-trips p, `verify(sign(p)) == p` |
| Token.AlteredSignatureRejected | backend/token.py:29-33 | keeping the signed message, a signature part that does not base64-decode to the message's HMAC is refused |
| Verifier.ChallengeTolerance | backend/main.py:26-30 | mouse uses the stored mouse tolerance; touch and pen use the stored touch tolerance |
| Verifier.BaseTolerance | backend/main.py:185-189 | the profile tolerance is 20 px for mouse and 30 px for touch and pen, at least 1 either way |
| Verifier.SelectedTolerance | backend/main.py:190-193 | the stored tolerance when the record has one, the profile tolerance otherwise, and at least 1 for issued tolerances |
| Verifier.EffectiveTolerance | backend/main.py:185-195 | the selected tolerance falls back to the base tolerance without a stored one, is scaled by 1.1 exactly when the device pixel ratio is at least 2, and is at least 1 for issued tolerances |
| Verifier.PenIsTouch | backend/main.py:26-30 | pen scores with the touch tolerance |
| Verifier.NearFlags | backend/main.py:224-234 | one near-path flag per sample |
| Verifier.NearSamples | backend/main.py:225-233 | each sample is flagged exactly when its minimum distance to the path is within the tolerance |
| Verifier.StepSeconds | backend/main.py:219 | a step's duration is at least 0.001 s |
| Verifier.ScanStepEffect | backend/main.py:208-229 | one step stops the scan exactly when its sample is out of time order or jumps too far; a good step adds one speed and keeps the earlier ones, adds the jump to the total length, and adds it to the covered length exactly when both samples are near the path; a bad step changes no total |
| Verifier.ScanSpeedCount | backend/main.py:208-229 | the scan holds one speed per step taken: at most n − 1, and exactly n − 1 while it runs |
| Verifier.ScanUpToNext | backend/main.py:208-229 | the scan over n+1 samples is one more step of the scan over n |
| Verifier.ScanStaysStopped | backend/main.py:209-217 | once the scan breaks, later samples change nothing |
| Verifier.StopsOutOfOrder | backend/main.py:209-211 | a timestamp not after the previous one ends the scan with `monotonic` false and the totals as they were |
| Verifier.StopsOnJump | backend/main.py:212-217 | a jump beyond twice the tolerance ends the scan with `jumps_ok` false and the totals as they were |
| Verifier.ScanInvariant | backend/main.py:218-228 | the covered length stays within [0, total length], speeds are non-negative, and there is one acceleration per speed after the first |
| Verifier.ScanFirstFailure | backend/main.py:208-217 | at most one flag is cleared; the scan is running exactly when all earlier steps were in order and jump-free; a cleared flag names the first bad step, out of order or a jump |
| Verifier.AdvanceScan | backend/main.py:218-229 | for an in-order, jump-free sample while the scan runs, the loop body yields the scan one sample further, still running |
| Verifier.ScanSample | backend/main.py:208-229 | one pass of the loop body: a `break` leaves the final scan state, otherwise the scan one sample further, still running |
| Verifier.Scan | backend/main.py:199-229 | the loop with its breaks computes the scan over the whole trajectory |
| Verifier.HitsUpTo | backend/main.py:231-234 | hits never exceed the samples counted |
| Verifier.CoverageHits | backend/main.py:231-234 | the loop counts the near samples |
| Verifier.LengthRatio | backend/main.py:236 | the covered-length ratio lies in [0,1] and is 0 when the total is 0 |
| Verifier.HitRatio | backend/main.py:235 | the hit ratio lies in [0,1] |
| Verifier.SegmentSeconds | backend/main.py:39-41 | a segment's duration is at least 1 ms |
| Verifier.Distances | backend/main.py:36-40 | one distance per step |
| Verifier.Durations | backend/main.py:36-41 | one duration per step, each at least 0.001 s |
| Verifier.Speeds | backend/main.py:47 | one speed per step |
| Verifier.MaxOf | backend/main.py:47 | the maximum bounds every value and is attained |
| Verifier.SpeedStatsOf | backend/main.py:33-48 | fewer than two samples give (0, 0) |
| Verifier.DistancesNonNegative | backend/main.py:40 | distances are non-negative |
| Verifier.MeanSpeedNonNegative | backend/main.py:44-46 | the mean speed is non-negative |
| Verifier.MaxSpeedNonNegative | backend/main.py:47 | the maximum speed is non-negative |
| Verifier.SpeedStatsMax | backend/main.py:47 | the maximum speed is at least every segment speed and is attained by one |
| Verifier.SpeedStatsLoop | backend/main.py:33-48 | the loop computes the speed statistics |
| Verifier.PausesUpTo | backend/main.py:51-59 | there are at most len − 1 pauses and each is at least the gap |
| Verifier.PauseStats | backend/main.py:51-59 | the loop lists the gaps of at least 150 ms in order, and the count is the list's length |
| Verifier.ConstancyRatioWithoutRoot | backend/main.py:258-261 | for a non-zero mean and the non-negative root of the variance, the root-free comparison agrees with `std_s / mean_s < 0.08` |
| Verifier.SpeedConstancyAsWritten | backend/main.py:257-262 | the guard as written divides by zero exactly when the scan's speeds sum to 0 while the trajectory's mean speed is positive |
| Verifier.SpeedConstancy | backend/main.py:257-262 | the corrected flag is raised only for non-empty speeds with a positive mean |
| Verifier.SpeedConstancyAgrees | backend/main.py:257-262 | the corrected flag equals the as-written flag wherever the latter does not crash, and is false where it does |
| Verifier.MaxAbs | backend/main.py:264 | the largest magnitude bounds every magnitude and is attained |
| Verifier.AccelFlag | backend/main.py:263-266 | the acceleration flag is raised exactly when some acceleration's magnitude exceeds 12000 px/s² |
| Verifier.ReasonNameInjective | backend/main.py:268-296 | distinct reasons are reported under distinct strings |
| Verifier.ReasonNameSuccessPrefix | backend/main.py:292-294 | exactly the two passing reasons have names that begin with `success` |
| Verifier.Decide | backend/main.py:268-296 | the reason follows the fixed precedence, each reason holding exactly under its conditions; passed exactly for the two success reasons; the flagged success exactly when the behavioural flag is set |
| Verifier.BehaviouralFlagNeverBlocks | backend/main.py:294-296 | the behavioural flag never changes whether an attempt passes |
| Verifier.Measure | backend/main.py:199-246 | hits never exceed the sample count, and the covered length lies within the total |
| Verifier.Assemble | backend/main.py:231-296 | both coverage ratios lie in [0,1]; passed exactly for a success reason; expired exactly when now > expires_at; too fast exactly when the duration is under 1000 ms; behavioural exactly when either flag is set; one pause count per listed pause; a pass has at least 20 samples, both ratios at 0.75 or more, no expiry and a duration of 1000 ms or more |
| Verifier.Evaluate | backend/main.py:198-296 | the corrected scoring: ratios in [0,1], passed exactly for a success reason, expired exactly when now > expires_at, and every pass meets the sample, coverage, time and speed conditions |
| Verifier.EvaluatePassIff | backend/main.py:198-296 | an attempt passes exactly when it has at least 20 samples, every step is in time order and within twice the tolerance, both coverage ratios are at least 0.75, the last sample is within the tolerance of the path's end, now is not past the expiry, and the trace lasted at least 1000 ms; the length ratio is the scan's covered over total length, and the hit ratio is the share of samples near the path |
| Verifier.LengthCoverage | backend/main.py:236 | the covered-length ratio of the scan lies in [0,1] |
| Verifier.EvaluateAsWritten | backend/main.py:198-296 | the scoring as written crashes exactly when the scan recorded speeds summing to 0 while the trajectory's mean speed is positive |
| Verifier.EvaluateAgrees | backend/main.py:185-296 | the corrected scoring equals the as-written scoring wherever the latter does not crash |
| Verifier.StallThenJumpScan | backend/main.py:208-221 | on the finding's witness the scan keeps the single speed 0 |
| Verifier.StallThenJumpMeanSpeed | backend/main.py:33-48 | on the finding's witness the whole-trajectory mean speed is 5000 px/s |
| Verifier.EvaluateAsWrittenCrashes | backend/main.py:257-258 | the as-written scoring divides by zero on the witness |
| Verifier.VerifyTrajectory | backend/main.py:198-296 | the scoring steps compute the outcome |
| Lifecycle.MarkUsed | backend/main.py:330-331 | the record is marked used and every other field is kept |
| Lifecycle.IssuedTolerances | backend/main.py:77-78 | each issued tolerance is `max(1, base + jitter)`: at least both, and equal to one of them |
| Lifecycle.ExpiresAt | backend/main.py:168-170 | the expiry is the creation time plus the TTL converted from milliseconds to seconds, later than the creation time for a positive TTL |
| Lifecycle.IssuedPayload | backend/main.py:93-99 | the claims are exactly `cid`, `seed`, `ttl`, `iat` and `nonce`, holding the challenge id, the seed, the 12000 ms TTL, the issue time and the nonce |
| Lifecycle.IssuedResponse | backend/main.py:102-119 | the response names the challenge, its nonce and token, the 12000 ms TTL, the path's first point and the fixed timing and canvas constants; for a record created now with that TTL, it announces the record's expiry |
| Lifecycle.IssuedRecord | backend/main.py:80-91 | an issued record is fresh (unused, with the 12000 ms TTL, its nonce and its creation time), holds the generated points and stores the jittered tolerances |
| Lifecycle.NewResult | backend/main.py:62-119 | a fresh id stores a fresh record holding the generated path and the jittered tolerances, and returns a token signed over its claims, with its start point and expiry; an existing id fails with 500 and changes nothing |
| Lifecycle.PeekResult | backend/main.py:122-155 | unknown 404, used 410, bad or mismatched token 401, and expired 410 once the token is accepted, in that order; with an accepted token it answers exactly when not expired; otherwise the look-ahead window, an empty `behind`, the distance to the end, and the end point exactly within the reveal radius |
| Lifecycle.Respond | backend/main.py:333-348 | `newChallengeRecommended == !passed`, the reason is the outcome's wire name, and the coverage ratio, duration, flags, thresholds and expiry are copied from the outcome and the record |
| Lifecycle.Score | backend/main.py:185-296 | scoring with the record's tolerance is expired exactly when now is past the record's expiry, its hit ratio lies in [0,1], and a pass meets the sample, coverage, time and speed conditions |
| Lifecycle.ScorePassIff | backend/main.py:168-296 | scoring passes exactly when the trajectory meets those conditions for the record's path, the record's tolerance for the pointer and the record's expiry, with both coverage ratios measured against that path and tolerance |
| Lifecycle.VerifyResult | backend/main.py:158-183 | unknown 404, used 410; otherwise scored exactly when the token is valid and names this id, nonce and TTL, and 401 when it is not; every error leaves the store as it was; a scored attempt marks the challenge used |
| Lifecycle.ScoredIsMarked | backend/main.py:330-331 | a scored verify leaves every record valid and the challenge used |
| Lifecycle.UsedChallengeIsGone | backend/main.py:128-130 | after a scored verify, any later verify or peek on the same id gets 410 |
| Lifecycle.IssuedTokenIsScored | backend/main.py:93-100 | with lawful base64 and a JSON round trip of the issued claims, a verify presenting the issued token, id and nonce on a fresh record is scored |
| Lifecycle.IssuedTokenPeeks | backend/main.py:132-144 | with lawful base64 and a JSON round trip of the issued claims, the issued token opens peeks until the challenge expires |
| Lifecycle.ExpiredNeverPasses | backend/main.py:168-172 | verify scores an expired challenge rather than refusing it, and the attempt never passes |
| Lifecycle.ChallengeStore.constructor | backend/db.py:17-31 | the store starts empty |
| Lifecycle.ChallengeStore.New | backend/main.py:62-119 | the handler generates the path from the seed's stream and then stores and signs as `NewResult` says |
| Lifecycle.ChallengeStore.Store | backend/main.py:77-119 | storing the record and signing the claims gives `NewResult` |
| Lifecycle.ChallengeStore.Peek | backend/main.py:122-155 | the handler answers `PeekResult` and modifies nothing |
| Lifecycle.ChallengeStore.Verify | backend/main.py:158-348 | the handler answers and updates the store as `VerifyResult` says |
| Lifecycle.ChallengeStore.ScoreAndMark | backend/main.py:185-348 | scoring after the token checks answers `Score`'s outcome and marks only this challenge used |

## Left out

- SQLite I/O (`backend/db.py`) is not modelled. The store is the map `ChallengeStore.records`. `db.py` is also out of step with `main.py`: `save_challenge` takes no nonce or tolerance arguments, and there is no `nonce_used` column or `mark_challenge_used`. The store follows what `main.py` calls. A duplicate challenge id, where the `INSERT` would fail, is modelled as error 500.
- `save_attempt` audit logging and the deviation statistics at `backend/main.py:247-253` are write-only. They do not affect the response.
- `:.2f` rounding is not modelled: of the stored path points (`backend/main.py:83`), of the start point (`backend/main.py:108`), and of the peek coordinates and distances. The stored path is the generated one. `round()` of the display tolerances, and the `tolerance` display field of the new-challenge response are not modelled. `NewChallengeResponse` carries no `tolerance`, and `trail`/`canvas` are flattened into fields.
- The frontend, the bot simulator, the analytics scripts, FastAPI framing, CORS and `/health` are not part of this model.
- Floating point: every Python `float` is a `real`. `math.hypot` and `** 0.5` are the parameter `hypot`, constrained only by `Geometry.IsHypot`.
- The random stream of `random.Random(seed)`, `uuid4()`, `time.time()`, the tolerance jitters, `SECRET_KEY` and `FINISH_REVEAL_PX` are parameters. The two clock reads of one request are one `now`.
- HMAC-SHA256, the base64 library and `json.dumps`/`loads` are functions in `Token.Primitives`. `Token.Lawful` names the base64 round trip, and `Token.LawfulIsSatisfiable` exhibits primitives that meet it. The JSON round trip is required only of the payloads that are signed. `Json` numbers are reals, so no byte encoding round-trips every payload.
- Verifier.BelowConstancyRatio: compares `variance < (0.08 · mean)²` instead of `sqrt(variance) / mean < 0.08`, because the square root is not available. `Verifier.ConstancyRatioWithoutRoot` proves the two agree.
- Verifier.NearSamples: computes each sample's near-path flag once. The source recomputes it for the coverage loop and for the scan.
- Verifier.Scan: its first pass (index 0) is peeled off before the loop. The source's loop only records `last_t` there. The loop body is the method `Verifier.ScanSample`.
- Geometry.Lookahead: its own `ensures` only says the window is non-empty. `Geometry.LookaheadWindow` states the window property.
- Geometry.Lookahead, Geometry.DistanceToEnd: require a non-empty path. Every stored path has 80 points.
- Lifecycle.PeekResult, Lifecycle.ChallengeStore.Peek: require a cursor of at least two numbers. The source indexes `cursor[0]` and `cursor[1]` without a check and would raise an `IndexError` (a 500) otherwise.
- Lifecycle.VerifyResult, Lifecycle.ChallengeStore.Verify: score with the guarded speed-constancy flag (`Verifier.SpeedConstancy`). On the input under "## Findings", the source as written answers 500 instead and leaves the challenge unused. `Verifier.EvaluateAsWrittenCrashes` shows that crash.
- The reason cascade follows the code's order in `backend/main.py:269-296`: `low_coverage` for the length ratio, then for the hit ratio, before `incomplete`, `timeout` and `too_fast`.

## Findings

| source | as written | input that shows it | evidently intended | confidence | as-written member | corrected member |
|---|---|---|---|---|---|---|
| backend/main.py:257-262 | the speed-constancy check divides by `mean_s`, the mean of the scan's speeds, but only guards on `mean_speed`, the whole trajectory's mean | samples (0,0,t=0), (0,0,t=10), (100,0,t=20) with tolerance 20: the scan breaks at the 100 px jump with speeds [0.0], while `mean_speed` is 5000 px/s, so `std_s / mean_s` raises ZeroDivisionError; the handler fails with a 500 before the challenge is marked used | guard the division on `mean_s > 0` | not executed | Verifier.EvaluateAsWrittenCrashes | Verifier.SpeedConstancy |
