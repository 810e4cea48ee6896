/**
 * The challenge lifecycle of backend/main.py: `new_challenge` issues a path and
 * a signed token and stores a record, `peek_path` reveals the part of the path
 * around the cursor, and `verify_attempt` scores a trajectory once and marks
 * the challenge used.
 *
 * The store is the map `records` from challenge id to record. Every clock read
 * of one request is the parameter `now`; the challenge id, seed and nonce
 * (`uuid4().hex`) and the two tolerance jitters are parameters too, as are the
 * signing key and the finish-reveal radius. `drawOf(seed)` is the stream of
 * `random.Random(seed)`, so equal seeds give equal paths.
 * Errors are the HTTP status codes the handlers raise.
 */
module Lifecycle {
  import opened Wrappers
  import opened Geometry
  import opened Models
  import Token
  import PathGen
  import Verifier
  import Config

  datatype Record = Record(
    points: seq<Point>,
    pathLength: real,
    ttlMs: int,
    createdAt: real,
    nonce: string,
    seed: string,
    tolerances: Option<Verifier.Tolerances>,
    used: bool)

  /** Every stored path has the generator's 80 points, and every stored tolerance is at least 1. */
  ghost predicate AllValid(records: map<string, Record>)
  {
    forall id :: id in records ==>
      |records[id].points| == PathGen.Samples && Verifier.TolerancesAtLeastOne(records[id].tolerances)
  }

  /** `created_at + ttl_ms / 1000.0`: the creation time in seconds plus the TTL converted from milliseconds. */
  function ExpiresAt(rec: Record): (e: real)
    ensures (e - rec.createdAt) * 1000.0 == rec.ttlMs as real
    ensures rec.ttlMs > 0 ==> e > rec.createdAt
  {
    rec.createdAt + rec.ttlMs as real / 1000.0
  }

  /** The record marked used, every other field kept. */
  function MarkUsed(rec: Record): (r: Record)
    ensures r.used && r == rec.(used := true)
  {
    Record(rec.points, rec.pathLength, rec.ttlMs, rec.createdAt, rec.nonce, rec.seed, rec.tolerances, true)
  }

  // ---------------------------------------------------------------------------
  // new_challenge (lines 62-119)

  /** `max(1.0, base + jitter)` for each pointer profile. */
  function IssuedTolerances(jitterMouse: real, jitterTouch: real): (t: Verifier.Tolerances)
    ensures t.mouse >= 1.0 && t.touch >= 1.0
    ensures t.mouse >= Config.MouseTolerancePx + jitterMouse && t.touch >= Config.TouchTolerancePx + jitterTouch
    ensures t.mouse == 1.0 || t.mouse == Config.MouseTolerancePx + jitterMouse
    ensures t.touch == 1.0 || t.touch == Config.TouchTolerancePx + jitterTouch
  {
    Verifier.Tolerances(Max(1.0, Config.MouseTolerancePx + jitterMouse), Max(1.0, Config.TouchTolerancePx + jitterTouch))
  }

  /** The claims of an issued token: the challenge id, the seed, the TTL in ms, the issue time and the nonce. */
  function IssuedPayload(id: string, seed: string, nonce: string, now: real): (claims: Token.Payload)
    ensures claims.Keys == {"cid", "seed", "ttl", "iat", "nonce"}
    ensures ClaimIs(claims, "cid", Token.JStr(id)) && ClaimIs(claims, "nonce", Token.JStr(nonce))
    ensures ClaimIs(claims, "ttl", Token.JNum(Config.ChallengeTtlMs as real))
    ensures ClaimIs(claims, "seed", Token.JStr(seed)) && ClaimIs(claims, "iat", Token.JNum(now))
  {
    map["cid" := Token.JStr(id), "seed" := Token.JStr(seed), "ttl" := Token.JNum(Config.ChallengeTtlMs as real),
        "iat" := Token.JNum(now), "nonce" := Token.JStr(nonce)]
  }

  /** The record `new_challenge` stores for the generated path `g`. */
  function IssuedRecord(g: PathGen.GeneratedPath, seed: string, nonce: string, now: real,
                        jitterMouse: real, jitterTouch: real): (rec: Record)
    ensures Fresh(rec, nonce, now) && rec.points == g.points
    ensures rec.tolerances == Some(IssuedTolerances(jitterMouse, jitterTouch))
  {
    Record(g.points, g.length, Config.ChallengeTtlMs, now, nonce, seed,
           Some(IssuedTolerances(jitterMouse, jitterTouch)), false)
  }

  /** A record as `new_challenge` leaves it: unused, with the fixed TTL, this nonce and this creation time. */
  predicate Fresh(rec: Record, nonce: string, now: real)
  {
    !rec.used && rec.ttlMs == Config.ChallengeTtlMs && rec.nonce == nonce && rec.createdAt == now
  }

  /**
   * The response of `new_challenge` for the stored record `rec`: it names the
   * challenge, its nonce and token, starts at the path's first point, and for a
   * record created now with the fixed TTL announces the record's own expiry.
   */
  function IssuedResponse(id: string, nonce: string, now: real, token: string, rec: Record): (r: NewChallengeResponse)
    requires |rec.points| >= 1
    ensures r.challengeId == id && r.nonce == nonce && r.token == token && r.startPoint == rec.points[0]
    ensures r.ttlMs == Config.ChallengeTtlMs
    ensures rec.createdAt == now && rec.ttlMs == Config.ChallengeTtlMs ==> r.expiresAt == ExpiresAt(rec)
    ensures r.targetCompletionMs == Config.TargetCompletionTimeMs
    ensures r.trailVisibleMs == Config.TrailVisibleMs && r.trailFadeoutMs == Config.TrailFadeoutMs
    ensures r.canvasWidth == Config.CanvasWidthPx && r.canvasHeight == Config.CanvasHeightPx
  {
    NewChallengeResponse(
      id, Config.ChallengeTtlMs, now + Config.ChallengeTtlMs as real / 1000.0, nonce, token, rec.points[0],
      Config.TargetCompletionTimeMs, Config.TrailVisibleMs, Config.TrailFadeoutMs,
      Config.CanvasWidthPx, Config.CanvasHeightPx)
  }

  /**
   * `new_challenge`: a fresh id gets a new unused record and a token signed over
   * its claims; an id already present makes the insert fail (500) and changes nothing.
   * `path` is the path generated from the seed's random stream.
   */
  function NewResult(prims: Token.Primitives, key: Token.Bytes, records: map<string, Record>, id: string,
                     seed: string, path: PathGen.GeneratedPath, nonce: string, now: real,
                     jitterMouse: real, jitterTouch: real)
    : (out: (Result<NewChallengeResponse, int>, map<string, Record>))
    requires |path.points| == PathGen.Samples
    ensures id in records ==> out == (Err(500), records)
    ensures id !in records ==>
            && out.0.Ok?
            && id in out.1 && out.1 == records[id := out.1[id]]
            && out.1[id].points == path.points
            && Fresh(out.1[id], nonce, now)
            && out.1[id].tolerances == Some(IssuedTolerances(jitterMouse, jitterTouch))
            && out.0.value.token == Token.Sign(prims, key, IssuedPayload(id, seed, nonce, now))
            && out.0.value.challengeId == id && out.0.value.nonce == nonce
            && out.0.value.expiresAt == ExpiresAt(out.1[id])
            && out.0.value.startPoint == out.1[id].points[0]
  {
    if id in records then (Err(500), records)
    else
      var rec := IssuedRecord(path, seed, nonce, now, jitterMouse, jitterTouch);
      var token := Token.Sign(prims, key, IssuedPayload(id, seed, nonce, now));
      (Ok(IssuedResponse(id, nonce, now, token, rec)), records[id := rec])
  }

  // ---------------------------------------------------------------------------
  // Token claims

  /** `claims.get(name) == value` */
  predicate ClaimIs(claims: Token.Payload, name: string, value: Token.Json)
  {
    name in claims && claims[name] == value
  }

  /** The token verifies and names this challenge and nonce (and, when asked, this TTL). */
  predicate TokenAccepted(prims: Token.Primitives, key: Token.Bytes, token: string, id: string, nonce: string,
                          ttlMs: Option<int>)
  {
    var claims := Token.Verify(prims, key, token);
    && claims.Ok?
    && ClaimIs(claims.value, "cid", Token.JStr(id))
    && ClaimIs(claims.value, "nonce", Token.JStr(nonce))
    && (ttlMs.Some? ==> ClaimIs(claims.value, "ttl", Token.JNum(ttlMs.value as real)))
  }

  // ---------------------------------------------------------------------------
  // peek_path (lines 122-155)

  function CursorPoint(cursor: seq<real>): Point
    requires |cursor| >= 2
  {
    Point(cursor[0], cursor[1])
  }

  /**
   * `peek_path`: unknown challenge 404, used 410, bad or mismatched token 401,
   * expired 410; otherwise the look-ahead window around the cursor, the
   * distance left, and the end point only within the finish-reveal radius.
   */
  function PeekResult(hypot: (real, real) -> real, prims: Token.Primitives, key: Token.Bytes,
                      records: map<string, Record>, req: PeekRequest, now: real, finishRevealPx: real)
    : (r: Result<PeekResponse, int>)
    requires IsHypot(hypot) && AllValid(records) && |req.cursor| >= 2
    ensures req.challengeId !in records ==> r == Err(404)
    ensures req.challengeId in records && records[req.challengeId].used ==> r == Err(410)
    ensures (req.challengeId in records && !records[req.challengeId].used
             && !TokenAccepted(prims, key, req.token, req.challengeId, req.nonce, None)) ==> r == Err(401)
    ensures (req.challengeId in records && !records[req.challengeId].used
             && TokenAccepted(prims, key, req.token, req.challengeId, req.nonce, None)) ==>
            (r.Ok? <==> now <= ExpiresAt(records[req.challengeId]))
    ensures (req.challengeId in records && !records[req.challengeId].used
             && TokenAccepted(prims, key, req.token, req.challengeId, req.nonce, None)
             && now > ExpiresAt(records[req.challengeId])) ==> r == Err(410)
    ensures r.Err? ==> r.error in {401, 404, 410}
    ensures r.Ok? ==>
            var pts := records[req.challengeId].points;
            var cursor := CursorPoint(req.cursor);
            && r.value.ahead == Lookahead(hypot, pts, cursor)
            && r.value.behind == []
            && r.value.distanceToEnd == DistanceToEnd(hypot, pts, cursor)
            && (r.value.finish.Some? <==> r.value.distanceToEnd <= finishRevealPx)
            && (r.value.finish.Some? ==> r.value.finish.value == pts[|pts| - 1])
  {
    if req.challengeId !in records then Err(404)
    else
      var rec := records[req.challengeId];
      if rec.used then Err(410)
      else if !TokenAccepted(prims, key, req.token, req.challengeId, req.nonce, None) then Err(401)
      else if now > ExpiresAt(rec) then Err(410)
      else
        var cursor := CursorPoint(req.cursor);
        var dte := DistanceToEnd(hypot, rec.points, cursor);
        Ok(PeekResponse(Lookahead(hypot, rec.points, cursor), [], dte,
                        if dte <= finishRevealPx then Some(rec.points[|rec.points| - 1]) else None))
  }

  // ---------------------------------------------------------------------------
  // verify_attempt (lines 158-183 and 298-348)

  /** The response built from the verifier's outcome. */
  function Respond(o: Verifier.Outcome, rec: Record): (resp: VerifyResponse)
    ensures resp.newChallengeRecommended == !resp.passed
    ensures resp.passed == o.passed && resp.reason == Verifier.ReasonName(o.reason)
    ensures resp.coverageRatio == o.coverageRatio && resp.durationMs == o.durationMs as real
    ensures resp.ttlExpired == o.ttlExpired && resp.tooFast == o.tooFast && resp.behaviouralFlag == o.behaviouralFlag
    ensures resp.thresholds == Thresholds(Config.RequiredCoverageRatio, Config.TooFastThresholdMs, rec.ttlMs)
    ensures resp.expiresAt == ExpiresAt(rec)
  {
    VerifyResponse(o.passed, Verifier.ReasonName(o.reason), o.coverageRatio, o.durationMs as real, o.ttlExpired,
                   o.tooFast, o.behaviouralFlag, !o.passed,
                   Thresholds(Config.RequiredCoverageRatio, Config.TooFastThresholdMs, rec.ttlMs), ExpiresAt(rec))
  }

  /**
   * The outcome of scoring `req` against `rec` with the record's tolerance for
   * the pointer: expired exactly when `now` is past the record's expiry, and
   * passing only with enough samples, both coverage ratios, on time and not too fast.
   */
  function Score(hypot: (real, real) -> real, rec: Record, req: VerifyRequest, now: real): (o: Verifier.Outcome)
    requires IsHypot(hypot) && |rec.points| >= 1 && ValidVerifyRequest(req)
    ensures o.ttlExpired <==> now > ExpiresAt(rec)
    ensures o.passed ==> Verifier.PassConditions(req.trajectory, o)
    ensures 0.0 <= o.coverageRatio <= 1.0
  {
    var tol := Verifier.EffectiveTolerance(rec.tolerances, req.pointerType, req.devicePixelRatio);
    Verifier.Evaluate(hypot, rec.points, tol, req.trajectory, now, ExpiresAt(rec))
  }

  /**
   * Scoring passes exactly when the trajectory meets the acceptance conditions
   * for the record's path, the record's tolerance for the pointer and the
   * record's expiry; the two coverage ratios are measured against that path
   * with that tolerance.
   */
  lemma ScorePassIff(hypot: (real, real) -> real, rec: Record, req: VerifyRequest, now: real)
    requires IsHypot(hypot) && |rec.points| >= 1 && ValidVerifyRequest(req)
    ensures Score(hypot, rec, req, now).passed <==>
            Verifier.AcceptanceConditions(
              hypot, rec.points, Verifier.EffectiveTolerance(rec.tolerances, req.pointerType, req.devicePixelRatio),
              req.trajectory, now, ExpiresAt(rec), Score(hypot, rec, req, now))
    ensures var tol := Verifier.EffectiveTolerance(rec.tolerances, req.pointerType, req.devicePixelRatio);
            var traj := req.trajectory;
            && Score(hypot, rec, req, now).coverageLenRatio == Verifier.LengthCoverage(hypot, rec.points, tol, traj)
            && Score(hypot, rec, req, now).coverageRatio
               == Verifier.HitRatio(Verifier.HitsUpTo(Verifier.NearFlags(hypot, rec.points, tol, traj), |traj|), |traj|)
  {
    var tol := Verifier.EffectiveTolerance(rec.tolerances, req.pointerType, req.devicePixelRatio);
    Verifier.EvaluatePassIff(hypot, rec.points, tol, req.trajectory, now, ExpiresAt(rec));
  }

  /**
   * `verify_attempt`: unknown challenge 404, used 410, bad or mismatched token
   * (id, nonce or TTL) 401, each leaving the store as it was; otherwise the
   * attempt is scored, expired or not, and the challenge is marked used.
   */
  function VerifyResult(hypot: (real, real) -> real, prims: Token.Primitives, key: Token.Bytes,
                        records: map<string, Record>, req: VerifyRequest, now: real)
    : (out: (Result<VerifyResponse, int>, map<string, Record>))
    requires IsHypot(hypot) && AllValid(records) && ValidVerifyRequest(req)
    ensures out.0.Err? ==> out.1 == records && out.0.error in {401, 404, 410}
    ensures req.challengeId !in records ==> out.0 == Err(404)
    ensures req.challengeId in records && records[req.challengeId].used ==> out.0 == Err(410)
    ensures req.challengeId in records && !records[req.challengeId].used ==>
            (out.0.Ok? <==>
             TokenAccepted(prims, key, req.token, req.challengeId, req.nonce, Some(records[req.challengeId].ttlMs)))
    ensures (req.challengeId in records && !records[req.challengeId].used
             && !TokenAccepted(prims, key, req.token, req.challengeId, req.nonce, Some(records[req.challengeId].ttlMs)))
            ==> out.0 == Err(401)
    ensures out.0.Ok? ==>
            && req.challengeId in records
            && out.1 == records[req.challengeId := MarkUsed(records[req.challengeId])]
            && out.0.value == Respond(Score(hypot, records[req.challengeId], req, now), records[req.challengeId])
  {
    var id := req.challengeId;
    if id !in records then (Err(404), records)
    else
      var rec := records[id];
      if rec.used then (Err(410), records)
      else if !TokenAccepted(prims, key, req.token, id, req.nonce, Some(rec.ttlMs)) then (Err(401), records)
      else (Ok(Respond(Score(hypot, rec, req, now), rec)), records[id := MarkUsed(rec)])
  }

  // ---------------------------------------------------------------------------
  // Properties across requests

  /** A scored verify leaves a valid store in which the challenge is used. */
  lemma ScoredIsMarked(hypot: (real, real) -> real, prims: Token.Primitives, key: Token.Bytes,
                       records: map<string, Record>, req: VerifyRequest, now: real)
    requires IsHypot(hypot) && AllValid(records) && ValidVerifyRequest(req)
    requires VerifyResult(hypot, prims, key, records, req, now).0.Ok?
    ensures var after := VerifyResult(hypot, prims, key, records, req, now).1;
            AllValid(after) && req.challengeId in after && after[req.challengeId].used
  {
    var rec := records[req.challengeId];
    var after := VerifyResult(hypot, prims, key, records, req, now).1;
    assert after == records[req.challengeId := MarkUsed(rec)];
  }

  /** A scored verify uses the challenge up: every later peek or verify of it gets 410. */
  lemma UsedChallengeIsGone(hypot: (real, real) -> real, prims: Token.Primitives, key: Token.Bytes,
                            records: map<string, Record>, req: VerifyRequest, now: real,
                            later: VerifyRequest, laterNow: real, peek: PeekRequest, peekNow: real,
                            finishRevealPx: real)
    requires IsHypot(hypot) && AllValid(records) && ValidVerifyRequest(req) && ValidVerifyRequest(later)
    requires |peek.cursor| >= 2
    requires VerifyResult(hypot, prims, key, records, req, now).0.Ok?
    requires later.challengeId == req.challengeId && peek.challengeId == req.challengeId
    ensures var after := VerifyResult(hypot, prims, key, records, req, now).1;
            AllValid(after)
            && VerifyResult(hypot, prims, key, after, later, laterNow).0 == Err(410)
            && PeekResult(hypot, prims, key, after, peek, peekNow, finishRevealPx) == Err(410)
  {
    ScoredIsMarked(hypot, prims, key, records, req, now);
  }

  /**
   * With lawful base64 primitives and a JSON encoding that round-trips its
   * claims, the token `new_challenge` issues is accepted: a verify that presents
   * it with the challenge's id and nonce, while the record is still fresh, is
   * scored.
   */
  lemma IssuedTokenIsScored(hypot: (real, real) -> real, prims: Token.Primitives, key: Token.Bytes,
                            records: map<string, Record>, seed: string, iat: real, req: VerifyRequest, now: real)
    requires IsHypot(hypot) && Token.Lawful(prims) && AllValid(records) && ValidVerifyRequest(req)
    requires req.challengeId in records && Fresh(records[req.challengeId], req.nonce, iat)
    requires req.token == Token.Sign(prims, key, IssuedPayload(req.challengeId, seed, req.nonce, iat))
    requires Token.JsonRoundTrips(prims, IssuedPayload(req.challengeId, seed, req.nonce, iat))
    ensures VerifyResult(hypot, prims, key, records, req, now).0.Ok?
  {
    Token.VerifySign(prims, key, IssuedPayload(req.challengeId, seed, req.nonce, iat));
    assert TokenAccepted(prims, key, req.token, req.challengeId, req.nonce, Some(records[req.challengeId].ttlMs));
  }

  /** The issued token also opens peeks until the challenge expires. */
  lemma IssuedTokenPeeks(hypot: (real, real) -> real, prims: Token.Primitives, key: Token.Bytes,
                         records: map<string, Record>, seed: string, iat: real, req: PeekRequest, now: real,
                         finishRevealPx: real)
    requires IsHypot(hypot) && Token.Lawful(prims) && AllValid(records) && |req.cursor| >= 2
    requires req.challengeId in records && Fresh(records[req.challengeId], req.nonce, iat)
    requires req.token == Token.Sign(prims, key, IssuedPayload(req.challengeId, seed, req.nonce, iat))
    requires Token.JsonRoundTrips(prims, IssuedPayload(req.challengeId, seed, req.nonce, iat))
    requires now <= iat + Config.ChallengeTtlMs as real / 1000.0
    ensures PeekResult(hypot, prims, key, records, req, now, finishRevealPx).Ok?
  {
    Token.VerifySign(prims, key, IssuedPayload(req.challengeId, seed, req.nonce, iat));
    assert TokenAccepted(prims, key, req.token, req.challengeId, req.nonce, None);
  }

  /** Verify does not refuse an expired challenge, but scores it as a failure (`timeout` or an earlier reason). */
  lemma ExpiredNeverPasses(hypot: (real, real) -> real, prims: Token.Primitives, key: Token.Bytes,
                           records: map<string, Record>, req: VerifyRequest, now: real)
    requires IsHypot(hypot) && AllValid(records) && ValidVerifyRequest(req)
    requires req.challengeId in records && now > ExpiresAt(records[req.challengeId])
    ensures var r := VerifyResult(hypot, prims, key, records, req, now).0;
            r.Ok? ==> !r.value.passed && r.value.ttlExpired && r.value.newChallengeRecommended
  {
  }

  // ---------------------------------------------------------------------------
  // The store

  class ChallengeStore {
    var records: map<string, Record>

    ghost predicate Valid()
      reads this
    {
      AllValid(records)
    }

    constructor()
      ensures records == map[] && Valid()
    {
      records := map[];
    }

    /** `new_challenge` */
    method New(hypot: (real, real) -> real, prims: Token.Primitives, key: Token.Bytes, id: string, seed: string,
               drawOf: string -> nat -> real, nonce: string, now: real, jitterMouse: real, jitterTouch: real)
      returns (r: Result<NewChallengeResponse, int>)
      requires IsHypot(hypot) && Valid()
      modifies this
      ensures Valid()
      ensures (r, records)
              == NewResult(prims, key, old(records), id, seed, PathGen.Generate(hypot, drawOf(seed)), nonce, now,
                           jitterMouse, jitterTouch)
    {
      if id in records {
        return Err(500);
      }
      var points, length := PathGen.GeneratePath(hypot, drawOf(seed));
      r := Store(prims, key, id, seed, PathGen.GeneratedPath(points, length), nonce, now, jitterMouse, jitterTouch);
    }

    /** The part of `new_challenge` after the path is generated: store the record, sign the claims. */
    method Store(prims: Token.Primitives, key: Token.Bytes, id: string, seed: string, path: PathGen.GeneratedPath,
                 nonce: string, now: real, jitterMouse: real, jitterTouch: real)
      returns (r: Result<NewChallengeResponse, int>)
      requires Valid() && id !in records && |path.points| == PathGen.Samples
      modifies this
      ensures Valid()
      ensures (r, records) == NewResult(prims, key, old(records), id, seed, path, nonce, now, jitterMouse, jitterTouch)
    {
      var rec := IssuedRecord(path, seed, nonce, now, jitterMouse, jitterTouch);
      records := records[id := rec];
      var signed := Token.Sign(prims, key, IssuedPayload(id, seed, nonce, now));
      r := Ok(IssuedResponse(id, nonce, now, signed, rec));
    }

    /** `peek_path`: it reads the store and never changes it. */
    method Peek(hypot: (real, real) -> real, prims: Token.Primitives, key: Token.Bytes, req: PeekRequest, now: real,
                finishRevealPx: real) returns (r: Result<PeekResponse, int>)
      requires IsHypot(hypot) && Valid() && |req.cursor| >= 2
      ensures r == PeekResult(hypot, prims, key, records, req, now, finishRevealPx)
    {
      if req.challengeId !in records {
        return Err(404);
      }
      var rec := records[req.challengeId];
      if rec.used {
        return Err(410);
      }
      var claims := Token.Verify(prims, key, req.token);
      if claims.Err? {
        return Err(401);
      }
      if !ClaimIs(claims.value, "cid", Token.JStr(req.challengeId))
         || !ClaimIs(claims.value, "nonce", Token.JStr(req.nonce)) {
        return Err(401);
      }
      if now > ExpiresAt(rec) {
        return Err(410);
      }
      var cursor := CursorPoint(req.cursor);
      var ahead := Lookahead(hypot, rec.points, cursor);
      var distanceToEnd := DistanceToEnd(hypot, rec.points, cursor);
      var finish := if distanceToEnd <= finishRevealPx then Some(rec.points[|rec.points| - 1]) else None;
      r := Ok(PeekResponse(ahead, [], distanceToEnd, finish));
    }

    /** `verify_attempt`: scores the trajectory, then marks the challenge used. */
    method Verify(hypot: (real, real) -> real, prims: Token.Primitives, key: Token.Bytes, req: VerifyRequest,
                  now: real) returns (r: Result<VerifyResponse, int>)
      requires IsHypot(hypot) && Valid() && ValidVerifyRequest(req)
      modifies this
      ensures Valid()
      ensures (r, records) == VerifyResult(hypot, prims, key, old(records), req, now)
    {
      var id := req.challengeId;
      if id !in records {
        return Err(404);
      }
      var rec := records[id];
      if rec.used {
        return Err(410);
      }
      var expiresAt := ExpiresAt(rec);
      var claims := Token.Verify(prims, key, req.token);
      if claims.Err? {
        return Err(401);
      }
      if !ClaimIs(claims.value, "cid", Token.JStr(id)) || !ClaimIs(claims.value, "nonce", Token.JStr(req.nonce))
         || !ClaimIs(claims.value, "ttl", Token.JNum(rec.ttlMs as real)) {
        return Err(401);
      }
      r := ScoreAndMark(hypot, id, req, now, expiresAt);
    }

    /** The part of `verify_attempt` after the token checks: score the trajectory, mark the challenge used. */
    method ScoreAndMark(hypot: (real, real) -> real, id: string, req: VerifyRequest, now: real, expiresAt: real)
      returns (r: Result<VerifyResponse, int>)
      requires IsHypot(hypot) && Valid() && ValidVerifyRequest(req)
      requires id in records && expiresAt == ExpiresAt(records[id])
      modifies this
      ensures Valid()
      ensures records == old(records)[id := MarkUsed(old(records)[id])]
      ensures r == Ok(Respond(Score(hypot, old(records)[id], req, now), old(records)[id]))
    {
      var rec := records[id];
      var tolerance := Verifier.EffectiveTolerance(rec.tolerances, req.pointerType, req.devicePixelRatio);
      var outcome := Verifier.VerifyTrajectory(hypot, rec.points, tolerance, req.trajectory, now, expiresAt);
      records := records[id := MarkUsed(rec)];
      r := Ok(Respond(outcome, rec));
    }
  }
}
