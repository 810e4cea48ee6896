/**
 * Request and response records of the CAPTCHA API (backend/models.py), and the
 * checks the request layer applies before a handler runs: `pointerType` is one
 * of three literals and a trajectory has at least two samples.
 */
module Models {
  import opened Wrappers
  import opened Geometry

  /** One pointer sample: position in CSS pixels, client time in whole milliseconds. */
  datatype TrajectorySample = TrajectorySample(x: real, y: real, t: int)

  datatype PointerType = Mouse | Touch | Pen

  /** The wire spelling of a pointer type. */
  function PointerTypeName(p: PointerType): (name: string)
    ensures name == "mouse" || name == "touch" || name == "pen"
    ensures name == "mouse" <==> p == Mouse
    ensures name == "touch" <==> p == Touch
  {
    match p
    case Mouse => "mouse"
    case Touch => "touch"
    case Pen => "pen"
  }

  /** `Literal["mouse", "touch", "pen"]`: exactly those three strings are accepted. */
  function ParsePointerType(s: string): (r: Option<PointerType>)
    ensures r.Some? <==> s == "mouse" || s == "touch" || s == "pen"
    ensures r.Some? ==> PointerTypeName(r.value) == s
  {
    if s == "mouse" then Some(Mouse)
    else if s == "touch" then Some(Touch)
    else if s == "pen" then Some(Pen)
    else None
  }

  lemma PointerTypeRoundTrip(p: PointerType)
    ensures ParsePointerType(PointerTypeName(p)) == Some(p)
  {
  }

  datatype PeekRequest = PeekRequest(challengeId: string, nonce: string, token: string, cursor: seq<real>)

  datatype PeekResponse = PeekResponse(ahead: seq<Point>, behind: seq<Point>, distanceToEnd: real,
                                       finish: Option<Point>)

  datatype VerifyRequest = VerifyRequest(
    challengeId: string,
    nonce: string,
    token: string,
    sessionId: string,
    pointerType: PointerType,
    osFamily: Option<string>,
    browserFamily: Option<string>,
    devicePixelRatio: Option<real>,
    trajectory: seq<TrajectorySample>)

  /** A request that passed validation; the handlers may read its first and last samples. */
  predicate ValidVerifyRequest(req: VerifyRequest)
  {
    |req.trajectory| >= 2
  }

  datatype Thresholds = Thresholds(requiredCoverageRatio: real, tooFastMs: int, ttlMs: int)

  datatype VerifyResponse = VerifyResponse(
    passed: bool,
    reason: string,
    coverageRatio: real,
    durationMs: real,
    ttlExpired: bool,
    tooFast: bool,
    behaviouralFlag: bool,
    newChallengeRecommended: bool,
    thresholds: Thresholds,
    expiresAt: real)

  datatype NewChallengeResponse = NewChallengeResponse(
    challengeId: string,
    ttlMs: int,
    expiresAt: real,
    nonce: string,
    token: string,
    startPoint: Point,
    targetCompletionMs: int,
    trailVisibleMs: int,
    trailFadeoutMs: int,
    canvasWidth: real,
    canvasHeight: real)

  /** `trajectory_has_samples`: the trajectory is kept unchanged, or refused when it has fewer than two samples. */
  function ValidateTrajectory(v: seq<TrajectorySample>): (r: Result<seq<TrajectorySample>, string>)
    ensures r.Ok? <==> |v| >= 2
    ensures r.Ok? ==> r.value == v
  {
    if |v| < 2 then Err("trajectory requires at least two samples") else Ok(v)
  }

  /**
   * Building a `VerifyRequest` from its wire fields: the pointer type must be one of
   * the three literals and the trajectory must pass the validator; the optional
   * fields are passed through.
   */
  function MakeVerifyRequest(challengeId: string, nonce: string, token: string, sessionId: string,
                             pointerType: string, osFamily: Option<string>, browserFamily: Option<string>,
                             devicePixelRatio: Option<real>, trajectory: seq<TrajectorySample>)
    : (r: Result<VerifyRequest, string>)
    ensures r.Ok? <==> ParsePointerType(pointerType).Some? && |trajectory| >= 2
    ensures r.Ok? ==> ValidVerifyRequest(r.value) && PointerTypeName(r.value.pointerType) == pointerType
    ensures r.Ok? ==> r.value == VerifyRequest(challengeId, nonce, token, sessionId, r.value.pointerType,
                                               osFamily, browserFamily, devicePixelRatio, trajectory)
  {
    match ParsePointerType(pointerType)
    case None => Err("pointerType must be one of mouse, touch, pen")
    case Some(p) =>
      match ValidateTrajectory(trajectory)
      case Err(e) => Err(e)
      case Ok(traj) =>
        Ok(VerifyRequest(challengeId, nonce, token, sessionId, p, osFamily, browserFamily, devicePixelRatio, traj))
  }
}
