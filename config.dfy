/**
 * Shared thresholds of the line-trace CAPTCHA (backend/config.py and, for the
 * three the backend reads but does not define there, src/line_captcha/config.ts).
 * Lengths are in CSS pixels, times in milliseconds unless the name says otherwise.
 */
module Config {

  const CanvasWidthPx: real := 400.0
  const CanvasHeightPx: real := 400.0

  const PathTravelPxMin: real := 200.0
  const PathTravelPxMax: real := 300.0
  const MaxGentleBends: nat := 2

  const TargetCompletionTimeMs: int := 3000
  const ChallengeTtlMs: int := 12000
  const TooFastThresholdMs: int := 1000
  const TrailVisibleMs: int := 400
  const TrailFadeoutMs: int := 600
  const RequiredCoverageRatio: real := 0.75

  /** Base tolerance radius of each pointer profile ("pen" uses the touch profile). */
  const MouseTolerancePx: real := 20.0
  const TouchTolerancePx: real := 30.0

  const FallbackAfterFailures: nat := 3

  /** Defined in src/line_captcha/config.ts (lines 12, 18, 19). */
  const MinSamples: nat := 20
  const SpeedConstancyRatio: real := 0.08
  const MaxAccelPxPerS2: real := 12000.0
}
