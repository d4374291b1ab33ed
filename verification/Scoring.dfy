/** Time-based points for a correct answer: linear from 1000 for an instant answer down to 0 at the time limit. */
module Scoring {
  import opened JsMath

  /** The time limit the callers use when they give none, in seconds. */
  const DefaultMaxTime := 30

  /** The most points one answer can earn. */
  const MaxPoints := 1000

  /** `Math.max(0, Math.min(1000, x))`. */
  function Clamp(x: int): (r: int)
    ensures 0 <= r <= MaxPoints
    ensures 0 <= x <= MaxPoints ==> r == x
  {
    if x < 0 then 0 else if x > MaxPoints then MaxPoints else x
  }

  /**
   * `calculatePoints(answerTime, maxTime)`: nothing at or past the limit, otherwise
   * `round(1000 * (1 - answerTime / maxTime))` clamped to [0, 1000]. Times are whole seconds.
   * A zero limit divides by zero: `1 - answerTime / 0` is +Infinity for the negative times
   * that reach it, which the clamp turns into 1000. A negative limit gives a negative
   * ratio, which the clamp turns into 0.
   */
  function CalculatePoints(answerTime: int, maxTime: int): (points: int)
    ensures 0 <= points <= MaxPoints
    ensures answerTime >= maxTime ==> points == 0
  {
    if answerTime >= maxTime then 0
    else if maxTime == 0 then MaxPoints
    else if maxTime > 0 then Clamp(RoundDiv(MaxPoints * (maxTime - answerTime), maxTime))
    else Clamp(RoundDiv(MaxPoints * (answerTime - maxTime), -maxTime))
  }

  /** An instant answer earns the full 1000 points whatever the (positive) limit. */
  lemma {:induction false} InstantAnswerEarnsAll(maxTime: int)
    requires maxTime > 0
    ensures CalculatePoints(0, maxTime) == MaxPoints
  {
    RoundDivExact(MaxPoints, maxTime);
  }

  /** A negative time is clamped to the full 1000 points rather than exceeding it. */
  lemma {:induction false} NegativeTimeClamped(answerTime: int, maxTime: int)
    requires answerTime < 0 < maxTime
    ensures CalculatePoints(answerTime, maxTime) == MaxPoints
  {
    RoundDivExact(MaxPoints, maxTime);
    RoundDivMonotone(MaxPoints * maxTime, MaxPoints * (maxTime - answerTime), maxTime);
  }

  /**
   * Before the limit, the points are the nearest integer (halves up) to the exact linear
   * value `1000 * (maxTime - answerTime) / maxTime`; the clamp never bites there.
   */
  lemma {:induction false} PointsAreRoundedLinear(answerTime: int, maxTime: int)
    requires 0 <= answerTime < maxTime
    ensures var p := CalculatePoints(answerTime, maxTime);
      (2 * p - 1) * maxTime <= 2 * MaxPoints * (maxTime - answerTime) < (2 * p + 1) * maxTime
  {
    var num := MaxPoints * (maxTime - answerTime);
    var r := RoundDiv(num, maxTime);
    RoundDivExact(MaxPoints, maxTime);
    RoundDivMonotone(num, MaxPoints * maxTime, maxTime);
    RoundDivExact(0, maxTime);
    RoundDivMonotone(0, num, maxTime);
    assert 0 <= r <= MaxPoints;
  }

  /** For a fixed limit, answering later never earns more. */
  lemma {:induction false} PointsNonIncreasing(t1: int, t2: int, maxTime: int)
    requires t1 <= t2
    ensures CalculatePoints(t1, maxTime) >= CalculatePoints(t2, maxTime)
  {
    if t2 < maxTime && maxTime > 0 {
      RoundDivMonotone(MaxPoints * (maxTime - t2), MaxPoints * (maxTime - t1), maxTime);
    } else if t2 < maxTime && maxTime < 0 {
      RoundDivMonotone(MaxPoints * (t1 - maxTime), MaxPoints * (t2 - maxTime), -maxTime);
      RoundDivExact(0, -maxTime);
      RoundDivMonotone(MaxPoints * (t2 - maxTime), 0, -maxTime);
    }
  }

  /** The documented sample values for the default 30-second limit. */
  lemma DefaultLimitSamples()
    ensures CalculatePoints(0, DefaultMaxTime) == 1000
    ensures CalculatePoints(5, DefaultMaxTime) == 833
    ensures CalculatePoints(15, DefaultMaxTime) == 500
    ensures CalculatePoints(30, DefaultMaxTime) == 0
    ensures CalculatePoints(45, DefaultMaxTime) == 0
  {
  }
}
