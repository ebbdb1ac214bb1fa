/** The countdown sent to a newly connected client (`remaining_time` in `handle_connect`). */
module Countdown {
  import opened Images

  /**
   * `int(max(0, COLLAGE_INTERVAL - elapsed_seconds))`: the whole seconds left
   * until the next collage, truncated, and never negative.
   */
  function RemainingTime(now: Instant, lastCollage: Instant): (r: int)
    ensures r >= 0
    ensures Interval - (now - lastCollage) <= 0 ==> r == 0
    ensures Interval - (now - lastCollage) > 0 ==>
      r * MicrosPerSecond <= Interval - (now - lastCollage) < (r + 1) * MicrosPerSecond
  {
    var left := Interval - (now - lastCollage);
    if left <= 0 then 0 else left / MicrosPerSecond
  }

  /** With the clock not running backwards the countdown stays within `[0, COLLAGE_INTERVAL]`. */
  lemma RemainingTimeBounds(now: Instant, lastCollage: Instant)
    requires lastCollage <= now
    ensures 0 <= RemainingTime(now, lastCollage) <= IntervalSeconds
    ensures RemainingTime(now, lastCollage) == IntervalSeconds <==> now - lastCollage == 0
  {
  }

  /** The countdown reads 0 exactly when less than a second of the interval is left. */
  lemma RemainingTimeZero(now: Instant, lastCollage: Instant)
    ensures RemainingTime(now, lastCollage) == 0 <==> now - lastCollage > Interval - MicrosPerSecond
  {
  }

  /** In particular it reads 0 once the whole interval has passed. */
  lemma RemainingTimeElapsed(now: Instant, lastCollage: Instant)
    requires now - lastCollage >= Interval
    ensures RemainingTime(now, lastCollage) == 0
  {
  }

  /** Later readings never show more time left. */
  lemma RemainingTimeMonotone(earlier: Instant, later: Instant, lastCollage: Instant)
    requires earlier <= later
    ensures RemainingTime(later, lastCollage) <= RemainingTime(earlier, lastCollage)
  {
  }
}
