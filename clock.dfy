/** Wall-clock time as whole seconds; the clock itself is always a parameter. */
module Clock {

  const HOUR: int := 3600
  const DAY: int := 24 * HOUR

  /**
   * Whole days elapsed from `since` to `now`: the `.days` of the
   * difference of two datetimes, which rounds towards minus infinity.
   */
  function Days(now: int, since: int): (d: int)
    ensures d * DAY <= now - since < (d + 1) * DAY
  {
    (now - since) / DAY
  }
}
