/** Time as the supervisor sees it: Go's `time.Time` and `time.Duration`
    reduced to whole nanoseconds on one integer line. */
module Clock {

  /** An instant, in nanoseconds on the wall clock. */
  type Instant = int

  /** A signed span of time in nanoseconds, like Go's `time.Duration`. */
  type Duration = int

  const Second: Duration := 1_000_000_000
  const Minute: Duration := 60 * Second
  const Hour: Duration := 60 * Minute

  /** The whole number of minutes in `d`, as `int(d.Minutes())` yields it:
      the conversion of the fractional minute count to `int` drops the
      fraction, that is, it truncates toward zero. */
  function WholeMinutes(d: Duration): (m: int)
    ensures 0 <= d ==> 0 <= m && m * Minute <= d < (m + 1) * Minute
    ensures d < 0 ==> m <= 0 && (m - 1) * Minute < d <= m * Minute
  {
    if d >= 0 then d / Minute else -((-d) / Minute)
  }
}
