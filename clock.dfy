/**
 * Instants and durations.  An instant is a count of nanoseconds since Go's zero
 * time (January 1, year 1 UTC); a duration is a count of nanoseconds, as Go's
 * time.Duration.  The clock itself is outside the model: handlers receive the
 * reading `now` as a parameter.
 */
module Clock {
  const NanosPerMinute: int := 60_000_000_000
  const NanosPerHour: int := 60 * NanosPerMinute
  const NanosPerDay: int := 24 * NanosPerHour
}
