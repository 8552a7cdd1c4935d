/** Go's time.Time without its monotonic reading: an instant in nanoseconds since
    1 January of year 1 UTC, and the zone offset it is shown in. */
module GoTime {

  const SECOND: int := 1_000_000_000
  const MINUTE: int := 60 * SECOND

  /** Seconds from year 1 to the Unix epoch. */
  const UNIX_EPOCH: int := 62_135_596_800

  datatype Time = Time(instant: int, offset: int) {

    /** The zero time is an instant; the zone does not matter. */
    predicate IsZero() { instant == 0 }

    function Utc(): Time { Time(instant, 0) }

    predicate After(other: Time) { instant > other.instant }

    predicate Before(other: Time) { instant < other.instant }

    predicate Equal(other: Time) { instant == other.instant }

    function Add(duration: int): Time { Time(instant + duration, offset) }

    function Sub(other: Time): int { instant - other.instant }
  }

  const ZERO: Time := Time(0, 0)

  /** time.Unix(seconds, 0).UTC() */
  function Unix(seconds: int): Time {
    Time((seconds + UNIX_EPOCH) * SECOND, 0)
  }

  /** The epoch is the 1969 years from year 1 to 1970, in days of the Gregorian calendar. */
  lemma EpochIsGregorian()
    ensures UNIX_EPOCH == (1969 * 365 + 1969 / 4 - 1969 / 100 + 1969 / 400) * 24 * 60 * 60
    ensures SECOND == 1000 * 1000 * 1000
  {
  }
}
