/** Time as the modelled code reads it. */
module Clock {
  /** Nanoseconds since the Unix epoch. */
  type Time = int

  const SECOND := 1_000_000_000
}
