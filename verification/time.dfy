/**
 * Go's `time.Duration` units, in integer nanoseconds, shared by the client
 * engine, its back-off and the offline analysis.
 */
module Time {

  const Millisecond: int := 1_000_000
  const Second: int := 1000 * Millisecond
}
