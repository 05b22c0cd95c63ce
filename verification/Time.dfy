/** Clock units. All instants and durations are integers in nanoseconds. */
module Time {
  const MILLISECOND := 1_000_000
  const SECOND := 1000 * MILLISECOND
  /** The 50 ms used both as the throttle's margin and as the start gate's tolerance. */
  const MARGIN := 50 * MILLISECOND
}
