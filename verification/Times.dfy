/** Times are in nanoseconds. */
module Times {
  const SECOND: int := 1_000_000_000

  /** Whole seconds, rounded down. */
  function Seconds(t: int): int {
    t / SECOND
  }
}
