/** Conversion of index instants to the whole epoch seconds used for plotting. */
module Epoch {
  const NanosPerSecond: int := 1_000_000_000

  /**
   * The nanosecond count divided by 10^9 with Python's floor division; the
   * divisor is positive, so Dafny's Euclidean division agrees with it, also
   * for instants before the epoch.
   */
  function EpochSeconds(ns: int): (r: int)
    ensures r * NanosPerSecond <= ns < (r + 1) * NanosPerSecond
  {
    ns / NanosPerSecond
  }

  /** A later instant never maps to an earlier second. */
  lemma EpochSecondsMonotone(a: int, b: int)
    requires a <= b
    ensures EpochSeconds(a) <= EpochSeconds(b)
  {
  }

  /** Any instant within one second maps to that second: truncation, not rounding. */
  lemma EpochSecondsFloor(s: int, frac: int)
    requires 0 <= frac < NanosPerSecond
    ensures EpochSeconds(s * NanosPerSecond + frac) == s
  {
  }
}
