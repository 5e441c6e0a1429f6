/** Durations in nanoseconds, and powers of two. */
module Durations {

  const MILLISECOND: int := 1_000_000
  const SECOND: int := 1_000_000_000
  const MINUTE: int := 60_000_000_000
  const HOUR: int := 3_600_000_000_000
  const DAY: int := 86_400_000_000_000

  function Pow2(k: nat): (p: nat)
    ensures p > 0
  {
    if k == 0 then 1 else 2 * Pow2(k - 1)
  }
}
