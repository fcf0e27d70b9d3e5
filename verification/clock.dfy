/** Instants and durations. An instant is a count of nanoseconds since the
    Unix epoch (unbounded); a duration is Go's `time.Duration`, a signed
    64-bit nanosecond count. */
module Clock {
  import Numeric

  const NanosPerSecond: int := 1_000_000_000
  const MinDuration: int := -0x8000_0000_0000_0000
  const MaxDuration: int := 0x7fff_ffff_ffff_ffff

  /** `t.Sub(u)`: the exact difference when it fits in a duration, otherwise
      the nearest representable duration (Go saturates instead of wrapping). */
  function Sub(t: int, u: int): (d: int)
    ensures MinDuration <= d <= MaxDuration
    ensures d > 0 <==> t > u
    ensures d == 0 <==> t == u
    ensures MinDuration <= t - u <= MaxDuration ==> d == t - u
    ensures t - u > MaxDuration ==> d == MaxDuration
    ensures t - u < MinDuration ==> d == MinDuration
  {
    if t - u > MaxDuration then MaxDuration
    else if t - u < MinDuration then MinDuration
    else t - u
  }

  /** `d.Seconds()`, on exact reals. */
  function Seconds(d: int): (s: real)
    ensures s * NanosPerSecond as real == d as real
  {
    d as real / NanosPerSecond as real
  }

  /** A later instant is never closer to a fixed origin. */
  lemma SubMonotone(origin: int, t1: int, t2: int)
    requires t1 <= t2
    ensures Sub(t1, origin) <= Sub(t2, origin)
  {
  }

  /** Whole seconds of a non-negative duration: truncating `Seconds` is
      integer division by one second. */
  lemma TruncSeconds(d: int)
    ensures 0 <= d ==> Numeric.Trunc(Seconds(d)) == d / NanosPerSecond
  {
    if 0 <= d {
      Numeric.FloorOfQuotient(d, NanosPerSecond);
    }
  }
}
