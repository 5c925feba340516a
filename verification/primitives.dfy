/** Identifiers and instants shared by every layer. */
module Primitives {

  /** A UUID, represented by its canonical text form (what `Display` prints). */
  type Uuid = string

  /** A UTC instant, in nanoseconds since the Unix epoch (chrono's `DateTime<Utc>`). */
  type Instant = int

  const NanosPerSecond: int := 1_000_000_000

  /** `Duration::seconds(secs as i64)` for a duration configured as a `u32` number of seconds. */
  function Seconds(secs: nat): (d: int)
    ensures d >= 0
    ensures d % NanosPerSecond == 0 && d / NanosPerSecond == secs
  {
    secs * NanosPerSecond
  }

  /** `with_nanosecond(0)`: the start of the whole second holding `t` (chrono keeps the
      nanosecond field non-negative, so this rounds down also before the epoch). */
  function TruncateToSecond(t: Instant): (r: Instant)
    ensures r % NanosPerSecond == 0
    ensures r <= t < r + NanosPerSecond
  {
    t - t % NanosPerSecond
  }

  /** The whole second below `t` is the only whole second within one second of it. */
  lemma TruncateIsUnique(t: Instant, r: Instant)
    requires r % NanosPerSecond == 0
    requires r <= t < r + NanosPerSecond
    ensures r == TruncateToSecond(t)
  {
    var q := TruncateToSecond(t);
    assert r == NanosPerSecond * (r / NanosPerSecond);
    assert q == NanosPerSecond * (q / NanosPerSecond);
  }

  /** Truncating a whole second changes nothing. */
  lemma TruncateIdempotent(t: Instant)
    ensures TruncateToSecond(TruncateToSecond(t)) == TruncateToSecond(t)
  {
  }

  /** Adding whole seconds commutes with truncation. */
  lemma TruncateShift(t: Instant, d: int)
    requires d % NanosPerSecond == 0
    ensures TruncateToSecond(t + d) == TruncateToSecond(t) + d
  {
    var q := TruncateToSecond(t);
    assert (q + d) % NanosPerSecond == 0;
    TruncateIsUnique(t + d, q + d);
  }

  /** An instant no later than the whole second of `t` lies in a second no later than `t`'s. */
  lemma SecondOfEarlier(now: Instant, t: Instant)
    requires now <= TruncateToSecond(t)
    ensures now / NanosPerSecond <= t / NanosPerSecond
  {
    var a, q := now / NanosPerSecond, t / NanosPerSecond;
    assert TruncateToSecond(t) == q * NanosPerSecond;
    assert a * NanosPerSecond <= now;
    assert (a - q) * NanosPerSecond <= 0;
  }
}
