/** Instants and durations, in nanoseconds. */
module Time {
  import opened Machine

  type Instant = int

  const SECOND: int := 1_000_000_000

  /** A duration in whole seconds, truncated toward zero, without its sign. */
  function WholeSeconds(duration: int): nat {
    Abs(TruncDiv(duration, SECOND))
  }

  lemma SecondsGrow(a: int, b: int)
    requires 0 <= a <= b
    ensures WholeSeconds(a) <= WholeSeconds(b)
  {
    DivMonotone(a, b, SECOND);
  }

  lemma WholeSecondsIs(duration: int)
    ensures WholeSeconds(duration) == (if duration >= 0 then duration else 0 - duration) / 1_000_000_000
  {
  }
}
