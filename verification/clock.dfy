/** The lease's clock: millisecond counts that fit in 64 bits, with saturating
    arithmetic (crates/agent-lease/src/clock.rs). */
module Clock {

  const U64_MAX := 0xFFFF_FFFF_FFFF_FFFF

  type Millis = x: int | 0 <= x <= 0xFFFF_FFFF_FFFF_FFFF

  /** Milliseconds since some moment the caller chose. */
  type Instant = Millis

  /** `t` and `d` more, as far as 64 bits reach. */
  function Plus(t: Instant, d: Millis): Instant {
    if t + d > U64_MAX then U64_MAX else t + d
  }

  /** How long since `earlier`, or zero when `earlier` is in fact later. */
  function Since(t: Instant, earlier: Instant): Millis {
    if t < earlier then 0 else t - earlier
  }

  /** Deadlines are inclusive. */
  predicate Reached(t: Instant, deadline: Instant) {
    t >= deadline
  }

  function Later(a: Instant, b: Instant): Instant {
    if a < b then b else a
  }

  function Earlier(a: Instant, b: Instant): Instant {
    if a < b then a else b
  }

  /** The two ways the lease measures a deadline (elapsed time against a limit,
      an instant against a deadline) agree for a positive limit, unless the
      deadline itself ran off the top of the clock. */
  lemma SinceAgreesWithReached(t: Instant, start: Instant, d: Millis)
    requires d > 0
    ensures Since(t, start) >= d <==> Reached(t, Plus(start, d)) && start + d <= U64_MAX
  {
  }
}
