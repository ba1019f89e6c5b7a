/** What `status` says about the future, and when the future agrees. */
module LeaseForecast {
  import opened Clock
  import opened Wrappers
  import opened Parties
  import opened Transitions
  import opened LeaseMachine
  import opened LeaseInvariant
  import opened LeaseSafety
  import opened LeaseEffects

  predicate TicksWithin(calls: seq<TimedCall>, from: Instant, to: Instant) {
    forall i :: 0 <= i < |calls| ==> calls[i].call.DoTick? && from <= calls[i].now < to
  }

  /** Neither limit on the holder's silence is zero. */
  predicate LimitsArePositive(l: LeaseState) {
    l.phase.Held? && l.holder.Some? ==>
      && l.policy.leaseTtlMs > 0
      && (if l.holder.value.party.kind.Agent? then l.policy.idleRevokeMs else l.policy.personIdleMs) > 0
  }

  /** `after` is `l` with some waiters gone, none of whom would last until `at`. */
  predicate SameUntil(l: LeaseState, after: LeaseState, at: Instant) {
    && after.policy == l.policy && after.phase == l.phase
    && after.holder == l.holder && after.pending == l.pending
    && Waiters(after.queue, at, l.policy.queueTtlMs, false) == Waiters(l.queue, at, l.policy.queueTtlMs, false)
    && (after.queue != [] ==> l.queue != [] && after.contendedSince == l.contendedSince)
  }

  /** A tick at this instant takes the lease from its holder. */
  predicate TickTakesIt(l: LeaseState, at: Instant) {
    Holding(Tick(l, at).lease) != Holding(l)
  }

  lemma {:induction false} SweepingTwice(q: seq<Waiter>, t: Instant, at: Instant, ttl: Millis)
    requires t <= at
    ensures Waiters(Waiters(q, t, ttl, false), at, ttl, false) == Waiters(q, at, ttl, false)
  {
    if q != [] {
      SweepingTwice(q[1..], t, at, ttl);
      var rest := Waiters(q[1..], t, ttl, false);
      assert ([q[0]] + rest)[1..] == rest;
    }
  }

  /** Losing waiters brings no deadline forward. */
  lemma SweptBefore(l: LeaseState, t: Instant, at: Instant)
    requires Inv(l) && ChangesAt(l).Some? && at <= ChangesAt(l).value && t <= at
    ensures var after := Swept(l, t);
      && SameUntil(l, after, at)
      && ChangesAt(after).Some? && at <= ChangesAt(after).value
  {
    SweepingTwice(l.queue, t, at, l.policy.queueTtlMs);
    assert Swept(l, t).queue != [] ==> l.queue != [];
  }

  lemma NotDueYet(l: LeaseState, t: Instant, at: Instant)
    requires ChangesAt(l).Some? && t < at <= ChangesAt(l).value && LimitsArePositive(l)
    ensures DueCause(l, t).None?
  {
  }

  /** One tick before the forecast instant changes nothing but the queue. */
  lemma TickBefore(l: LeaseState, now: Instant, t: Instant, at: Instant)
    requires Inv(l) && ChangesAt(l).Some? && at <= ChangesAt(l).value
    requires now <= t < at && LimitsArePositive(l)
    ensures var after := Tick(l, t).lease;
      && SameUntil(l, after, at)
      && ChangesAt(after).Some? && at <= ChangesAt(after).value
    ensures !TickTakesIt(l, t)
  {
    SweptBefore(l, t, at);
    NotDueYet(Swept(l, t), t, at);
    hide SameUntil, ChangesAt, DueCause;
  }

  lemma {:induction false} TicksBefore(l: LeaseState, now: Instant, calls: seq<TimedCall>, at: Instant)
    requires Inv(l) && (calls != [] ==> LimitsArePositive(l))
    requires calls != [] ==> ChangesAt(l).Some? && at <= ChangesAt(l).value
    requires TicksWithin(calls, now, at)
    ensures Inv(Run(l, calls)) && SameUntil(l, Run(l, calls), at)
    decreases |calls|
  {
    if calls != [] {
      TickBefore(l, now, calls[0].now, at);
      TickKeepsInv(l, calls[0].now);
      TicksBefore(Tick(l, calls[0].now).lease, now, calls[1..], at);
    }
  }

  lemma TickTakes(l: LeaseState, at: Instant)
    requires Inv(l)
    ensures TickTakesIt(l, at) <==> DueCause(Swept(l, at), at).Some?
    ensures TickTakesIt(l, at) <==> TimeIsUp(l, at)
  {
    SweptIs(l, at);
    TickKeepsInv(l, at);
    DueIs(l, Swept(l, at), at);
    hide SomebodyLive;
  }

  lemma SameIsDue(l: LeaseState, after: LeaseState, at: Instant)
    requires SameUntil(l, after, at)
    ensures DueCause(Swept(l, at), at) == DueCause(Swept(after, at), at)
  {
  }

  lemma DueTick(l: LeaseState, last: LeaseState, at: Instant)
    requires Inv(l) && Inv(last) && SameUntil(l, last, at)
    ensures Holding(last) == Holding(l)
    ensures TickTakesIt(last, at) <==> TimeIsUp(l, at)
  {
    TickTakes(last, at);
    TickTakes(l, at);
    SameIsDue(l, last, at);
    hide Tick, DueCause, Swept, TimeIsUp, Inv;
  }

  lemma ForecastInstant(l: LeaseState, now: Instant, k: Millis)
    requires StatusOf(l, now).changesInMs == Some(k)
    ensures ChangesAt(l).Some? && now + k == Later(now, ChangesAt(l).value)
  {
  }

  lemma ForecastWindow(l: LeaseState, now: Instant, k: Millis, calls: seq<TimedCall>)
    requires k == 0 || LimitsArePositive(l)
    requires StatusOf(l, now).changesInMs == Some(k) && TicksWithin(calls, now, now + k)
    ensures calls != [] ==> LimitsArePositive(l) && ChangesAt(l).Some? && now + k <= ChangesAt(l).value
  {
    hide StatusOf, ChangesAt, LimitsArePositive;
    ForecastInstant(l, now, k);
    assert calls != [] ==> calls[0].now < now + k;
  }

  /** A change is forecast for whoever holds the lease, but for a handover under way. */
  lemma ForecastIsGiven(l: LeaseState, now: Instant)
    requires Inv(l)
    ensures StatusOf(l, now).changesInMs.Some? <==> l.holder.Some? && !l.phase.HandingOver?
  {
  }

  /** Before the forecast instant no tick takes the lease, if and only if that
      instant is now, or the holder is not simply holding, or neither limit on
      its silence is zero. */
  lemma ForecastHoldsExactly(l: LeaseState, now: Instant, k: Millis)
    requires Inv(l) && StatusOf(l, now).changesInMs == Some(k)
    ensures (forall t: Instant :: now <= t < now + k ==> !TickTakesIt(l, t)) <==> k == 0 || LimitsArePositive(l)
  {
    ForecastInstant(l, now, k);
    forall t: Instant | now <= t < now + k
      ensures TickTakesIt(l, t) <==> !LimitsArePositive(l)
    {
      if LimitsArePositive(l) {
        TickBefore(l, now, t, now + k);
      } else {
        TickTakes(l, t);
      }
    }
    if k > 0 && !LimitsArePositive(l) {
      assert TickTakesIt(l, now);
    }
  }

  /** `status` predicts the future. If it reports a change in `k` ms, no run of
      ticks before then takes the lease from its holder, and the tick then takes
      it if and only if the holder's own time is up or somebody who still waits
      has waited it out. */
  lemma StatusPredicts(l: LeaseState, now: Instant, k: Millis, calls: seq<TimedCall>)
    requires Inv(l) && (k == 0 || LimitsArePositive(l))
    requires StatusOf(l, now).changesInMs == Some(k)
    requires TicksWithin(calls, now, now + k)
    ensures now + k <= U64_MAX
    ensures Holding(Run(l, calls)) == Holding(l)
    ensures TickTakesIt(Run(l, calls), now + k) <==> TimeIsUp(l, now + k)
  {
    hide StatusOf, ChangesAt, SameUntil, TimeIsUp, TickTakesIt, TicksWithin, Inv, LimitsArePositive, Holding, Run;
    ForecastInstant(l, now, k);
    ForecastWindow(l, now, k, calls);
    TicksBefore(l, now, calls, now + k);
    DueTick(l, Run(l, calls), now + k);
  }

  /** Below the top of the clock the tick then always takes it, unless the cause
      was to be a waiter and every waiter's own time in the queue ran out first. */
  lemma ForecastComesTrue(l: LeaseState, now: Instant, k: Millis)
    requires Inv(l)
    requires StatusOf(l, now).changesInMs == Some(k) && now + k < U64_MAX
    requires SomebodyLive(l, now + k) || ChangesAt(l) == ChangesAt(l.(queue := []))
    ensures TimeIsUp(l, now + k)
  {
  }

  /** With a zero limit, a fresh lease that was granted and confirmed and is
      asked about at an earlier instant forecasts a change fifty milliseconds
      away, and a tick now already takes it. */
  lemma ForecastBrokenByAZeroLimit()
    ensures exists policy: Policy, calls: seq<TimedCall>, now: Instant ::
      && StatusOf(Run(Fresh(policy), calls), now).changesInMs == Some(50)
      && TickTakesIt(Run(Fresh(policy), calls), now)
  {
    var policy := Policy(0, 30_000, 20_000, 8_000, 10_000, 15_000, 8, 3_000, 2_000, 20_000);
    var a := Party("a", Agent, 50);
    var calls := [TimedCall(DoAcquire(a, true), 100), TimedCall(DoConfirmRelease, 100)];
    var l := LeaseState(policy, Held, Some(Holder(1, a, 100, 100, 100, true, None)), None, [], 2, None, None);
    assert Run(Fresh(policy), calls) == l by {
      var asked := Apply(Fresh(policy), calls[0]).0;
      assert calls[1..] == [calls[1]];
      assert Run(asked, [calls[1]]) == Apply(asked, calls[1]).0;
    }
    assert StatusOf(l, 50).changesInMs == Some(50);
    assert DueCause(Swept(l, 50), 50) == Some(Expired);
    assert TickTakesIt(l, 50);
  }
}
