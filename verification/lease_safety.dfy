/** Safety of the lease over whole runs: who may dispatch, what every change
    owes, who survives a preemption, and how long a grant lasts. */
module LeaseSafety {
  import opened Clock
  import opened Wrappers
  import opened Parties
  import opened Transitions
  import opened LeaseMachine
  import opened LeaseInvariant

  // ---------------------------------------------------------------- releases

  /** The grant whose holder may dispatch, if any. */
  function Dispatching(l: LeaseState): Option<nat> {
    if l.phase.Held? && l.holder.Some? then Some(l.holder.value.leaseId) else None
  }

  function Holding(l: LeaseState): Option<nat> {
    if l.holder.Some? then Some(l.holder.value.leaseId) else None
  }

  /** If who may dispatch changed, the transition owes a release. */
  predicate DispatchAccountedFor(l: LeaseState, after: LeaseState, t: Option<Transition>) {
    Dispatching(after) != Dispatching(l) ==> t.Some? && t.value.MustRelease()
  }

  lemma AcquireAccountsForDispatch(l: LeaseState, party: Party, queue: bool, now: Instant)
    requires Inv(l)
    ensures var s := Acquire(l, party, queue, now);
      DispatchAccountedFor(l, s.lease, if s.answer.Ok? then Some(s.answer.value) else None)
  {
  }

  lemma TickAccountsForDispatch(l: LeaseState, now: Instant)
    requires Inv(l)
    ensures DispatchAccountedFor(l, Tick(l, now).lease, Some(Tick(l, now).transition))
  {
  }

  /** Every call that changes who may dispatch returns a transition that owes a
      release; the one exception is the caller reporting the release done. */
  lemma DispatchChangeOwesRelease(l: LeaseState, c: TimedCall)
    requires Inv(l) && !c.call.DoConfirmRelease?
    ensures DispatchAccountedFor(l, Apply(l, c).0, Apply(l, c).1)
  {
    match c.call
    case DoAcquire(party, queue) => AcquireAccountsForDispatch(l, party, queue, c.now);
    case DoTick => TickAccountsForDispatch(l, c.now);
    case _ =>
  }

  /** The lease changed hands: a fresh grant is being handed over, or nobody
      holds it, and the transition owes a release and names who left. */
  predicate ChangedHands(l: LeaseState, after: LeaseState, t: Option<Transition>) {
    && t.Some? && t.value.MustRelease()
    && (l.holder.Some? <==> t.value.departed.Some?)
    && after.nextLeaseId >= l.nextLeaseId
    && (after.holder.Some? ==>
          && after.phase.HandingOver?
          && after.holder.value.leaseId == l.nextLeaseId
          && after.nextLeaseId == l.nextLeaseId + 1)
  }

  lemma AcquireChangesHands(l: LeaseState, party: Party, queue: bool, now: Instant)
    requires Inv(l)
    ensures var s := Acquire(l, party, queue, now);
      || (Holding(s.lease) == Holding(l) && s.lease.nextLeaseId == l.nextLeaseId)
      || ChangedHands(l, s.lease, if s.answer.Ok? then Some(s.answer.value) else None)
  {
  }

  lemma TickChangesHands(l: LeaseState, now: Instant)
    requires Inv(l)
    ensures var s := Tick(l, now);
      || (Holding(s.lease) == Holding(l) && s.lease.nextLeaseId == l.nextLeaseId)
      || ChangedHands(l, s.lease, Some(s.transition))
  {
  }

  /** Whatever the call, either the same grant holds the lease and no id was
      minted, or the lease changed hands with a release owed. */
  lemma HolderChangeOwesRelease(l: LeaseState, c: TimedCall)
    requires Inv(l)
    ensures var r := Apply(l, c);
      || (Holding(r.0) == Holding(l) && r.0.nextLeaseId == l.nextLeaseId)
      || ChangedHands(l, r.0, r.1)
  {
    match c.call
    case DoAcquire(party, queue) => AcquireChangesHands(l, party, queue, c.now);
    case DoTick => TickChangesHands(l, c.now);
    case _ =>
  }

  predicate NoConfirms(calls: seq<TimedCall>) {
    forall i :: 0 <= i < |calls| ==> !calls[i].call.DoConfirmRelease?
  }

  /** Nobody holds the lease, or the release owed to whoever does is not confirmed. */
  predicate OwesRelease(l: LeaseState) {
    l.phase.Unheld? || l.phase.HandingOver?
  }

  lemma StillOwesRelease(l: LeaseState, c: TimedCall)
    requires Inv(l) && OwesRelease(l) && !c.call.DoConfirmRelease?
    ensures OwesRelease(Apply(l, c).0)
  {
  }

  /** A handed-over lease dispatches for nobody until the release is confirmed:
      whoever asks, cancels, reconnects, renews, lets go or lets time pass, in
      whatever order, nobody passes the fence before a confirmation. */
  lemma {:induction false} NobodyDispatchesWhileHandingOver(l: LeaseState, calls: seq<TimedCall>, id: PartyId)
    requires Inv(l) && OwesRelease(l) && NoConfirms(calls)
    ensures Fence(Run(l, calls), id) == ReleaseOnly
    decreases |calls|
  {
    if calls != [] {
      StillOwesRelease(l, calls[0]);
      ApplyKeepsInv(l, calls[0]);
      NobodyDispatchesWhileHandingOver(Apply(l, calls[0]).0, calls[1..], id);
    }
  }

  // ---------------------------------------------------------------- preemption

  /** A grant that is gone: its id is behind the counter and not the holder's. */
  predicate Gone(l: LeaseState, leaseId: nat) {
    leaseId < l.nextLeaseId && Holding(l) != Some(leaseId)
  }

  lemma GoneStep(l: LeaseState, c: TimedCall, leaseId: nat)
    requires Inv(l) && Gone(l, leaseId)
    ensures Inv(Apply(l, c).0) && Gone(Apply(l, c).0, leaseId)
  {
    ApplyKeepsInv(l, c);
    HolderChangeOwesRelease(l, c);
  }

  lemma {:induction false} GoneForGood(l: LeaseState, calls: seq<TimedCall>, leaseId: nat)
    requires Inv(l) && Gone(l, leaseId)
    ensures Gone(Run(l, calls), leaseId)
    decreases |calls|
  {
    if calls != [] {
      GoneStep(l, calls[0], leaseId);
      GoneForGood(Apply(l, calls[0]).0, calls[1..], leaseId);
    }
  }

  predicate Uses(calls: seq<TimedCall>, call: Call) {
    exists i :: 0 <= i < |calls| && calls[i].call == call
  }

  lemma UsedLater(calls: seq<TimedCall>, call: Call)
    requires calls != []
    ensures Uses(calls[1..], call) ==> Uses(calls, call)
  {
    if Uses(calls[1..], call) {
      var i :| 0 <= i < |calls[1..]| && calls[1..][i].call == call;
      assert calls[i + 1].call == call;
    }
  }

  /** Still being preempted, in favour of the same party and deadline. */
  predicate PreemptedFor(l: LeaseState, leaseId: nat, requester: PartyId, deadline: Instant) {
    && l.phase.PreemptPending? && l.pending.Some?
    && Holding(l) == Some(leaseId)
    && PendingFor(l, requester)
    && l.pending.value.deadline == deadline
  }

  lemma PreemptionStep(l: LeaseState, c: TimedCall, leaseId: nat, requester: PartyId, deadline: Instant)
    requires Inv(l) && PreemptedFor(l, leaseId, requester, deadline)
    requires c.call != DoCancelWait(requester)
    ensures var after := Apply(l, c).0;
      || PreemptedFor(after, leaseId, requester, deadline)
      || (Gone(after, leaseId) && (HeldBy(after, requester) || c.call.DoForceRelease?))
    ensures c.call.DoTick? && Reached(c.now, deadline) ==>
      Gone(Apply(l, c).0, leaseId) && HeldBy(Apply(l, c).0, requester)
    ensures c.call.DoTick? && !Reached(c.now, deadline) ==>
      PreemptedFor(Apply(l, c).0, leaseId, requester, deadline)
  {
  }

  /** A preempted grant never dispatches again: from the moment a preemption is
      pending, no run of calls in which the requester does not itself withdraw
      lets that grant through the fence. */
  lemma {:induction false} PreemptedNeverDispatches(
    l: LeaseState, calls: seq<TimedCall>, leaseId: nat, requester: PartyId, deadline: Instant)
    requires Inv(l) && PreemptedFor(l, leaseId, requester, deadline)
    requires !Uses(calls, DoCancelWait(requester))
    ensures Dispatching(Run(l, calls)) != Some(leaseId)
    decreases |calls|
  {
    if calls != [] {
      var after := Apply(l, calls[0]).0;
      assert calls[0].call != DoCancelWait(requester);
      PreemptionStep(l, calls[0], leaseId, requester, deadline);
      ApplyKeepsInv(l, calls[0]);
      if PreemptedFor(after, leaseId, requester, deadline) {
        UsedLater(calls, DoCancelWait(requester));
        PreemptedNeverDispatches(after, calls[1..], leaseId, requester, deadline);
      } else {
        GoneForGood(after, calls[1..], leaseId);
      }
    }
  }

  /** The next grant after the preempted one goes to the requester, in every run
      in which it does not withdraw and nobody hits the panic chord: the first
      state that is no longer preempted is held by the requester. */
  lemma {:induction false} RequesterSucceeds(
    l: LeaseState, calls: seq<TimedCall>, leaseId: nat, requester: PartyId, deadline: Instant)
    returns (n: nat)
    requires Inv(l) && PreemptedFor(l, leaseId, requester, deadline)
    requires !Uses(calls, DoCancelWait(requester)) && !Uses(calls, DoForceRelease)
    requires !PreemptedFor(Run(l, calls), leaseId, requester, deadline)
    ensures 0 < n <= |calls|
    ensures HeldBy(Run(l, calls[..n]), requester)
    ensures forall i :: 0 <= i < n ==> PreemptedFor(Run(l, calls[..i]), leaseId, requester, deadline)
    decreases |calls|
  {
    var after := Apply(l, calls[0]).0;
    assert calls[0].call != DoCancelWait(requester) && calls[0].call != DoForceRelease;
    PreemptionStep(l, calls[0], leaseId, requester, deadline);
    ApplyKeepsInv(l, calls[0]);
    hide Inv, Apply, PreemptedFor, Gone;
    if PreemptedFor(after, leaseId, requester, deadline) {
      UsedLater(calls, DoCancelWait(requester));
      UsedLater(calls, DoForceRelease);
      var m := RequesterSucceeds(after, calls[1..], leaseId, requester, deadline);
      n := m + 1;
      forall i | 0 < i <= n
        ensures Run(l, calls[..i]) == Run(after, calls[1..][..i - 1])
      {
        assert calls[..i][1..] == calls[1..][..i - 1];
      }
    } else {
      n := 1;
      assert calls[..1][1..] == [];
    }
    assert calls[..0] == [];
  }

  // ---------------------------------------------------------------- minimum hold

  /** A departure the minimum hold speaks about: yielded to whoever waited, or
      preempted by anybody but a person preempting an agent. */
  predicate FloorApplies(t: Transition) {
    && t.departed.Some?
    && (|| t.departed.value.cause.YieldedToWaiter?
        || (t.departed.value.cause.Preempted? &&
            !(t.outcome.Granted? && !t.outcome.holder.kind.Agent? && t.departed.value.party.kind.Agent?)))
  }

  predicate FloorHonoured(l: LeaseState, t: Option<Transition>) {
    t.Some? && FloorApplies(t.value) ==> t.value.departed.value.heldForMs >= l.policy.minHoldMs
  }

  lemma AcquireHonoursFloor(l: LeaseState, party: Party, queue: bool, now: Instant)
    requires Inv(l)
    ensures var s := Acquire(l, party, queue, now);
      FloorHonoured(l, if s.answer.Ok? then Some(s.answer.value) else None)
  {
  }

  lemma TickHonoursFloor(l: LeaseState, now: Instant)
    requires Inv(l) && now < U64_MAX
    ensures FloorHonoured(l, Some(Tick(l, now).transition))
  {
  }

  /** The minimum hold is honoured by every call at an instant below the top of
      the clock, whatever happened before it. */
  lemma MinimumHoldHonoured(l: LeaseState, c: TimedCall)
    requires Inv(l) && c.now < U64_MAX
    ensures FloorHonoured(l, Apply(l, c).1)
  {
    match c.call
    case DoAcquire(party, queue) => AcquireHonoursFloor(l, party, queue, c.now);
    case DoTick => TickHonoursFloor(l, c.now);
    case _ =>
  }

  /** So it is honoured in every run of a fresh lease. */
  lemma MinimumHoldInEveryRun(policy: Policy, calls: seq<TimedCall>, c: TimedCall)
    requires c.now < U64_MAX
    ensures FloorHonoured(Run(Fresh(policy), calls), Apply(Run(Fresh(policy), calls), c).1)
  {
    FreshIsValid(policy, calls);
    MinimumHoldHonoured(Run(Fresh(policy), calls), c);
  }

  /** At the top of the clock a deadline saturates, and then a holder yields to
      a waiter with its minimum hold honoured if and only if the hold would have
      ended on the clock at all. */
  lemma MinimumHoldExactly(l: LeaseState, now: Instant)
    requires Inv(l)
    requires FloorApplies(Tick(l, now).transition)
    ensures Tick(l, now).transition.departed.value.heldForMs >= l.policy.minHoldMs <==>
      || l.phase.PreemptPending?
      || l.holder.value.grantedAt + l.policy.minHoldMs <= U64_MAX
  {
    TickKeepsInv(l, now);
  }

  /** So at the very top of the clock the minimum hold can be cut short: an
      agent is granted a fresh lease, another asks, and the next tick takes it. */
  lemma MinimumHoldCutShortAtTheTop()
    ensures exists policy: Policy, calls: seq<TimedCall> ::
      && FloorApplies(Tick(Run(Fresh(policy), calls), U64_MAX).transition)
      && Tick(Run(Fresh(policy), calls), U64_MAX).transition.departed.value.heldForMs < policy.minHoldMs
  {
    var policy := Policy(60_000, 30_000, 20_000, 8_000, 10_000, 15_000, 8, 3_000, 2_000, 20_000);
    var a, b := Party("a", Agent, 50), Party("b", Agent, 50);
    var t := U64_MAX - 1;
    var calls := [TimedCall(DoAcquire(a, true), t), TimedCall(DoConfirmRelease, t), TimedCall(DoAcquire(b, true), t)];
    var held := LeaseState(policy, Held, Some(Holder(1, a, t, t, t, true, None)), None, [], 2, None, None);
    var l := held.(queue := [Waiter(b, t, t)], contendedSince := Some(t));
    assert Run(Fresh(policy), calls) == l by {
      assert calls[1..] == [calls[1], calls[2]] && calls[1..][1..] == [calls[2]];
      assert Run(held, [calls[2]]) == l;
    }
    assert Waiters(l.queue, U64_MAX, policy.queueTtlMs, false) == [Waiter(b, t, t)];
    assert DueCause(Swept(l, U64_MAX), U64_MAX) == Some(YieldedToWaiter);
    assert Tick(l, U64_MAX).transition.departed.value.heldForMs == 1;
  }
}
