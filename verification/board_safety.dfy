/** Safety of the board over whole runs: a session is always at rest between
    calls, every change of driver owes a release the caller was told about, and
    only input keeps a lease. */
module BoardSafety {
  import opened Clock
  import opened Wrappers
  import opened Parties
  import opened Transitions
  import opened StableSort
  import opened LeaseMachine
  import opened LeaseInvariant
  import opened LeaseSafety
  import opened B = BoardMachine

  /** Nobody is half way through a handover, and no transport is known lost. */
  predicate AtRest(l: LeaseState) {
    && Inv(l)
    && !l.phase.HandingOver? && !l.phase.HeldGrace?
    && (l.holder.Some? ==> l.holder.value.connected)
  }

  /** At rest but for a handover that has started. */
  predicate NearlyAtRest(l: LeaseState) {
    && Inv(l)
    && !l.phase.HeldGrace?
    && (l.holder.Some? ==> l.holder.value.connected)
  }

  predicate Owes(ts: seq<Transition>) {
    exists i :: 0 <= i < |ts| && ts[i].MustRelease()
  }

  /** The grant is the one the call started with, or a newer one (or none) with
      a release owed in what the call returned. */
  predicate Accounted(l: LeaseState, after: LeaseState, ts: seq<Transition>) {
    || (Holding(after) == Holding(l) && after.nextLeaseId == l.nextLeaseId)
    || (&& Owes(ts)
        && after.nextLeaseId >= l.nextLeaseId
        && (after.holder.Some? ==> after.holder.value.leaseId >= l.nextLeaseId))
  }

  /** The same grant still has the same holder and the same idle clock, unless a
      handover is still to be confirmed. */
  predicate IdleClockKept(l: LeaseState, after: LeaseState) {
    l.holder.Some? && Holding(after) == Holding(l) ==>
      && after.holder.value.party == l.holder.value.party
      && after.holder.value.lastIntentAt == l.holder.value.lastIntentAt
      && !after.phase.HandingOver?
  }

  /** What holds part way through a board call that started from `l`. */
  predicate UnderWay(l: LeaseState, d: Done) {
    && Inv(l) && NearlyAtRest(d.lease)
    && d.lease.policy == l.policy
    && Accounted(l, d.lease, d.transitions)
    && IdleClockKept(l, d.lease)
  }

  lemma OwesMore(ts: seq<Transition>, t: Transition)
    ensures Owes(ts + [t]) <==> Owes(ts) || t.MustRelease()
  {
    if Owes(ts) {
      var i :| 0 <= i < |ts| && ts[i].MustRelease();
      assert (ts + [t])[i].MustRelease();
    }
    if t.MustRelease() {
      assert (ts + [t])[|ts|].MustRelease();
    }
  }

  /** One lease call of the kinds the board makes, returning `t`. */
  predicate Moves(l: LeaseState, after: LeaseState, t: Option<Transition>) {
    && NearlyAtRest(after) && after.policy == l.policy
    && IdleClockKept(l, after)
    && (|| (Holding(after) == Holding(l) && after.nextLeaseId == l.nextLeaseId)
        || ChangedHands(l, after, t))
  }

  lemma Moving(l: LeaseState, d: Done, after: LeaseState, t: Option<Transition>)
    requires UnderWay(l, d) && Moves(d.lease, after, t)
    ensures UnderWay(l, Done(after, if t.Some? then d.transitions + [t.value] else d.transitions, d.refusal))
  {
    if t.Some? {
      OwesMore(d.transitions, t.value);
    }
  }

  // ---------------------------------------------------------------- lease calls

  lemma AcquireMoves(l: LeaseState, party: Party, queue: bool, now: Instant)
    requires AtRest(l)
    ensures var s := Acquire(l, party, queue, now);
      Moves(l, s.lease, if s.answer.Ok? then Some(s.answer.value) else None)
  {
    AcquireKeepsInv(l, party, queue, now);
    AcquireChangesHands(l, party, queue, now);
  }

  lemma TickMoves(l: LeaseState, now: Instant)
    requires AtRest(l)
    ensures Moves(l, Tick(l, now).lease, Some(Tick(l, now).transition))
  {
    TickKeepsInv(l, now);
    TickChangesHands(l, now);
  }

  lemma ReleaseMoves(l: LeaseState, id: PartyId, now: Instant)
    requires AtRest(l) && HeldBy(l, id)
    ensures var s := Release(l, id, l.holder.value.leaseId, now); Moves(l, s.lease, Some(s.transition))
  {
    ReleaseKeepsInv(l, id, l.holder.value.leaseId, now);
  }

  lemma CancelMoves(l: LeaseState, id: PartyId, now: Instant)
    requires NearlyAtRest(l)
    ensures Holding(CancelWait(l, id, now).lease) == Holding(l)
    ensures CancelWait(l, id, now).lease.nextLeaseId == l.nextLeaseId
    ensures CancelWait(l, id, now).lease.holder == l.holder
    ensures NearlyAtRest(CancelWait(l, id, now).lease)
    ensures CancelWait(l, id, now).lease.phase.HandingOver? <==> l.phase.HandingOver?
    ensures CancelWait(l, id, now).lease.policy == l.policy
  {
    CancelWaitKeepsInv(l, id, now);
  }

  lemma Cancelling(l: LeaseState, d: Done, id: PartyId, now: Instant)
    requires UnderWay(l, d)
    ensures UnderWay(l, d.Then(CancelWait(d.lease, id, now)))
    ensures d.Then(CancelWait(d.lease, id, now)).lease.phase.HandingOver? <==> d.lease.phase.HandingOver?
  {
    CancelMoves(d.lease, id, now);
    OwesMore(d.transitions, CancelWait(d.lease, id, now).transition);
  }

  lemma Confirming(l: LeaseState, d: Done, now: Instant)
    requires UnderWay(l, d)
    ensures UnderWay(l, ConfirmInto(d, now)) && AtRest(ConfirmInto(d, now).lease)
    ensures d.lease.phase.HandingOver? ==> ConfirmInto(d, now).lease.holder.value.lastIntentAt == now
  {
    if d.lease.phase.HandingOver? {
      ConfirmKeepsInv(d.lease, now);
      OwesMore(d.transitions, ConfirmRelease(d.lease, now).transition);
    }
  }

  /** A release owed by a tick is never filtered out of what the board returns. */
  lemma TickIntoMoves(l: LeaseState, now: Instant)
    requires AtRest(l)
    ensures UnderWay(l, TickInto(l, now)) && AtRest(TickInto(l, now).lease)
  {
    TickMoves(l, now);
    var s := Tick(l, now);
    var d := Done(s.lease, if s.transition.Changed() || s.transition.MustRelease() then [s.transition] else [], None);
    if s.transition.MustRelease() {
      assert d.transitions[0].MustRelease();
    }
    Confirming(l, d, now);
  }

  // ---------------------------------------------------------------- board calls

  /** What one finished call on a session did to a lease that was at rest. */
  predicate Finished(l: LeaseState, d: Done) {
    UnderWay(l, d) && AtRest(d.lease)
  }

  lemma AskFinishes(l: LeaseState, d: Done, party: Party, gate: Option<LeaseError>, now: Instant)
    requires Finished(l, d)
    ensures Finished(l, AskOp(d, party, gate, now))
  {
    if gate.Some? {
      Cancelling(l, d, party.id, now);
    } else {
      var s := Acquire(d.lease, party, true, now);
      AcquireMoves(d.lease, party, true, now);
      Moving(l, d, s.lease, if s.answer.Ok? then Some(s.answer.value) else None);
      if s.answer.Ok? {
        Confirming(l, d.Then(Step(s.lease, s.answer.value)), now);
      }
    }
  }

  lemma ReleaseFinishes(l: LeaseState, id: PartyId, now: Instant)
    requires AtRest(l)
    ensures Finished(l, ReleaseOp(l, id, now))
  {
    TickIntoMoves(l, now);
    var d := TickInto(l, now);
    if HeldBy(d.lease, id) {
      ReleaseMoves(d.lease, id, now);
      var s := Release(d.lease, id, d.lease.holder.value.leaseId, now);
      Moving(l, d, s.lease, Some(s.transition));
      Cancelling(l, d.Then(s), id, now);
      Confirming(l, d.Then(s).Then(CancelWait(s.lease, id, now)), now);
    } else {
      Cancelling(l, d, id, now);
      Confirming(l, d.Then(CancelWait(d.lease, id, now)), now);
    }
  }

  lemma TakingIfFree(l: LeaseState, d: Done, party: Party, now: Instant)
    requires Finished(l, d)
    ensures Finished(l, TakeIfFree(d, party, now))
  {
    if d.lease.phase.Unheld? {
      var s := Acquire(d.lease, party, false, now);
      AcquireMoves(d.lease, party, false, now);
      Moving(l, d, s.lease, if s.answer.Ok? then Some(s.answer.value) else None);
      if s.answer.Ok? {
        Confirming(l, d.Then(Step(s.lease, s.answer.value)), now);
      }
    }
  }

  /** Everything a finished call keeps but the idle clock, which input moves. */
  predicate Settled(l: LeaseState, d: Done) {
    && AtRest(d.lease) && d.lease.policy == l.policy
    && Accounted(l, d.lease, d.transitions)
    && (l.holder.Some? && Holding(d.lease) == Holding(l) ==> d.lease.holder.value.party == l.holder.value.party)
  }

  lemma NotingIntent(l: LeaseState, d: Done, id: PartyId, now: Instant)
    requires Finished(l, d)
    ensures Settled(l, d.(lease := NoteIntent(d.lease, id, now)))
    ensures HeldBy(d.lease, id) ==> NoteIntent(d.lease, id, now).holder.value.lastIntentAt == now
  {
  }

  /** Input is let through exactly when the sender then holds the lease and may
      dispatch; and letting it through restarts the idle clock. */
  lemma InputFinishes(l: LeaseState, party: Party, now: Instant)
    requires AtRest(l)
    ensures var d := InputOp(l, party, now);
      && Settled(l, d)
      && (d.refusal.None? <==> Fence(d.lease, party.id).Allowed?)
      && (d.refusal.None? ==> d.lease.holder.value.lastIntentAt == now)
      && (d.refusal.Some? ==> Finished(l, d))
  {
    TickIntoMoves(l, now);
    TakingIfFree(l, TickInto(l, now), party, now);
    var d := TakeIfFree(TickInto(l, now), party, now);
    assert d.refusal.Some? ==> !HeldBy(d.lease, party.id) || !d.lease.phase.Held?;
    NotingIntent(l, d, party.id, now);
  }

  lemma PersonInputFinishes(l: LeaseState, person: Party, now: Instant)
    requires AtRest(l)
    ensures Settled(l, PersonInputOp(l, person, now))
    ensures !HeldBy(l, person.id) ==> Finished(l, PersonInputOp(l, person, now))
  {
    TickIntoMoves(l, now);
    var d := TickInto(l, now);
    var s := Acquire(d.lease, person, false, now);
    AcquireMoves(d.lease, person, false, now);
    Moving(l, d, s.lease, if s.answer.Ok? then Some(s.answer.value) else None);
    if s.answer.Ok? {
      Confirming(l, d.Then(Step(s.lease, s.answer.value)), now);
      NotingIntent(l, ConfirmInto(d.Then(Step(s.lease, s.answer.value)), now), person.id, now);
    } else {
      NotingIntent(l, d.(lease := s.lease), person.id, now);
    }
  }

  lemma YieldFinishes(l: LeaseState, id: PartyId, person: PartyId, now: Instant)
    requires AtRest(l)
    ensures Finished(l, YieldOp(l, id, person, now))
  {
    TickIntoMoves(l, now);
    var d := TickInto(l, now);
    if PositionOf(d.lease.queue, id).Some? {
      PromoteKeepsInv(d.lease, id);
      var promoted := d.(lease := Promote(d.lease, id));
      assert Finished(l, promoted);
      Cancelling(l, promoted, person, now);
      var off := promoted.Then(CancelWait(promoted.lease, person, now));
      if HeldBy(off.lease, person) {
        ReleaseMoves(off.lease, person, now);
        var s := Release(off.lease, person, off.lease.holder.value.leaseId, now);
        Moving(l, off, s.lease, Some(s.transition));
        Confirming(l, off.Then(s), now);
      }
    }
  }

  lemma NotNowFinishes(l: LeaseState, id: PartyId, now: Instant)
    requires AtRest(l)
    ensures Finished(l, NotNowOp(l, id, now))
  {
    TickIntoMoves(l, now);
    Cancelling(l, TickInto(l, now), id, now);
  }

  lemma {:induction false} DroppingFinishes(l: LeaseState, asked: seq<Keyed<PartyId>>, now: Instant)
    requires AtRest(l)
    ensures var d := DropRequests(l, asked, now);
      && AtRest(d.lease) && d.lease.policy == l.policy
      && d.lease.holder == l.holder && d.lease.nextLeaseId == l.nextLeaseId
    decreases |asked|
  {
    if asked != [] {
      CancelMoves(l, asked[0].value, now);
      DroppingFinishes(CancelWait(l, asked[0].value, now).lease, asked[1..], now);
    }
  }

  // ---------------------------------------------------------------- requests

  /** Letting an agent have a session hands it over at once exactly when the
      named person is its holder and no preemption is running against them; a
      person who was only about to take over hands the wheel straight back to
      whoever had it. */
  lemma YieldGrantsExactly(l: LeaseState, id: PartyId, person: PartyId, now: Instant)
    requires AtRest(l) && PositionOf(TickInto(l, now).lease.queue, id).Some?
    ensures var was := TickInto(l, now).lease;
      HeldBy(YieldOp(l, id, person, now).lease, id) <==> HeldBy(was, person) && was.pending.None?
  {
    TickIntoMoves(l, now);
    var was := TickInto(l, now).lease;
    PromoteKeepsInv(was, id);
    CancelWaitKeepsInv(Promote(was, id), person, now);
  }

  const AGENT_A := Party("a", Agent, 50)
  const AGENT_B := Party("b", Agent, 50)
  const PERSON_P := Party("p", Human, 100)
  const SOME_POLICY := Policy(60_000, 30_000, 20_000, 8_000, 10_000, 15_000, 8, 3_000, 2_000, 20_000)

  /** Agent a is granted the session, agent b queues, and person p asks for it. */
  const ABOUT_TO_TAKE_OVER := [
    LeaseMachine.TimedCall.TimedCall(DoAcquire(AGENT_A, true), 0),
    LeaseMachine.TimedCall.TimedCall(DoConfirmRelease, 0),
    LeaseMachine.TimedCall.TimedCall(DoAcquire(AGENT_B, true), 0),
    LeaseMachine.TimedCall.TimedCall(DoAcquire(PERSON_P, false), 0)]

  function TakingOver(): LeaseState {
    LeaseState(
      SOME_POLICY, PreemptPending, Some(Holder(1, AGENT_A, 0, 0, 0, true, None)),
      Some(Pending(Waiter(PERSON_P, 0, 0), 2_000)), [Waiter(AGENT_B, 0, 0)], 2, None, Some(0))
  }

  lemma TakesOver()
    ensures Run(Fresh(SOME_POLICY), ABOUT_TO_TAKE_OVER) == TakingOver()
  {
    var c := ABOUT_TO_TAKE_OVER;
    var held := TakingOver().(phase := Held, pending := None, queue := [], contendedSince := None);
    var waiting := held.(queue := [Waiter(AGENT_B, 0, 0)], contendedSince := Some(0));
    var asked := LeaseMachine.Apply(Fresh(SOME_POLICY), c[0]).0;
    assert LeaseMachine.Apply(asked, c[1]).0 == held;
    assert LeaseMachine.Apply(held, c[2]).0 == waiting;
    assert LeaseMachine.Apply(waiting, c[3]).0 == TakingOver();
    hide LeaseMachine.Apply;
    assert c[1..] == [c[1], c[2], c[3]] && [c[1], c[2], c[3]][1..] == [c[2], c[3]] && [c[2], c[3]][1..] == [c[3]];
    assert Run(waiting, [c[3]]) == TakingOver();
    assert Run(held, [c[2], c[3]]) == TakingOver();
  }

  /** When that person yields to b, the session goes back to a. */
  lemma YieldHandsItBack()
    ensures AtRest(Run(Fresh(SOME_POLICY), ABOUT_TO_TAKE_OVER))
    ensures HeldBy(YieldOp(Run(Fresh(SOME_POLICY), ABOUT_TO_TAKE_OVER), "b", "p", 1).lease, "a")
  {
    TakesOver();
    FreshIsValid(SOME_POLICY, ABOUT_TO_TAKE_OVER);
    var l := TakingOver();
    assert Waiters(l.queue, 1, SOME_POLICY.queueTtlMs, false) == l.queue;
    assert TickInto(l, 1).lease == l;
    hide TickInto;
    assert Promote(l, "b") == l;
    assert HeldBy(CancelWait(l, "p", 1).lease, "a");
  }

  // ---------------------------------------------------------------- turned away

  /** A person's answer to this agent still stands: a mute, or a "not now". */
  predicate AnswerStands(b: BoardState, key: Key, id: PartyId, now: Instant) {
    || MutedAt(b, now).Some?
    || ((key, id) in b.declined && !Reached(now, b.declined[(key, id)]))
  }

  /** The board once elapsed time has been applied to one session. */
  function Elapsed(b: BoardState, key: Key, now: Instant): BoardState {
    With(b, key, TickInto(LeaseAt(b, key), now).lease)
  }

  /** The refusal a call on one session answered with. */
  function RefusalOf(m: Moved, key: Key): Option<LeaseError> {
    if key in m.answers && |m.answers[key]| == 1 then m.answers[key][0].refusal else None
  }

  lemma AcquireNeverTurnsAway(l: LeaseState, party: Party, queue: bool, now: Instant)
    ensures var answer := Acquire(l, party, queue, now).answer;
      answer.Err? ==> !answer.error.Muted? && !answer.error.NotNow?
  {
  }

  lemma LeavesTheLine(l: LeaseState, id: PartyId, now: Instant)
    requires Inv(l)
    ensures var after := CancelWait(l, id, now).lease;
      && !InQueue(after.queue, id) && !PendingFor(after, id) && after.holder == l.holder
  {
    match PositionOf(l.queue, id)
    case Some(i) => WithoutIds(l.queue, i);
    case None =>
  }

  lemma GateExactly(b: BoardState, key: Key, party: Party, now: Instant)
    ensures var gate := Gate(b, key, party, now);
      && (gate.Some? <==>
            !party.kind.IsPerson() && PersonHoldsAt(b, key, now) && AnswerStands(b, key, party.id, now))
      && (gate.Some? ==> gate.value.Muted? || gate.value.NotNow?)
  {
    hide MutedAt, PersonHoldsAt;
  }

  predicate TurnsAway(refusal: Option<LeaseError>) {
    refusal.Some? && (refusal.value.Muted? || refusal.value.NotNow?)
  }

  lemma GatedExactly(d: Done, party: Party, gate: Option<LeaseError>, now: Instant)
    requires Inv(d.lease) && d.refusal.None? && (gate.Some? ==> TurnsAway(gate))
    ensures var after := AskOp(d, party, gate, now);
      && (TurnsAway(after.refusal) <==> gate.Some?)
      && (gate.Some? ==>
            && !InQueue(after.lease.queue, party.id) && !PendingFor(after.lease, party.id)
            && after.lease.holder == d.lease.holder)
  {
    AcquireNeverTurnsAway(d.lease, party, true, now);
    LeavesTheLine(d.lease, party.id, now);
    hide Acquire, CancelWait, InQueue, PendingFor, Inv;
  }

  /** Asking is turned away if and only if an agent asks for a session that a
      person holds, or is about to, while that person's answer stands. The agent
      is then out of line, whatever it waited for before; the holder and every
      other session are as they were. */
  lemma TurnedAwayExactly(b: BoardState, key: Key, party: Party, now: Instant)
    requires AtRest(LeaseAt(b, key))
    ensures var was, after := Elapsed(b, key, now), B.Ask(b, key, party, now);
      var refusal, l := RefusalOf(after, key), LeaseAt(after.board, key);
      && (TurnsAway(refusal) <==>
            !party.kind.IsPerson() && PersonHoldsAt(was, key, now) && AnswerStands(was, key, party.id, now))
      && (TurnsAway(refusal) ==>
            && !InQueue(l.queue, party.id) && !PendingFor(l, party.id)
            && l.holder == LeaseAt(was, key).holder
            && after.board == With(b, key, l))
  {
    TickIntoMoves(LeaseAt(b, key), now);
    var d := TickInto(LeaseAt(b, key), now);
    GateExactly(Elapsed(b, key, now), key, party, now);
    GatedExactly(d, party, Gate(Elapsed(b, key, now), key, party, now), now);
    hide TickInto, AskOp, Gate, PersonHoldsAt, AnswerStands, StatusOf, AtRest, InQueue, PendingFor, TurnsAway;
  }
}
