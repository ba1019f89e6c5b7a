/** Runs of the board: any calls by any parties on any sessions. */
module BoardRuns {
  import opened Clock
  import opened Wrappers
  import opened Parties
  import opened Transitions
  import opened LeaseMachine
  import opened LeaseInvariant
  import opened LeaseSafety
  import opened B = BoardMachine
  import opened BoardSafety

  predicate BoardInv(b: BoardState) {
    forall key :: key in b.leases ==> AtRest(b.leases[key]) && b.leases[key].policy == b.policy
  }

  /** The call returned a required release for this session. */
  predicate OwedFor(m: Moved, key: Key) {
    key in m.answers &&
    exists i :: 0 <= i < |m.answers[key]| && Owes(m.answers[key][i].transitions)
  }

  /** An agent's input was let through to this session. */
  predicate LetThrough(b: BoardState, c: B.TimedCall, key: Key) {
    && c.call.DoInput? && c.call.key == key
    && InputOp(LeaseAt(b, key), c.call.party, c.now).refusal.None?
  }

  /** Real input by the party that holds this session. */
  predicate HoldersInput(b: BoardState, c: B.TimedCall, key: Key) {
    || LetThrough(b, c, key)
    || (c.call.DoPersonInput? && c.call.key == key && HeldBy(LeaseAt(b, key), c.call.party.id))
  }

  /** What one call does to one session's lease, seen from outside. */
  predicate StepKept(b: BoardState, c: B.TimedCall, key: Key) {
    var l, m := LeaseAt(b, key), B.Apply(b, c);
    var after := LeaseAt(m.board, key);
    && AtRest(after) && after.policy == b.policy && m.board.policy == b.policy
    && (|| (Holding(after) == Holding(l) && after.nextLeaseId == l.nextLeaseId)
        || (&& OwedFor(m, key) && after.nextLeaseId >= l.nextLeaseId
            && (after.holder.Some? ==> after.holder.value.leaseId >= l.nextLeaseId)))
    && (l.holder.Some? && Holding(after) == Holding(l) ==>
          && after.holder.value.party == l.holder.value.party
          && (HoldersInput(b, c, key) || after.holder.value.lastIntentAt == l.holder.value.lastIntentAt))
  }

  // ---------------------------------------------------------------- one call

  /** Every transition that owes a release also counts as a change. */
  predicate Telling(ts: seq<Transition>) {
    forall i :: 0 <= i < |ts| ==> ts[i].MustRelease() ==> ts[i].Changed()
  }

  lemma LeaseCallsTell(l: LeaseState, id: PartyId, leaseId: nat, now: Instant)
    ensures Telling([Release(l, id, leaseId, now).transition])
    ensures Telling([CancelWait(l, id, now).transition])
    ensures Telling([ConfirmRelease(l, now).transition])
  {
  }

  lemma TickTells(l: LeaseState, now: Instant)
    ensures Telling(TickInto(l, now).transitions)
  {
    var s := Tick(l, now);
    assert s.transition.MustRelease() ==> s.transition.Changed();
    LeaseCallsTell(s.lease, "", 0, now);
  }

  lemma ReleaseTells(l: LeaseState, id: PartyId, now: Instant)
    ensures Telling(ReleaseOp(l, id, now).transitions)
  {
    TickTells(l, now);
    var d := TickInto(l, now);
    var released := if HeldBy(d.lease, id) then d.Then(Release(d.lease, id, d.lease.holder.value.leaseId, now)) else d;
    if HeldBy(d.lease, id) {
      LeaseCallsTell(d.lease, id, d.lease.holder.value.leaseId, now);
    }
    assert Telling(released.transitions);
    LeaseCallsTell(released.lease, id, 0, now);
    var cancelled := released.Then(CancelWait(released.lease, id, now));
    assert Telling(cancelled.transitions);
    LeaseCallsTell(cancelled.lease, id, 0, now);
  }

  lemma OwedIsChanged(d: Done, now: Instant)
    requires Telling(d.transitions) && Owes(d.transitions)
    ensures d.Answered(now).Changed()
  {
  }

  lemma OneSessionKept(b: BoardState, c: B.TimedCall, key: Key, d: Done)
    requires BoardInv(b) && AtRest(LeaseAt(b, key)) && Settled(LeaseAt(b, key), d)
    requires IdleClockKept(LeaseAt(b, key), d.lease) || HoldersInput(b, c, key)
    requires LeaseAt(B.Apply(b, c).board, key) == d.lease
    requires B.Apply(b, c).board.policy == b.policy
    requires Owes(d.transitions) ==>
      key in B.Apply(b, c).answers && B.Apply(b, c).answers[key] == [d.Answered(c.now)]
    ensures StepKept(b, c, key)
  {
    var m := B.Apply(b, c);
    if Owes(d.transitions) {
      assert Owes(m.answers[key][0].transitions);
    }
  }

  lemma KeyedCallKept(b: BoardState, c: B.TimedCall, key: Key)
    requires BoardInv(b)
    requires c.call.DoStatus? || c.call.DoAsk? || c.call.DoRelease? || c.call.DoInput?
      || c.call.DoPersonInput? || c.call.DoYieldTo? || c.call.DoNotNow?
    requires key == c.call.key
    ensures StepKept(b, c, key)
  {
    hide TickInto, AskOp, ReleaseOp, PersonInputOp, YieldOp, NotNowOp, StatusOf;
    var l := LeaseAt(b, key);
    assert AtRest(l);
    TickIntoMoves(l, c.now);
    match c.call
    case DoStatus(_) => OneSessionKept(b, c, key, TickInto(l, c.now));
    case DoAsk(_, party) =>
      var d := TickInto(l, c.now);
      var gate := Gate(With(b, key, d.lease), key, party, c.now);
      AskFinishes(l, d, party, gate, c.now);
      OneSessionKept(b, c, key, AskOp(d, party, gate, c.now));
    case DoRelease(_, id) =>
      ReleaseFinishes(l, id, c.now);
      OneSessionKept(b, c, key, ReleaseOp(l, id, c.now));
    case DoInput(_, party) =>
      InputFinishes(l, party, c.now);
      OneSessionKept(b, c, key, InputOp(l, party, c.now));
    case DoPersonInput(_, party) =>
      PersonInputFinishes(l, party, c.now);
      OneSessionKept(b, c, key, PersonInputOp(l, party, c.now));
    case DoYieldTo(_, id, person) =>
      YieldFinishes(l, id, person, c.now);
      OneSessionKept(b, c, key, YieldOp(l, id, person, c.now));
    case DoNotNow(_, id) =>
      NotNowFinishes(l, id, c.now);
      OneSessionKept(b, c, key, NotNowOp(l, id, c.now));
  }

  /** A call that names another session, or none, and takes no time. */
  lemma OtherSessionKept(b: BoardState, c: B.TimedCall, key: Key)
    requires BoardInv(b)
    requires LeaseAt(B.Apply(b, c).board, key) == LeaseAt(b, key)
    requires B.Apply(b, c).board.policy == b.policy
    ensures StepKept(b, c, key)
  {
  }

  lemma TickAllKept(b: BoardState, c: B.TimedCall, key: Key)
    requires BoardInv(b) && key in b.leases && c.call.DoTickAll?
    ensures StepKept(b, c, key)
  {
    hide TickInto, StatusOf;
    var d := TickInto(b.leases[key], c.now);
    TickIntoMoves(b.leases[key], c.now);
    TickTells(b.leases[key], c.now);
    if Owes(d.transitions) {
      OwedIsChanged(d, c.now);
    }
    OneSessionKept(b, c, key, d);
  }

  lemma ForgetPartyKept(b: BoardState, c: B.TimedCall, key: Key)
    requires BoardInv(b) && key in b.leases && c.call.DoForgetParty?
    ensures StepKept(b, c, key)
  {
    hide ReleaseOp, TickInto, StatusOf;
    var d := ReleaseOp(b.leases[key], c.call.id, c.now);
    ReleaseFinishes(b.leases[key], c.call.id, c.now);
    ReleaseTells(b.leases[key], c.call.id, c.now);
    if Owes(d.transitions) {
      OwedIsChanged(d, c.now);
    }
    OneSessionKept(b, c, key, d);
  }

  lemma MuteKept(b: BoardState, until: MuteUntil, now: Instant, key: Key)
    requires BoardInv(b) && key in b.leases
    ensures StepKept(b, B.TimedCall(DoMute(until), now), key)
  {
    DroppingFinishes(b.leases[key], Requests(b.leases[key], now), now);
  }

  /** Every call on the board but the removal of this session keeps it at rest,
      owes a release whenever its grant changes, and moves its idle clock only
      for the holder's input. */
  lemma CallKept(b: BoardState, c: B.TimedCall, key: Key)
    requires BoardInv(b) && c.call != DoRemove(key)
    ensures StepKept(b, c, key)
  {
    match c.call
    case DoTickAll => if key in b.leases { TickAllKept(b, c, key); }
    case DoForgetParty(_) => if key in b.leases { ForgetPartyKept(b, c, key); }
    case DoMute(until) => if key in b.leases { MuteKept(b, until, c.now, key); }
    case DoUnmute =>
    case DoRemove(_) => OtherSessionKept(b, c, key);
    case _ => if key == c.call.key { KeyedCallKept(b, c, key); } else { OtherSessionKept(b, c, key); }
  }

  lemma CallKeepsBoardInv(b: BoardState, c: B.TimedCall)
    requires BoardInv(b)
    ensures BoardInv(B.Apply(b, c).board)
  {
    var after := B.Apply(b, c).board;
    forall key | key in after.leases
      ensures AtRest(after.leases[key]) && after.leases[key].policy == after.policy
    {
      if c.call != DoRemove(key) {
        CallKept(b, c, key);
      }
    }
  }

  // ---------------------------------------------------------------- runs

  /** `states[i]` is the board before call `i`. */
  predicate IsRun(states: seq<BoardState>, calls: seq<B.TimedCall>) {
    && |states| == |calls| + 1
    && (forall i :: 0 <= i < |calls| ==> states[i + 1] == B.Apply(states[i], calls[i]).board)
  }

  predicate NeverRemoved(calls: seq<B.TimedCall>, from: nat, to: nat, key: Key) {
    forall i :: from <= i < to && i < |calls| ==> calls[i].call != DoRemove(key)
  }

  /** Between calls no lease is half way through a handover or running a
      disconnect grace, in any run of a board that starts empty. */
  lemma {:induction false} AlwaysAtRest(states: seq<BoardState>, calls: seq<B.TimedCall>, n: nat)
    requires IsRun(states, calls) && n <= |calls|
    requires BoardInv(states[0])
    ensures BoardInv(states[n])
    ensures forall key :: key in states[n].leases ==>
      states[n].leases[key].phase in {Unheld, Held, PreemptPending}
  {
    if n > 0 {
      AlwaysAtRest(states, calls, n - 1);
      CallKeepsBoardInv(states[n - 1], calls[n - 1]);
    }
  }

  /** The grant that holds `key` before call `i`. */
  function HolderAt(states: seq<BoardState>, i: nat, key: Key): Option<nat>
    requires i < |states|
  {
    Holding(LeaseAt(states[i], key))
  }

  /** A grant that ended is never the holder again. */
  lemma {:induction false} GrantsEndOnce(
    states: seq<BoardState>, calls: seq<B.TimedCall>, i: nat, j: nat, key: Key, leaseId: nat)
    requires IsRun(states, calls) && BoardInv(states[0]) && i <= j <= |calls|
    requires NeverRemoved(calls, i, j, key)
    requires Gone(LeaseAt(states[i], key), leaseId)
    ensures Gone(LeaseAt(states[j], key), leaseId)
    decreases j - i
  {
    if i < j {
      AlwaysAtRest(states, calls, i);
      CallKept(states[i], calls[i], key);
      GrantsEndOnce(states, calls, i + 1, j, key, leaseId);
    }
  }

  lemma {:induction false} HeldOrGone(
    states: seq<BoardState>, calls: seq<B.TimedCall>, i: nat, j: nat, key: Key, leaseId: nat)
    requires IsRun(states, calls) && BoardInv(states[0]) && i <= j <= |calls|
    requires NeverRemoved(calls, i, j, key)
    requires HolderAt(states, i, key) == Some(leaseId)
    ensures HolderAt(states, j, key) == Some(leaseId) || Gone(LeaseAt(states[j], key), leaseId)
    decreases j - i
  {
    AlwaysAtRest(states, calls, i);
    if i < j {
      CallKept(states[i], calls[i], key);
      if HolderAt(states, i + 1, key) == Some(leaseId) {
        HeldOrGone(states, calls, i + 1, j, key, leaseId);
      } else {
        GrantsEndOnce(states, calls, i + 1, j, key, leaseId);
      }
    }
  }

  /** Release between drivers: if different grants hold a session at two points
      of a run, some call between them returned a required release for it. */
  lemma {:induction false} ReleaseBetweenHolders(
    states: seq<BoardState>, calls: seq<B.TimedCall>, i: nat, j: nat, key: Key)
    returns (m: nat)
    requires IsRun(states, calls) && BoardInv(states[0]) && i <= j <= |calls|
    requires NeverRemoved(calls, i, j, key)
    requires HolderAt(states, i, key) != HolderAt(states, j, key)
    ensures i <= m < j && OwedFor(B.Apply(states[m], calls[m]), key)
    decreases j - i
  {
    AlwaysAtRest(states, calls, i);
    CallKept(states[i], calls[i], key);
    if HolderAt(states, i, key) != HolderAt(states, i + 1, key) {
      m := i;
    } else {
      m := ReleaseBetweenHolders(states, calls, i + 1, j, key);
    }
  }

  /** Between two inputs let through under different grants, some call (the
      second input's own answer included) returned a required release. */
  lemma ReleaseBetweenDrivers(
    states: seq<BoardState>, calls: seq<B.TimedCall>, i: nat, j: nat, key: Key)
    returns (m: nat)
    requires IsRun(states, calls) && BoardInv(states[0]) && i < j < |calls|
    requires NeverRemoved(calls, i, j, key)
    requires LetThrough(states[i], calls[i], key) && LetThrough(states[j], calls[j], key)
    requires HolderAt(states, i + 1, key) != HolderAt(states, j + 1, key)
    ensures i < m <= j && OwedFor(B.Apply(states[m], calls[m]), key)
  {
    m := ReleaseBetweenHolders(states, calls, i + 1, j + 1, key);
  }

  /** No input of the holder's reaches this session in calls `from` to `to`. */
  predicate NoHoldersInput(states: seq<BoardState>, calls: seq<B.TimedCall>, from: nat, to: nat, key: Key)
    requires IsRun(states, calls)
  {
    forall m :: from <= m < to && m < |calls| ==> !HoldersInput(states[m], calls[m], key)
  }

  /** While one grant lasts and its holder sends nothing, nothing else moves its
      idle clock. */
  lemma {:induction false} IdleClockStands(
    states: seq<BoardState>, calls: seq<B.TimedCall>, i: nat, j: nat, key: Key)
    requires IsRun(states, calls) && BoardInv(states[0]) && i <= j <= |calls|
    requires NeverRemoved(calls, i, j, key) && NoHoldersInput(states, calls, i, j, key)
    requires HolderAt(states, i, key).Some? && HolderAt(states, i, key) == HolderAt(states, j, key)
    ensures LeaseAt(states[j], key).holder.value.lastIntentAt == LeaseAt(states[i], key).holder.value.lastIntentAt
    ensures LeaseAt(states[j], key).holder.value.party == LeaseAt(states[i], key).holder.value.party
    decreases j - i
  {
    if i < j {
      AlwaysAtRest(states, calls, i);
      CallKept(states[i], calls[i], key);
      if HolderAt(states, i + 1, key) == HolderAt(states, i, key) {
        IdleClockStands(states, calls, i + 1, j, key);
      } else {
        GrantsEndOnce(states, calls, i + 1, j, key, HolderAt(states, i, key).value);
      }
    }
  }

  /** Input is let through for the grant it started with only while that grant
      is within its holder's idle limit. */
  lemma LetThroughWithinLimit(l: LeaseState, party: Party, now: Instant)
    requires AtRest(l) && l.holder.Some?
    requires InputOp(l, party, now).refusal.None?
    requires Holding(InputOp(l, party, now).lease) == Holding(l)
    ensures var h, p := l.holder.value, l.policy;
      Since(now, h.lastIntentAt) < if h.party.kind.Agent? then p.idleRevokeMs else p.personIdleMs
  {
    TickIntoMoves(l, now);
    InputFinishes(l, party, now);
    TickKeepsInv(l, now);
    TickChangesHands(l, now);
    TakingIfFree(l, TickInto(l, now), party, now);
  }

  lemma LetThroughHolds(b: BoardState, c: B.TimedCall, key: Key)
    requires BoardInv(b) && LetThrough(b, c, key)
    ensures var after := LeaseAt(B.Apply(b, c).board, key);
      after.holder.Some? && after.holder.value.lastIntentAt == c.now
  {
    InputFinishes(LeaseAt(b, key), c.call.party, c.now);
  }

  lemma LetThroughInTime(b: BoardState, c: B.TimedCall, key: Key)
    requires BoardInv(b) && LetThrough(b, c, key)
    requires LeaseAt(b, key).holder.Some?
    requires Holding(LeaseAt(B.Apply(b, c).board, key)) == Holding(LeaseAt(b, key))
    ensures var h := LeaseAt(b, key).holder.value;
      Since(c.now, h.lastIntentAt) < if h.party.kind.Agent? then b.policy.idleRevokeMs else b.policy.personIdleMs
  {
    LetThroughWithinLimit(LeaseAt(b, key), c.call.party, c.now);
  }

  /** Only input keeps a lease: of two successive inputs let through under one
      grant, the second comes less than the holder's idle limit after the first,
      however many other calls (asks, status calls, renewals) fall between. */
  lemma OnlyInputKeepsALease(
    states: seq<BoardState>, calls: seq<B.TimedCall>, i: nat, j: nat, key: Key)
    requires IsRun(states, calls) && BoardInv(states[0]) && i < j < |calls|
    requires NeverRemoved(calls, i, j, key) && NoHoldersInput(states, calls, i + 1, j, key)
    requires LetThrough(states[i], calls[i], key) && LetThrough(states[j], calls[j], key)
    requires HolderAt(states, i + 1, key) == HolderAt(states, j + 1, key)
    ensures LeaseAt(states[i + 1], key).holder.Some?
    ensures calls[j].now < calls[i].now +
      if LeaseAt(states[i + 1], key).holder.value.party.kind.Agent? then states[j].policy.idleRevokeMs
      else states[j].policy.personIdleMs
  {
    AlwaysAtRest(states, calls, i);
    AlwaysAtRest(states, calls, j);
    LetThroughHolds(states[i], calls[i], key);
    var id := HolderAt(states, i + 1, key).value;
    HeldOrGone(states, calls, i + 1, j, key, id);
    CallKept(states[j], calls[j], key);
    IdleClockStands(states, calls, i + 1, j, key);
    LetThroughInTime(states[j], calls[j], key);
  }
}
