/** What each call on the board achieves for the session it names, told by that
    session's lease once elapsed time has been applied and after the call
    (crates/agent-lease/src/board.rs). */
module BoardEffects {
  import opened Clock
  import opened Wrappers
  import opened Parties
  import opened Transitions
  import opened LeaseMachine
  import opened LeaseInvariant
  import opened LeaseEffects
  import opened B = BoardMachine
  import opened BoardSafety

  /** Nobody holds the session and nothing keeps asks out. */
  predicate Free(l: LeaseState, now: Instant) {
    l.holder.None? && !Refusing(l, now)
  }

  /** `party` was granted the session at `now`, under the next lease id, and may
      dispatch at once. */
  predicate Driving(l: LeaseState, after: LeaseState, party: Party, now: Instant) {
    && after.holder == Some(Holder(l.nextLeaseId, party, now, now, now, true, None))
    && after.nextLeaseId == l.nextLeaseId + 1
    && after.phase == Held && after.pending == None && after.policy == l.policy
    && after.contendedSince == (if after.queue == [] then None else Some(now))
  }

  /** The two transitions a grant is told by: the release owed, then the handover done. */
  predicate TellsGrant(l: LeaseState, ts: seq<Transition>, party: Party, now: Instant) {
    && |ts| == 2
    && ts[0].at == now && ts[0].from == l.phase && ts[0].to == HandingOver
    && ts[0].outcome == Granted(l.nextLeaseId, party) && ts[0].release == Required
    && ts[1].at == now && ts[1].from == HandingOver && ts[1].to == Held
    && ts[1].outcome == HandoverComplete(l.nextLeaseId) && ts[1].release == NotRequired
  }

  /** The next in turn drives: the party taking over, or the first in `line`, or nobody. */
  predicate NextDrives(l: LeaseState, after: LeaseState, ts: seq<Transition>, line: seq<Waiter>, now: Instant) {
    if l.pending.Some? then
      && Driving(l, after, l.pending.value.waiter.party, now) && after.queue == line
      && TellsGrant(l, ts, l.pending.value.waiter.party, now)
    else if line != [] then
      && Driving(l, after, line[0].party, now) && after.queue == line[1..]
      && TellsGrant(l, ts, line[0].party, now)
    else
      && |ts| == 1 && Vacated(l, after, ts[0], now) && after.policy == l.policy
  }

  lemma Confirmed(l: LeaseState, party: Party, d: Done, before: seq<Transition>, t: Transition, now: Instant)
    requires NewGrant(l, d.lease, t, party, now) && d.transitions == before + [t] && d.lease.policy == l.policy
    ensures var c := ConfirmInto(d, now);
      && Driving(l, c.lease, party, now) && c.lease.queue == d.lease.queue
      && c.lease == d.lease.(phase := Held)
      && |c.transitions| == |before| + 2 && c.transitions[..|before|] == before && c.transitions[|before|] == t
      && TellsGrant(l, c.transitions[|before|..], party, now)
      && c.refusal == d.refusal
  {
  }

  // ---------------------------------------------------------------- elapsed time

  /** Elapsed time on a session at rest: if the holder's time is up the next in turn
      drives at once, and the caller is told why the holder left; otherwise only
      waiters leave, and the caller is told if and only if some did. */
  ghost predicate Elapses(l: LeaseState, after: LeaseState, told: seq<Transition>, now: Instant) {
    && (TimeIsUp(l, now) ==>
          && (exists line :: Sifted(l.queue, line, l.policy, now, true) && NextDrives(l, after, told, line, now))
          && told != []
          && (exists cause :: Because(l, l.holder.value, now, cause) && Tells(told[0], l.holder.value, cause, now)))
    && (!TimeIsUp(l, now) ==>
          && Sifted(l.queue, after.queue, l.policy, now, true)
          && after == l.(queue := after.queue,
                         contendedSince := if after.queue == [] then None else l.contendedSince,
                         forceReleaseUntil := if Refusing(l, now) then l.forceReleaseUntil else None)
          && (told == [] <==> forall w :: w in l.queue ==> Live(w, l.policy, now)))
    && (forall w :: w in l.queue && !Live(w, l.policy, now) ==> told != [] && w in told[0].expiredWaiters)
  }

  lemma ElapsedIs(l: LeaseState, now: Instant)
    requires AtRest(l)
    ensures var d := TickInto(l, now);
      d.refusal.None? && AtRest(d.lease) && Elapses(l, d.lease, d.transitions, now)
  {
    TickIntoMoves(l, now);
    if TimeIsUp(l, now) {
      ElapsedTakes(l, now);
    } else {
      ElapsedKeeps(l, now);
    }
    hide TickInto, TimeIsUp, Elapses;
  }

  lemma ElapsedTakes(l: LeaseState, now: Instant)
    requires AtRest(l) && TimeIsUp(l, now)
    ensures Elapses(l, TickInto(l, now).lease, TickInto(l, now).transitions, now)
  {
    TickTakesExactly(l, now);
    var s, line := Tick(l, now), Swept(l, now).queue;
    var d := Done(s.lease, [s.transition], None);
    assert TickInto(l, now) == ConfirmInto(d, now);
    hide TickInto, Tick, Swept, Inv, TimeIsUp, Because, Sifted, Live;
    if l.pending.Some? {
      Confirmed(l, l.pending.value.waiter.party, d, [], s.transition, now);
    } else if line != [] {
      Confirmed(l, line[0].party, d, [], s.transition, now);
    }
    assert NextDrives(l, TickInto(l, now).lease, TickInto(l, now).transitions, line, now);
    DroppedAreTold(l, s.transition, now);
  }

  lemma DroppedAreTold(l: LeaseState, t: Transition, now: Instant)
    requires Sifted(l.queue, t.expiredWaiters, l.policy, now, false)
    ensures forall w :: w in l.queue && !Live(w, l.policy, now) ==> w in t.expiredWaiters
    ensures t.expiredWaiters == [] <==> forall w :: w in l.queue ==> Live(w, l.policy, now)
  {
    if t.expiredWaiters != [] {
      assert t.expiredWaiters[0] in l.queue;
    }
  }

  lemma ElapsedKeeps(l: LeaseState, now: Instant)
    requires AtRest(l) && !TimeIsUp(l, now)
    ensures Elapses(l, TickInto(l, now).lease, TickInto(l, now).transitions, now)
  {
    TickTakesExactly(l, now);
    DroppedAreTold(l, Tick(l, now).transition, now);
    hide Tick, Swept, Inv, TimeIsUp, Because, Sifted, Live;
  }

  // ---------------------------------------------------------------- asking

  /** The party has no place yet, outranks the holder and nobody else is taking over. */
  predicate MayTakeOver(l: LeaseState, party: Party, now: Instant) {
    !HasPlace(l, party.id) && Outranks(l, party, now)
  }

  /** One transition more than before, and no refusal. */
  predicate OneMore(before: seq<Transition>, d: Done) {
    |d.transitions| == |before| + 1 && d.transitions[..|before|] == before && d.refusal.None?
  }

  /** A grant's two transitions more than before, and no refusal. */
  predicate GrantTold(l: LeaseState, before: seq<Transition>, d: Done, party: Party, now: Instant) {
    && |d.transitions| == |before| + 2 && d.transitions[..|before|] == before && d.refusal.None?
    && TellsGrant(l, d.transitions[|before|..], party, now)
  }

  /** What an ask that is not turned away does to a session at rest. */
  predicate AskDone(l: LeaseState, party: Party, now: Instant, before: seq<Transition>, d: Done) {
    && (Refusing(l, now) ==> d == Done(l, before, Some(ForceReleased(l.forceReleaseUntil.value - now))))
    && (Free(l, now) ==>
          Driving(l, d.lease, party, now) && d.lease.queue == [] && GrantTold(l, before, d, party, now))
    && (!Refusing(l, now) && HasPlace(l, party.id) ==>
          OneMore(before, d) && AskedAgain(l, d.lease, d.transitions[|before|], party.id, now))
    && (!Refusing(l, now) && MayTakeOver(l, party, now) ==>
          OneMore(before, d) && StartedPreempting(l, d.lease, d.transitions[|before|], party, now))
    && (!Refusing(l, now) && MustWait(l, party, now) && |l.queue| < l.policy.maxQueueDepth ==>
          && OneMore(before, d) && d.transitions[|before|].outcome.Queued?
          && JoinedAt(l, d.lease, party, now, d.transitions[|before|].outcome.position)
          && d.lease == l.(queue := d.lease.queue, forceReleaseUntil := None, contendedSince :=
                             if l.contendedSince.None? then Some(now) else l.contendedSince))
    && (!Refusing(l, now) && MustWait(l, party, now) && |l.queue| >= l.policy.maxQueueDepth ==>
          d == Done(l.(forceReleaseUntil := None), before, Some(QueueFull(|l.queue|))))
  }

  lemma Asking(d: Done, party: Party, now: Instant)
    requires AtRest(d.lease) && d.refusal.None?
    ensures AskDone(d.lease, party, now, d.transitions, AskOp(d, party, None, now))
  {
    AskedExactly(d.lease, party, true, now);
    var s := Acquire(d.lease, party, true, now);
    if Free(d.lease, now) {
      NobodyHasAPlace(d.lease, party.id);
      Confirmed(d.lease, party, d.Then(Step(s.lease, s.answer.value)), d.transitions, s.answer.value, now);
    }
    hide Acquire, Inv;
  }

  lemma NobodyHasAPlace(l: LeaseState, id: PartyId)
    requires AtRest(l) && l.holder.None?
    ensures !HasPlace(l, id) && l.queue == []
  {
  }

  predicate SamePlaces(l: LeaseState, after: LeaseState, id: PartyId) {
    && (InQueue(after.queue, id) <==> InQueue(l.queue, id))
    && (PendingFor(after, id) <==> PendingFor(l, id)) && (HeldBy(after, id) <==> HeldBy(l, id))
  }

  /** Where the party stands after asking, and that everybody else stands where they did. */
  ghost predicate AskAnswered(l: LeaseState, after: LeaseState, refusal: Option<LeaseError>, party: Party, now: Instant)
  {
    && (HeldBy(after, party.id) <==> HeldBy(l, party.id) || Free(l, now))
    && (Fence(after, party.id) == Allowed <==> (HeldBy(l, party.id) && l.phase == Held) || Free(l, now))
    && (PendingFor(after, party.id) <==>
          PendingFor(l, party.id) || (!Refusing(l, now) && MayTakeOver(l, party, now)))
    && (InQueue(after.queue, party.id) <==>
          || InQueue(l.queue, party.id)
          || (!Refusing(l, now) && MustWait(l, party, now) && |l.queue| < l.policy.maxQueueDepth))
    && (refusal.Some? <==>
          Refusing(l, now) || (MustWait(l, party, now) && |l.queue| >= l.policy.maxQueueDepth))
    && (forall id :: id != party.id ==> SamePlaces(l, after, id))
  }

  lemma RefreshedIds(q: seq<Waiter>, i: nat, w: Waiter, id: PartyId)
    requires i < |q| && w.party == q[i].party
    ensures InQueue(q[i := w], id) <==> InQueue(q, id)
  {
    if InQueue(q, id) {
      var j :| 0 <= j < |q| && q[j].party.id == id;
      assert q[i := w][j].party.id == id;
    }
  }

  lemma JoinedIds(q: seq<Waiter>, p: nat, w: Waiter, id: PartyId)
    requires p <= |q|
    ensures InQueue(q[..p] + [w] + q[p..], id) <==> InQueue(q, id) || id == w.party.id
  {
    var r := q[..p] + [w] + q[p..];
    assert r[p] == w;
    if InQueue(q, id) {
      var j :| 0 <= j < |q| && q[j].party.id == id;
      assert r[if j < p then j else j + 1].party.id == id;
    }
    if InQueue(r, id) {
      var j :| 0 <= j < |r| && r[j].party.id == id;
      assert j == p || r[j] == q[if j < p then j else j - 1];
    }
  }

  lemma AskedAgainAnswered(l: LeaseState, after: LeaseState, t: Transition, party: Party, now: Instant)
    requires AtRest(l) && !Refusing(l, now) && HasPlace(l, party.id) && AskedAgain(l, after, t, party.id, now)
    ensures AskAnswered(l, after, None, party, now)
  {
    NobodyHasAPlaceIfFree(l, party.id);
    if !HeldBy(l, party.id) && !PendingFor(l, party.id) {
      var i :| 0 <= i < |l.queue| && l.queue[i].party.id == party.id
        && after == l.(queue := l.queue[i := l.queue[i].(queuedAt := now)], forceReleaseUntil := None)
        && t.outcome == Queued(i);
      forall id
        ensures InQueue(after.queue, id) <==> InQueue(l.queue, id)
      {
        RefreshedIds(l.queue, i, l.queue[i].(queuedAt := now), id);
      }
    }
    hide InQueue;
  }

  lemma NobodyHasAPlaceIfFree(l: LeaseState, id: PartyId)
    requires AtRest(l) && HasPlace(l, id)
    ensures l.holder.Some?
  {
  }

  lemma StrangerAnswered(l: LeaseState, party: Party, now: Instant, before: seq<Transition>, d: Done)
    requires AtRest(l) && !(!Refusing(l, now) && HasPlace(l, party.id)) && AskDone(l, party, now, before, d)
    ensures AskAnswered(l, d.lease, d.refusal, party, now)
  {
    if !Refusing(l, now) && MustWait(l, party, now) && |l.queue| < l.policy.maxQueueDepth {
      forall id
        ensures InQueue(d.lease.queue, id) <==> InQueue(l.queue, id) || id == party.id
      {
        JoinedIds(l.queue, d.transitions[|before|].outcome.position, Waiter(party, now, now), id);
      }
    }
    hide InQueue, JoinedAt, TellsGrant, AskedAgain;
  }

  /** What an ask achieves, on the session once elapsed time has been applied and
      unless a person's answer turns it away. The party holds afterwards if and only
      if it already held or the session was free, and may then dispatch unless
      somebody is taking over from it; it is taking over if and only if it already
      was or it may; it is in line if and only if it already was or it has to wait
      and there is room; and it is refused if and only if asks are kept out or it
      has to wait and there is no room. Everybody else stays where they were. */
  lemma AskAchieves(b: BoardState, key: Key, party: Party, now: Instant)
    requires AtRest(LeaseAt(b, key))
    requires party.kind.Agent? ==>
      !PersonHoldsAt(Elapsed(b, key, now), key, now) || !AnswerStands(Elapsed(b, key, now), key, party.id, now)
    ensures var was, m := LeaseAt(Elapsed(b, key, now), key), B.Ask(b, key, party, now);
      AskAnswered(was, LeaseAt(m.board, key), RefusalOf(m, key), party, now)
  {
    var d := TickInto(LeaseAt(b, key), now);
    ElapsedIs(LeaseAt(b, key), now);
    GateExactly(Elapsed(b, key, now), key, party, now);
    AskOpAnswered(d, party, now);
    hide TickInto, AskOp, Gate, PersonHoldsAt, AnswerStands, StatusOf, AtRest, AskAnswered, Elapses;
  }

  lemma AskOpAnswered(d: Done, party: Party, now: Instant)
    requires AtRest(d.lease) && d.refusal.None?
    ensures var asked := AskOp(d, party, None, now); AskAnswered(d.lease, asked.lease, asked.refusal, party, now)
  {
    Asking(d, party, now);
    var asked := AskOp(d, party, None, now);
    if !Refusing(d.lease, now) && HasPlace(d.lease, party.id) {
      AskedAgainAnswered(d.lease, asked.lease, asked.transitions[|d.transitions|], party, now);
    } else {
      StrangerAnswered(d.lease, party, now, d.transitions, asked);
    }
    hide AskOp, AtRest, AskAnswered, HasPlace, AskedAgain;
  }

  // ---------------------------------------------------------------- input

  /** `after` is `l` with the holder's idle clock moved to `now`. */
  predicate InputNoted(l: LeaseState, after: LeaseState, now: Instant) {
    l.holder.Some? && after == l.(holder := Some(l.holder.value.(lastIntentAt := now)))
  }

  /** Why input is not let through. */
  predicate InputRefused(l: LeaseState, refusal: Option<LeaseError>, now: Instant) {
    && refusal.Some?
    && (l.holder.Some? ==> refusal.value == HeldElsewhere(l.holder.value.party.kind))
    && (l.holder.None? && Refusing(l, now) ==> refusal.value == ForceReleased(l.forceReleaseUntil.value - now))
  }

  /** Input takes a free session on the spot, is let through from the holder nobody
      is taking over from and then restarts its idle clock, and is refused to
      everybody else, for whom it changes nothing. */
  lemma InputAchieves(l: LeaseState, party: Party, now: Instant)
    requires AtRest(l)
    ensures var t, d := TickInto(l, now), InputOp(l, party, now);
      var was, mine := t.lease, HeldBy(t.lease, party.id) && t.lease.phase == Held;
      && (Free(was, now) ==> Driving(was, d.lease, party, now) && GrantTold(was, t.transitions, d, party, now))
      && (mine ==> InputNoted(was, d.lease, now) && d.refusal == None && d.transitions == t.transitions)
      && (!mine && !Free(was, now) ==>
            d.lease == was && InputRefused(was, d.refusal, now) && d.transitions == t.transitions)
  {
    TickNeverRefuses(l, now);
    var t := TickInto(l, now);
    TakesIfFree(t, party, now);
    hide TickInto, TakeIfFree, Inv, TellsGrant;
  }

  lemma TakesIfFree(t: Done, party: Party, now: Instant)
    requires AtRest(t.lease) && t.refusal.None?
    ensures var d := TakeIfFree(t, party, now);
      && (Free(t.lease, now) ==>
            Driving(t.lease, d.lease, party, now) && GrantTold(t.lease, t.transitions, d, party, now))
      && (t.lease.holder.Some? ==> d == t)
      && (t.lease.holder.None? && !Free(t.lease, now) ==>
            d == t.(refusal := Some(ForceReleased(t.lease.forceReleaseUntil.value - now))))
  {
    AskedExactly(t.lease, party, false, now);
    var s := Acquire(t.lease, party, false, now);
    if Free(t.lease, now) {
      NobodyHasAPlace(t.lease, party.id);
      Confirmed(t.lease, party, t.Then(Step(s.lease, s.answer.value)), t.transitions, s.answer.value, now);
    }
    hide Acquire, Inv;
  }

  /** A person's own input: it takes a free session, restarts the clock of one the
      person holds, and starts taking over from whoever the person outranks. It
      never queues and is never refused. */
  predicate PersonAnswered(l: LeaseState, before: seq<Transition>, d: Done, person: Party, now: Instant) {
    && d.refusal == None
    && (Free(l, now) ==> Driving(l, d.lease, person, now) && GrantTold(l, before, d, person, now))
    && (HeldBy(l, person.id) ==>
          && d.lease.holder.Some? && d.lease.holder.value.lastIntentAt == now
          && d.lease == l.(holder := d.lease.holder, forceReleaseUntil := d.lease.forceReleaseUntil)
          && d.lease.holder.value == l.holder.value.(lastIntentAt := now,
                                                     lastRenewAt := d.lease.holder.value.lastRenewAt))
    && (!Refusing(l, now) && MayTakeOver(l, person, now) ==>
          OneMore(before, d) && StartedPreempting(l, d.lease, d.transitions[|before|], person, now))
    && (!Free(l, now) && !HeldBy(l, person.id) && !(!Refusing(l, now) && MayTakeOver(l, person, now)) ==>
          && d.lease.holder == l.holder && d.lease.pending == l.pending && d.lease.phase == l.phase
          && |d.lease.queue| == |l.queue|
          && (forall i :: 0 <= i < |l.queue| ==>
                d.lease.queue[i] == l.queue[i].(queuedAt := d.lease.queue[i].queuedAt)))
  }

  lemma TickNeverRefuses(l: LeaseState, now: Instant)
    requires AtRest(l)
    ensures TickInto(l, now).refusal == None && AtRest(TickInto(l, now).lease)
  {
    TickIntoMoves(l, now);
  }

  lemma PersonInputAchieves(l: LeaseState, person: Party, now: Instant)
    requires AtRest(l)
    ensures var t := TickInto(l, now);
      PersonAnswered(t.lease, t.transitions, PersonInputOp(l, person, now), person, now)
  {
    TickNeverRefuses(l, now);
    var t := TickInto(l, now);
    if Free(t.lease, now) {
      PersonTakesFree(l, person, now);
    } else if !Refusing(t.lease, now) && MayTakeOver(t.lease, person, now) {
      PersonTakesOver(l, person, now);
    } else if HeldBy(t.lease, person.id) {
      PersonHoldsOn(l, person, now);
    } else {
      PersonChangesLittle(l, person, now);
    }
  }

  lemma PersonTakesFree(l: LeaseState, person: Party, now: Instant)
    requires AtRest(l) && Free(TickInto(l, now).lease, now)
    ensures var t := TickInto(l, now);
      PersonAnswered(t.lease, t.transitions, PersonInputOp(l, person, now), person, now)
  {
    TickNeverRefuses(l, now);
    var t := TickInto(l, now);
    AskedExactly(t.lease, person, false, now);
    var s := Acquire(t.lease, person, false, now);
    NobodyHasAPlace(t.lease, person.id);
    Confirmed(t.lease, person, t.Then(Step(s.lease, s.answer.value)), t.transitions, s.answer.value, now);
    hide TickInto, Acquire, Inv, ConfirmInto;
  }

  lemma PersonTakesOver(l: LeaseState, person: Party, now: Instant)
    requires AtRest(l) && !Refusing(TickInto(l, now).lease, now) && MayTakeOver(TickInto(l, now).lease, person, now)
    ensures var t := TickInto(l, now);
      PersonAnswered(t.lease, t.transitions, PersonInputOp(l, person, now), person, now)
  {
    TickNeverRefuses(l, now);
    AskedExactly(TickInto(l, now).lease, person, false, now);
    hide TickInto, Acquire, Inv;
  }

  lemma PersonHoldsOn(l: LeaseState, person: Party, now: Instant)
    requires AtRest(l) && HeldBy(TickInto(l, now).lease, person.id)
    ensures var t := TickInto(l, now);
      PersonAnswered(t.lease, t.transitions, PersonInputOp(l, person, now), person, now)
  {
    TickNeverRefuses(l, now);
    var t := TickInto(l, now);
    AskedExactly(t.lease, person, false, now);
    assert !t.lease.phase.HandingOver?;
    hide TickInto, Acquire, Inv, MayTakeOver, MustWait, NewGrant, StartedPreempting, JoinedAt;
  }

  lemma PersonChangesLittle(l: LeaseState, person: Party, now: Instant)
    requires AtRest(l) && !Free(TickInto(l, now).lease, now) && !HeldBy(TickInto(l, now).lease, person.id)
    requires Refusing(TickInto(l, now).lease, now) || !MayTakeOver(TickInto(l, now).lease, person, now)
    ensures var t := TickInto(l, now);
      PersonAnswered(t.lease, t.transitions, PersonInputOp(l, person, now), person, now)
  {
    TickNeverRefuses(l, now);
    var t := TickInto(l, now);
    AskedExactly(t.lease, person, false, now);
    assert !t.lease.phase.HandingOver?;
    hide TickInto, Acquire, Inv, NewGrant, StartedPreempting, JoinedAt;
  }

  // ---------------------------------------------------------------- the whole board

  /** What the answers tell of one session; nothing when it is not answered for. */
  function Told(m: Moved, key: Key): seq<Transition> {
    if key in m.answers && m.answers[key] != [] then m.answers[key][0].transitions else []
  }

  /** Ticking every session applies elapsed time to each, and answers for a session
      if and only if something moved there. */
  lemma TickAllAchieves(b: BoardState, now: Instant, key: Key)
    requires key in b.leases && AtRest(b.leases[key])
    ensures var m := B.Apply(b, B.TimedCall(DoTickAll, now));
      && key in m.board.leases
      && Elapses(b.leases[key], m.board.leases[key], Told(m, key), now)
      && (key in m.answers <==> Told(m, key) != [])
      && (key in m.answers ==>
            m.answers[key] == [Answer(Told(m, key), StatusOf(m.board.leases[key], now), None)])
  {
    ElapsedIs(b.leases[key], now);
    TickTellsChanges(b.leases[key], now);
    hide TickInto, StatusOf, Elapses, MutedAt, StillDeclined;
  }

  /** It sweeps the "not now"s that have run out, and the mute if it is over once the
      sessions have moved. */
  lemma TickAllSweeps(b: BoardState, now: Instant)
    ensures var m := B.Apply(b, B.TimedCall(DoTickAll, now));
      && (forall pair :: pair in m.board.declined <==> pair in b.declined && now < b.declined[pair])
      && (forall pair :: pair in m.board.declined ==> m.board.declined[pair] == b.declined[pair])
      && m.board.mute == MutedAt(b.(leases := m.board.leases), now)
  {
    var m := B.Apply(b, B.TimedCall(DoTickAll, now));
    MuteReadsLeases(Ticked(b, now), b.(leases := m.board.leases), now);
    hide TickInto, StatusOf, MutedAt, AnsweredSoFar;
  }

  lemma MuteReadsLeases(b: BoardState, c: BoardState, now: Instant)
    requires b.leases == c.leases && b.mute == c.mute
    ensures MutedAt(b, now) == MutedAt(c, now)
    ensures MutedAt(b, now).Some? ==> MutedAt(b, now) == b.mute
  {
    assert PersonHoldsAny(b, now) <==> PersonHoldsAny(c, now) by {
      assert forall key :: key in b.leases ==> (PersonHoldsAt(b, key, now) <==> PersonHoldsAt(c, key, now));
    }
  }

  /** A tick told of is a change. */
  lemma TickTellsChanges(l: LeaseState, now: Instant)
    requires AtRest(l)
    ensures TickInto(l, now).Answered(now).Changed() <==> TickInto(l, now).transitions != []
  {
    TickTakesExactly(l, now);
    var s := Tick(l, now);
    assert s.transition.MustRelease() ==> s.transition.Changed() by {
      hide Tick, Inv, Sifted, Because;
    }
    var d := TickInto(l, now);
    if d.transitions != [] {
      assert d.transitions[0] == s.transition;
      assert d.transitions[0].Changed();
    }
  }

  /** A look at a session applies elapsed time to it and answers with what moved. */
  lemma StatusAchieves(b: BoardState, key: Key, now: Instant)
    requires AtRest(LeaseAt(b, key))
    ensures var m := B.Apply(b, B.TimedCall(DoStatus(key), now));
      && Elapses(LeaseAt(b, key), LeaseAt(m.board, key), Told(m, key), now)
      && RefusalOf(m, key) == None
  {
    ElapsedIs(LeaseAt(b, key), now);
    hide TickInto, StatusOf, Elapses;
  }

  /** A call on one session leaves every other as it was, and the board's own answers
      but for the "not now" it may give; it answers for that session alone, with its
      status after the call. */
  lemma OneSessionAtATime(b: BoardState, c: B.TimedCall, key: Key)
    requires c.call.DoStatus? || c.call.DoAsk? || c.call.DoRelease? || c.call.DoInput?
      || c.call.DoPersonInput? || c.call.DoYieldTo? || c.call.DoNotNow?
    ensures var m := B.Apply(b, c);
      && (key != c.call.key ==> (key in m.board.leases <==> key in b.leases) && key !in m.answers)
      && (key != c.call.key && key in b.leases ==> m.board.leases[key] == b.leases[key])
      && (key == c.call.key ==>
            && key in m.board.leases && key in m.answers && |m.answers[key]| == 1
            && m.answers[key][0].status == StatusOf(m.board.leases[key], c.now))
      && m.board.policy == b.policy && m.board.mute == b.mute
      && (!c.call.DoNotNow? ==> m.board.declined == b.declined)
  {
    hide TickInto, AskOp, ReleaseOp, InputOp, PersonInputOp, YieldOp, NotNowOp, StatusOf, Gate;
  }

  /** Ending a session forgets its lease, and only its lease; unmuting ends the mute,
      and only the mute. */
  lemma RemoveAndUnmute(b: BoardState, key: Key, now: Instant)
    ensures var m := B.Apply(b, B.TimedCall(DoRemove(key), now));
      && (forall k :: k in m.board.leases <==> k in b.leases && k != key)
      && (forall k :: k in m.board.leases ==> m.board.leases[k] == b.leases[k])
      && m.board == b.(leases := m.board.leases) && m.answers == map[]
    ensures var m := B.Apply(b, B.TimedCall(DoUnmute, now));
      MutedAt(m.board, now).None? && m.board == b.(mute := m.board.mute) && m.answers == map[]
  {
  }
}
