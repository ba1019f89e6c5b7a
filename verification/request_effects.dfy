/** What letting go, giving way and a person's answers to requests achieve
    (crates/agent-lease/src/board.rs:127-325, 431-455, 514-553). */
module RequestEffects {
  import opened Clock
  import opened Wrappers
  import opened Parties
  import opened Transitions
  import opened StableSort
  import opened LeaseMachine
  import opened LeaseInvariant
  import opened LeaseEffects
  import opened B = BoardMachine
  import opened BoardSafety
  import opened BoardEffects

  /** `q` without a waiter of this id. */
  predicate LeftBy(q: seq<Waiter>, after: seq<Waiter>, id: PartyId) {
    exists i :: 0 <= i < |q| && q[i].party.id == id && after == q[..i] + q[i + 1..]
  }

  /** The party waits for nothing any more: the preemption that ran for it is called
      off and the holder drives on, or it left the line; nobody else moved. */
  predicate OutOfLine(l: LeaseState, after: LeaseState, id: PartyId) {
    && (PendingFor(l, id) ==> after == l.(pending := None, phase := Held))
    && (InQueue(l.queue, id) ==>
          && LeftBy(l.queue, after.queue, id)
          && after == l.(queue := after.queue,
                         contendedSince := if after.queue == [] then None else l.contendedSince))
    && (!PendingFor(l, id) && !InQueue(l.queue, id) ==> after == l)
    && !PendingFor(after, id) && !InQueue(after.queue, id)
  }

  lemma GivingUp(l: LeaseState, id: PartyId, now: Instant)
    requires AtRest(l)
    ensures OutOfLine(l, CancelWait(l, id, now).lease, id) && AtRest(CancelWait(l, id, now).lease)
  {
    GivesUpExactly(l, id, now);
    LeavesTheLine(l, id, now);
    CancelMoves(l, id, now);
    if InQueue(l.queue, id) {
      var i :| 0 <= i < |l.queue| && l.queue[i].party.id == id
        && CancelWait(l, id, now).lease.queue == l.queue[..i] + l.queue[i + 1..];
      assert LeftBy(l.queue, CancelWait(l, id, now).lease.queue, id);
    }
    hide CancelWait, InQueue;
  }

  // ---------------------------------------------------------------- letting go

  /** The next in turn holds and may dispatch: the party taking over, or the first in
      line, or nobody; the rest of the line stays. */
  predicate NextHolds(l: LeaseState, after: LeaseState, now: Instant) {
    if l.pending.Some? then Driving(l, after, l.pending.value.waiter.party, now) && after.queue == l.queue
    else if l.queue != [] then Driving(l, after, l.queue[0].party, now) && after.queue == l.queue[1..]
    else after == l.(holder := None, phase := Unheld)
  }

  lemma LettingGo(l: LeaseState, t: Done, now: Instant)
    requires AtRest(l) && l.holder.Some?
    ensures var s := Release(l, l.holder.value.party.id, l.holder.value.leaseId, now);
      && NextHolds(l, ConfirmInto(t.Then(s), now).lease, now)
      && Tells(s.transition, l.holder.value, Released, now) && s.transition.release == Required
      && !HasPlace(s.lease, l.holder.value.party.id)
      && ConfirmInto(t.Then(s), now).transitions[..|t.transitions|] == t.transitions
      && |ConfirmInto(t.Then(s), now).transitions| > |t.transitions|
      && ConfirmInto(t.Then(s), now).transitions[|t.transitions|] == s.transition
  {
    ReleaseHandsOn(l, l.holder.value.party.id, l.holder.value.leaseId, now);
    var s := Release(l, l.holder.value.party.id, l.holder.value.leaseId, now);
    if l.pending.Some? {
      Confirmed(l, l.pending.value.waiter.party, t.Then(s), t.transitions, s.transition, now);
    } else if l.queue != [] {
      Confirmed(l, l.queue[0].party, t.Then(s), t.transitions, s.transition, now);
    }
    hide Release;
  }

  /** The party is nowhere on the session: the next in turn holds if it held, and it is
      out of line if it waited. */
  predicate LetGo(l: LeaseState, after: LeaseState, id: PartyId, now: Instant) {
    && !HasPlace(after, id)
    && (if HeldBy(l, id) then NextHolds(l, after, now) else OutOfLine(l, after, id))
  }

  /** Letting go hands the session to the next in turn if the party held it, and
      takes the party out of line if it waited. It is never refused. */
  lemma ReleaseAchieves(l: LeaseState, id: PartyId, now: Instant)
    requires AtRest(l)
    ensures var was, d := TickInto(l, now).lease, ReleaseOp(l, id, now);
      d.refusal == None && LetGo(was, d.lease, id, now)
  {
    TickNeverRefuses(l, now);
    var t := TickInto(l, now);
    if HeldBy(t.lease, id) {
      LettingGo(t.lease, t, now);
      var s := Release(t.lease, id, t.lease.holder.value.leaseId, now);
      NothingToGiveUp(s.lease, id, now);
      hide TickInto, Release, CancelWait, NextHolds, HasPlace;
      SameConfirmed(t.Then(s), t.Then(s).Then(CancelWait(s.lease, id, now)), now);
      ConfirmingKeepsPlaces(t.Then(s), now, id);
    } else {
      GivingUp(t.lease, id, now);
    }
  }

  lemma NothingToGiveUp(l: LeaseState, id: PartyId, now: Instant)
    requires !HasPlace(l, id)
    ensures CancelWait(l, id, now).lease == l
  {
    NoPlaceInQueue(l.queue, id);
  }

  lemma SameConfirmed(d: Done, e: Done, now: Instant)
    requires d.lease == e.lease
    ensures ConfirmInto(d, now).lease == ConfirmInto(e, now).lease
    ensures ConfirmInto(e, now).refusal == e.refusal
  {
  }

  lemma ConfirmingKeepsPlaces(d: Done, now: Instant, id: PartyId)
    ensures HasPlace(ConfirmInto(d, now).lease, id) <==> HasPlace(d.lease, id)
  {
  }

  /** A party that went away is on no session of the board, and every session where
      that moved something is answered for. */
  lemma ForgetAchieves(b: BoardState, id: PartyId, now: Instant, key: Key)
    requires key in b.leases && AtRest(b.leases[key])
    ensures var m := B.Apply(b, B.TimedCall(DoForgetParty(id), now));
      var was := TickInto(b.leases[key], now).lease;
      && key in m.board.leases && LetGo(was, m.board.leases[key], id, now)
      && (HasPlace(was, id) ==> key in m.answers)
  {
    ReleaseAchieves(b.leases[key], id, now);
    if HasPlace(TickInto(b.leases[key], now).lease, id) {
      ReleaseIsTold(b.leases[key], id, now);
    }
    hide TickInto, ReleaseOp, StatusOf, LetGo, HasPlace;
  }

  lemma ReleaseIsTold(l: LeaseState, id: PartyId, now: Instant)
    requires AtRest(l) && HasPlace(TickInto(l, now).lease, id)
    ensures ReleaseOp(l, id, now).Answered(now).Changed()
  {
    TickNeverRefuses(l, now);
    var t := TickInto(l, now);
    var d := ReleaseOp(l, id, now);
    if HeldBy(t.lease, id) {
      LettingGo(t.lease, t, now);
      hide TickInto, StatusOf, LeaseMachine.Release, CancelWait, ConfirmInto;
      assert d.transitions[|t.transitions|].Changed() by {
        ConfirmAppends(t.Then(Release(t.lease, id, t.lease.holder.value.leaseId, now)), id, now);
      }
    } else {
      GivesUpExactly(t.lease, id, now);
      hide TickInto, StatusOf, CancelWait;
      assert d.transitions[|t.transitions|].Changed();
    }
  }

  lemma ConfirmAppends(d: Done, id: PartyId, now: Instant)
    ensures var c := ConfirmInto(d.Then(CancelWait(d.lease, id, now)), now);
      |c.transitions| > |d.transitions| && c.transitions[..|d.transitions|] == d.transitions
  {
  }

  // ---------------------------------------------------------------- giving way

  /** The line with the waiter of this id first and the others as they stood. */
  predicate PutFirst(q: seq<Waiter>, after: seq<Waiter>, id: PartyId) {
    exists i :: 0 <= i < |q| && q[i].party.id == id && after == [q[i]] + q[..i] + q[i + 1..]
  }

  /** Giving way to a waiter that does not wait is refused and changes nothing. To one
      that does, a person that holds the session alone hands it over on the spot; a
      person somebody else takes over from leaves, and that party holds; a person
      that was taking over itself is called off and the holder drives on. A person
      that has no place here moves nobody but the waiter. A waiter that is not
      handed the session is first in line. */
  lemma YieldAchieves(l: LeaseState, id: PartyId, person: PartyId, now: Instant)
    requires AtRest(l)
    ensures var was, d := TickInto(l, now).lease, YieldOp(l, id, person, now);
      && (!InQueue(was.queue, id) ==> d.lease == was && d.refusal == Some(HeldElsewhere(Human)))
      && (InQueue(was.queue, id) ==> d.refusal == None)
      && (InQueue(was.queue, id) && HeldBy(was, person) && was.pending.None? ==>
            exists i :: 0 <= i < |was.queue| && was.queue[i].party.id == id
              && Driving(was, d.lease, was.queue[i].party, now)
              && d.lease.queue == was.queue[..i] + was.queue[i + 1..])
      && (InQueue(was.queue, id) && HeldBy(was, person) && was.pending.Some? ==>
            && Driving(was, d.lease, was.pending.value.waiter.party, now)
            && PutFirst(was.queue, d.lease.queue, id))
      && (InQueue(was.queue, id) && PendingFor(was, person) ==>
            && PutFirst(was.queue, d.lease.queue, id)
            && d.lease == was.(queue := d.lease.queue, pending := None, phase := Held))
      && (InQueue(was.queue, id) && !HasPlace(was, person) ==>
            PutFirst(was.queue, d.lease.queue, id) && d.lease == was.(queue := d.lease.queue))
  {
    TickNeverRefuses(l, now);
    var t := TickInto(l, now);
    var was := t.lease;
    NoPlaceInQueue(was.queue, id);
    if InQueue(was.queue, id) {
      PromoteKeepsInv(was, id);
      PromotedPutsFirst(was, id);
      var promoted := Promote(was, id);
      GivesUpExactly(promoted, person, now);
      PromoteKeepsPlaces(was, id, person);
      if HeldBy(was, person) {
        var off := t.(lease := promoted).Then(CancelWait(promoted, person, now));
        LettingGo(promoted, off, now);
      }
      hide TickInto, Promote, CancelWait, Release, InQueue;
    }
  }

  predicate HeadIs(q: seq<Waiter>, after: seq<Waiter>, i: nat)
    requires i < |q|
  {
    after != [] && after[0] == q[i] && after[1..] == q[..i] + q[i + 1..]
  }

  lemma PromotedPutsFirst(l: LeaseState, id: PartyId)
    requires InQueue(l.queue, id)
    ensures PutFirst(l.queue, Promote(l, id).queue, id) && Promote(l, id) == l.(queue := Promote(l, id).queue)
    ensures exists i :: 0 <= i < |l.queue| && l.queue[i].party.id == id && HeadIs(l.queue, Promote(l, id).queue, i)
  {
    NoPlaceInQueue(l.queue, id);
    var i := PositionOf(l.queue, id).value;
    assert Promote(l, id).queue == [l.queue[i]] + l.queue[..i] + l.queue[i + 1..];
    assert Promote(l, id).queue[1..] == l.queue[..i] + l.queue[i + 1..];
  }

  lemma PromoteKeepsPlaces(l: LeaseState, id: PartyId, other: PartyId)
    ensures HasPlace(Promote(l, id), other) <==> HasPlace(l, other)
  {
    match PositionOf(l.queue, id)
    case None =>
    case Some(i) =>
      var q, r := l.queue, Promote(l, id).queue;
      assert forall j :: 0 <= j < |r| ==> r[j] == q[if j == 0 then i else if j <= i then j - 1 else j];
      if InQueue(q, other) {
        var j :| 0 <= j < |q| && q[j].party.id == other;
        assert r[if j == i then 0 else if j < i then j + 1 else j] == q[j];
      }
  }

  // ---------------------------------------------------------------- a person's answers

  /** A person holds the session, or is about to. */
  predicate PersonIsThere(l: LeaseState) {
    || (l.holder.Some? && !l.holder.value.party.kind.Agent?)
    || (l.pending.Some? && !l.pending.value.waiter.party.kind.Agent?)
  }

  lemma PersonHoldsIs(b: BoardState, key: Key, now: Instant)
    ensures PersonHoldsAt(b, key, now) <==> key in b.leases && PersonIsThere(b.leases[key])
  {
  }

  /** A mute until an instant ends then, and one until the person is idle lasts while
      a person holds any session or is about to. */
  lemma MutedIs(b: BoardState, now: Instant)
    ensures MutedAt(b, now).Some? <==>
      || (b.mute.Some? && b.mute.value.At? && now < b.mute.value.until)
      || (b.mute == Some(PersonIdle) && exists key :: key in b.leases && PersonIsThere(b.leases[key]))
    ensures MutedAt(b, now).Some? ==> MutedAt(b, now) == b.mute
  {
    if PersonHoldsAny(b, now) {
      var key :| key in b.leases && PersonHoldsAt(b, key, now);
      PersonHoldsIs(b, key, now);
    }
    if exists key :: key in b.leases && PersonIsThere(b.leases[key]) {
      var key :| key in b.leases && PersonIsThere(b.leases[key]);
      PersonHoldsIs(b, key, now);
      assert PersonHoldsAt(b, key, now);
    }
  }

  /** The refusal that turns an agent away says how long: what is left of the mute, or
      until the session is due to change, or what is left of the "not now". The mute
      comes first. The agent is out of line, and nobody else moved. */
  lemma TurnedAwayUntil(b: BoardState, key: Key, party: Party, now: Instant)
    requires AtRest(LeaseAt(b, key))
    requires TurnsAway(RefusalOf(B.Ask(b, key, party, now), key))
    ensures var was, error := Elapsed(b, key, now), RefusalOf(B.Ask(b, key, party, now), key).value;
      && (error.Muted? <==> MutedAt(was, now).Some?)
      && (error.Muted? && b.mute.value.At? ==> now + error.retryAfterMs == b.mute.value.until)
      && (error.Muted? && b.mute.value.PersonIdle? ==>
            var due := StatusOf(was.leases[key], now).changesInMs;
            error.retryAfterMs == if due.Some? then due.value else b.policy.personIdleMs)
      && (error.NotNow? ==>
            (key, party.id) in b.declined && now + error.retryAfterMs == b.declined[(key, party.id)])
      && OutOfLine(was.leases[key], LeaseAt(B.Ask(b, key, party, now).board, key), party.id)
  {
    TickNeverRefuses(LeaseAt(b, key), now);
    var d := TickInto(LeaseAt(b, key), now);
    GateExactly(Elapsed(b, key, now), key, party, now);
    GatedExactly(d, party, Gate(Elapsed(b, key, now), key, party, now), now);
    MutedIs(Elapsed(b, key, now), now);
    GateSays(Elapsed(b, key, now), key, party, now);
    GivingUp(d.lease, party.id, now);
    hide TickInto, Gate, MutedAt, StatusOf, AtRest, CancelWait, Acquire, OutOfLine;
  }

  lemma GateSays(b: BoardState, key: Key, party: Party, now: Instant)
    requires Gate(b, key, party, now).Some? && key in b.leases
    ensures var error := Gate(b, key, party, now).value;
      && (error.Muted? || error.NotNow?) && (error.Muted? <==> MutedAt(b, now).Some?)
      && (error.Muted? && b.mute.value.At? ==> now + error.retryAfterMs == b.mute.value.until)
      && (error.Muted? && b.mute.value.PersonIdle? ==>
            var due := StatusOf(b.leases[key], now).changesInMs;
            error.retryAfterMs == if due.Some? then due.value else b.policy.personIdleMs)
      && (error.NotNow? ==>
            (key, party.id) in b.declined && now + error.retryAfterMs == b.declined[(key, party.id)])
  {
    hide StatusOf;
  }

  /** After a "not now" the agent waits for nothing on that session; the answer says a
      minute, and stands for exactly that long, for that agent and that session. */
  lemma NotNowAchieves(b: BoardState, key: Key, id: PartyId, now: Instant)
    requires AtRest(LeaseAt(b, key))
    ensures var m := B.Apply(b, B.TimedCall(DoNotNow(key, id), now));
      && OutOfLine(TickInto(LeaseAt(b, key), now).lease, LeaseAt(m.board, key), id)
      && RefusalOf(m, key) == Some(NotNow(60_000))
      && (key, id) in m.board.declined
      && (forall at: Instant :: now <= at ==>
            (Reached(at, m.board.declined[(key, id)]) <==> Past(now, 60_000, at)))
      && (forall pair :: pair != (key, id) ==>
            && (pair in m.board.declined <==> pair in b.declined)
            && (pair in b.declined ==> m.board.declined[pair] == b.declined[pair]))
      && m.board.mute == b.mute
  {
    TickNeverRefuses(LeaseAt(b, key), now);
    GivingUp(TickInto(LeaseAt(b, key), now).lease, id, now);
    hide TickInto, CancelWait, StatusOf, AtRest, OutOfLine;
  }

  // ---------------------------------------------------------------- muting

  predicate Asked(asked: seq<Keyed<PartyId>>, id: PartyId) {
    exists i :: 0 <= i < |asked| && asked[i].value == id
  }

  /** An agent of this id stands in line. */
  predicate AgentInLine(q: seq<Waiter>, id: PartyId) {
    exists i :: 0 <= i < |q| && q[i].party.kind.Agent? && q[i].party.id == id
  }

  lemma AskedMore(one: seq<Keyed<PartyId>>, more: seq<Keyed<PartyId>>, id: PartyId)
    ensures Asked(one + more, id) <==> Asked(one, id) || Asked(more, id)
  {
    var both := one + more;
    if Asked(one, id) {
      var i :| 0 <= i < |one| && one[i].value == id;
      assert both[i].value == id;
    }
    if Asked(more, id) {
      var i :| 0 <= i < |more| && more[i].value == id;
      assert both[|one| + i].value == id;
    }
  }

  lemma AgentsMore(q: seq<Waiter>, id: PartyId)
    requires q != []
    ensures AgentInLine(q, id) <==> (q[0].party.kind.Agent? && q[0].party.id == id) || AgentInLine(q[1..], id)
  {
    if AgentInLine(q[1..], id) {
      var i :| 0 <= i < |q[1..]| && q[1..][i].party.kind.Agent? && q[1..][i].party.id == id;
      assert q[i + 1] == q[1..][i];
    }
    if AgentInLine(q, id) {
      var i :| 0 <= i < |q| && q[i].party.kind.Agent? && q[i].party.id == id;
      assert i > 0 ==> q[i] == q[1..][i - 1];
    }
  }

  lemma {:induction false} WaitingAgentsAre(q: seq<Waiter>, now: Instant, id: PartyId)
    ensures Asked(WaitingAgents(q, now), id) <==> AgentInLine(q, id)
  {
    if q != [] {
      WaitingAgentsAre(q[1..], now, id);
      AgentsMore(q, id);
      var head := if q[0].party.kind.IsPerson() then [] else [Keyed(Since(now, q[0].firstAskedAt), q[0].party.id)];
      AskedMore(head, WaitingAgents(q[1..], now), id);
      assert q[0].party.kind.Agent? ==> head[0].value == q[0].party.id;
      hide AgentInLine;
    }
  }

  lemma SortedAsk(asked: seq<Keyed<PartyId>>, id: PartyId)
    ensures Asked(SortDescending(asked), id) <==> Asked(asked, id)
  {
    Sorts(asked);
    var sorted := SortDescending(asked);
    if Asked(sorted, id) {
      var i :| 0 <= i < |sorted| && sorted[i].value == id;
      assert sorted[i] in multiset(sorted);
    }
    if Asked(asked, id) {
      var i :| 0 <= i < |asked| && asked[i].value == id;
      assert asked[i] in multiset(asked);
    }
    hide SortDescending;
  }

  lemma {:induction false} DroppingIs(l: LeaseState, asked: seq<Keyed<PartyId>>, now: Instant)
    requires AtRest(l) && forall k :: 0 <= k < |asked| ==> !PendingFor(l, asked[k].value)
    ensures var d := DropRequests(l, asked, now);
      && (forall w :: w in d.lease.queue <==> w in l.queue && !Asked(asked, w.party.id))
      && AsTheyStood(l.queue, d.lease.queue)
      && d.lease == l.(queue := d.lease.queue,
                       contendedSince := if d.lease.queue == [] then None else l.contendedSince)
      && |d.answers| == |asked|
    decreases |asked|
  {
    if asked == [] {
    } else {
      var id := asked[0].value;
      GivingUp(l, id, now);
      var after := CancelWait(l, id, now).lease;
      LeavingIs(l, after, id);
      DroppingIs(after, asked[1..], now);
      var d := DropRequests(l, asked, now);
      AsTheyStoodStill(l.queue, after.queue, d.lease.queue);
      forall x
        ensures Asked(asked, x) <==> x == id || Asked(asked[1..], x)
      {
        assert asked == [asked[0]] + asked[1..] && [asked[0]][0].value == id;
        AskedMore([asked[0]], asked[1..], x);
      }
      assert d.lease.queue != [] ==> d.lease.queue[0] in after.queue;
      hide AtRest, OutOfLine, CancelWait, Asked, AsTheyStood;
    }
  }

  lemma LeavingIs(l: LeaseState, after: LeaseState, id: PartyId)
    requires AtRest(l) && OutOfLine(l, after, id) && !PendingFor(l, id)
    ensures forall w :: w in after.queue <==> w in l.queue && w.party.id != id
    ensures AsTheyStood(l.queue, after.queue)
    ensures after == l.(queue := after.queue,
                        contendedSince := if after.queue == [] then None else l.contendedSince)
  {
  }

  lemma AsTheyStoodStill(q: seq<Waiter>, r: seq<Waiter>, s: seq<Waiter>)
    requires AsTheyStood(q, r) && AsTheyStood(r, s)
    ensures AsTheyStood(q, s)
  {
    forall i, j | 0 <= i < j < |s|
      ensures StandsBefore(q, s[i], s[j])
    {
      var a, b :| 0 <= a < b < |r| && r[a] == s[i] && r[b] == s[j];
      assert StandsBefore(q, r[a], r[b]);
    }
  }

  // ---------------------------------------------------------------- what the dropped are told

  predicate Distinct(asked: seq<Keyed<PartyId>>) {
    forall i, j :: 0 <= i < j < |asked| ==> asked[i].value != asked[j].value
  }

  lemma {:induction false} InsertingDistinct(x: Keyed<PartyId>, s: seq<Keyed<PartyId>>)
    requires Distinct(s) && !Asked(s, x.value)
    ensures Distinct(InsertDescending(x, s))
  {
    if s != [] && x.key < s[0].key {
      var rest := s[1..];
      assert Distinct(rest) && !Asked(rest, x.value) by {
        assert forall i :: 0 <= i < |rest| ==> rest[i] == s[i + 1];
      }
      InsertingDistinct(x, rest);
      forall i | 0 <= i < |rest| + 1
        ensures InsertDescending(x, rest)[i].value != s[0].value
      {
        InsertedFrom(x, rest, i);
        assert s[0].value != x.value;
      }
    } else {
      assert forall i :: 0 <= i < |s| ==> s[i].value != x.value;
    }
  }

  lemma {:induction false} SortingDistinct(s: seq<Keyed<PartyId>>)
    requires Distinct(s)
    ensures Distinct(SortDescending(s))
  {
    if s != [] {
      var rest := s[1..];
      assert forall i :: 0 <= i < |rest| ==> rest[i] == s[i + 1];
      SortingDistinct(rest);
      SortedAsk(rest, s[0].value);
      InsertingDistinct(s[0], SortDescending(rest));
    }
  }

  lemma {:induction false} WaitingDistinct(q: seq<Waiter>, now: Instant)
    requires DistinctIds(q)
    ensures Distinct(WaitingAgents(q, now))
  {
    if q != [] {
      var rest := q[1..];
      assert forall i :: 0 <= i < |rest| ==> rest[i] == q[i + 1];
      WaitingDistinct(rest, now);
      WaitingAgentsAre(rest, now, q[0].party.id);
      assert !AgentInLine(rest, q[0].party.id);
      assert forall i :: 0 <= i < |WaitingAgents(rest, now)| ==> WaitingAgents(rest, now)[i].value != q[0].party.id;
    }
  }

  /** An agent in line with this id has waited this long. */
  predicate HasWaited(q: seq<Waiter>, k: Keyed<PartyId>, now: Instant) {
    exists i :: 0 <= i < |q| && q[i].party.kind.Agent? && q[i].party.id == k.value
      && k.key == if now < q[i].firstAskedAt then 0 else now - q[i].firstAskedAt
  }

  lemma {:induction false} WaitedThatLong(q: seq<Waiter>, now: Instant)
    ensures forall i :: 0 <= i < |WaitingAgents(q, now)| ==> HasWaited(q, WaitingAgents(q, now)[i], now)
  {
    if q != [] {
      WaitedThatLong(q[1..], now);
      var all, rest := WaitingAgents(q, now), WaitingAgents(q[1..], now);
      forall i | 0 <= i < |all|
        ensures HasWaited(q, all[i], now)
      {
        if i == 0 && q[0].party.kind.Agent? {
          assert q[0].party.id == all[0].value;
        } else {
          var k := if q[0].party.kind.Agent? then i - 1 else i;
          assert all[i] == rest[k] && HasWaited(q[1..], rest[k], now);
          var j :| 0 <= j < |q[1..]| && q[1..][j].party.kind.Agent? && q[1..][j].party.id == rest[k].value
            && rest[k].key == if now < q[1..][j].firstAskedAt then 0 else now - q[1..][j].firstAskedAt;
          assert q[j + 1] == q[1..][j];
        }
      }
    }
  }

  /** The requests to a person are the agents in line, once each, the one that has
      waited longest first. */
  lemma RequestsInOrder(l: LeaseState, now: Instant)
    requires AtRest(l) && PersonIsThere(l)
    ensures var asked := Requests(l, now);
      && Distinct(asked)
      && (forall i, j :: 0 <= i < j < |asked| ==> asked[i].key >= asked[j].key)
      && (forall i :: 0 <= i < |asked| ==> HasWaited(l.queue, asked[i], now))
  {
    var all := WaitingAgents(l.queue, now);
    WaitingDistinct(l.queue, now);
    SortingDistinct(all);
    Sorts(all);
    WaitedThatLong(l.queue, now);
    var asked := Requests(l, now);
    assert asked == SortDescending(all);
    forall i | 0 <= i < |asked|
      ensures HasWaited(l.queue, asked[i], now)
    {
      assert asked[i] in multiset(all);
      assert asked[i] in all;
    }
    hide WaitingAgents, HasWaited, Distinct;
  }

  /** The answer to a dropped agent: its wait is cancelled, and the line then shown is
      this long. */
  predicate TellsDropped(a: Answer, left: int) {
    && a.refusal == None && |a.transitions| == 1
    && a.transitions[0].outcome == WaitCancelled && a.transitions[0].release == NotRequired
    && |a.status.queue| == left
  }

  lemma DropsFirst(l: LeaseState, asked: seq<Keyed<PartyId>>, now: Instant)
    requires AtRest(l) && asked != [] && InQueue(l.queue, asked[0].value)
    ensures var after, d := CancelWait(l, asked[0].value, now).lease, DropRequests(l, asked, now);
      && AtRest(after) && LeftBy(l.queue, after.queue, asked[0].value) && |after.queue| + 1 == |l.queue|
      && d.answers != [] && TellsDropped(d.answers[0], |l.queue| - 1)
      && d.answers[1..] == DropRequests(after, asked[1..], now).answers
  {
    var id := asked[0].value;
    GivingUp(l, id, now);
    GivesUpExactly(l, id, now);
    NotBothPlaces(l, id);
    StatusShows(CancelWait(l, id, now).lease, now);
    hide AtRest, StatusOf, CancelWait, InQueue;
  }

  /** Each dropped agent is answered once, in the order asked: its wait is cancelled,
      and of the line the status then shows, it and those before it are missing. */
  lemma {:induction false} DroppingTells(l: LeaseState, asked: seq<Keyed<PartyId>>, now: Instant, i: nat)
    requires AtRest(l) && Distinct(asked) && i < |asked|
    requires forall k :: 0 <= k < |asked| ==> InQueue(l.queue, asked[k].value)
    ensures var answers := DropRequests(l, asked, now).answers;
      i < |answers| && TellsDropped(answers[i], |l.queue| - i - 1)
    decreases |asked|
  {
    hide AtRest, DropRequests, CancelWait, InQueue, LeftBy, TellsDropped;
    DropsFirst(l, asked, now);
    if i > 0 {
      var id, after := asked[0].value, CancelWait(l, asked[0].value, now).lease;
      forall k | 0 <= k < |asked[1..]|
        ensures InQueue(after.queue, asked[1..][k].value)
      {
        assert asked[1..][k] == asked[k + 1];
        OthersStay(l, after, id, asked[k + 1].value);
      }
      assert forall k :: 0 <= k < |asked[1..]| ==> asked[1..][k] == asked[k + 1];
      DroppingTells(after, asked[1..], now, i - 1);
    }
  }

  lemma NotBothPlaces(l: LeaseState, id: PartyId)
    requires AtRest(l) && InQueue(l.queue, id)
    ensures !PendingFor(l, id)
  {
  }

  lemma OthersStay(l: LeaseState, after: LeaseState, id: PartyId, other: PartyId)
    requires LeftBy(l.queue, after.queue, id) && InQueue(l.queue, other) && other != id
    ensures InQueue(after.queue, other)
  {
    var i :| 0 <= i < |l.queue| && l.queue[i].party.id == id && after.queue == l.queue[..i] + l.queue[i + 1..];
    var j :| 0 <= j < |l.queue| && l.queue[j].party.id == other;
    assert after.queue[if j < i then j else j - 1] == l.queue[j];
  }

  /** Where a person holds or is about to, every agent left the line and persons stay
      as they stood; anywhere else nothing moved. */
  ghost predicate MutedOut(l: LeaseState, after: LeaseState) {
    if PersonIsThere(l) then
      && (forall w :: w in after.queue <==> w in l.queue && !w.party.kind.Agent?)
      && AsTheyStood(l.queue, after.queue)
      && after == l.(queue := after.queue,
                     contendedSince := if after.queue == [] then None else l.contendedSince)
    else after == l
  }

  /** Muting sets the mute and, on every session where a person holds or is about to,
      takes every agent out of line and answers if there was one; nothing else moves
      on any session. */
  lemma MuteAchieves(b: BoardState, until: MuteUntil, now: Instant, key: Key)
    requires key in b.leases && AtRest(b.leases[key])
    ensures var m := B.Apply(b, B.TimedCall(DoMute(until), now));
      && m.board == b.(mute := Some(until), leases := m.board.leases)
      && key in m.board.leases && MutedOut(b.leases[key], m.board.leases[key])
      && (key in m.answers <==>
            PersonIsThere(b.leases[key]) && exists w :: w in b.leases[key].queue && w.party.kind.Agent?)
  {
    DroppedAre(b.leases[key], now);
    hide AllDropped, PersonIsThere, MutedOut;
  }

  lemma DroppedAre(l: LeaseState, now: Instant)
    requires AtRest(l)
    ensures MutedOut(l, AllDropped(l, now).lease)
    ensures AllDropped(l, now).answers != [] <==>
      PersonIsThere(l) && exists w :: w in l.queue && w.party.kind.Agent?
  {
    if PersonIsThere(l) {
      RequestsAre(l, now);
      DroppingIs(l, Requests(l, now), now);
      hide AtRest, Asked, DropRequests, Requests, AsTheyStood, StatusOf, PersonIsThere;
    } else {
      assert Requests(l, now) == [];
    }
  }

  lemma RequestsAre(l: LeaseState, now: Instant)
    requires AtRest(l) && PersonIsThere(l)
    ensures var asked := Requests(l, now);
      && (forall w :: w in l.queue ==> (w.party.kind.Agent? <==> Asked(asked, w.party.id)))
      && (forall k :: 0 <= k < |asked| ==> !PendingFor(l, asked[k].value))
      && (asked != [] <==> exists w :: w in l.queue && w.party.kind.Agent?)
  {
    var asked, all := Requests(l, now), WaitingAgents(l.queue, now);
    assert asked == SortDescending(all);
    forall id
      ensures Asked(asked, id) <==> AgentInLine(l.queue, id)
    {
      SortedAsk(all, id);
      WaitingAgentsAre(l.queue, now, id);
    }
    hide Requests, WaitingAgents, SortDescending;
    forall k | 0 <= k < |asked|
      ensures AgentInLine(l.queue, asked[k].value)
    {
      assert Asked(asked, asked[k].value);
    }
    if asked != [] {
      assert AgentInLine(l.queue, asked[0].value);
    }
  }

  lemma RequestsAreAnswered(l: LeaseState, now: Instant, i: nat)
    requires AtRest(l) && PersonIsThere(l) && i < |Requests(l, now)|
    ensures var answers := AllDropped(l, now).answers;
      |answers| == |Requests(l, now)| && TellsDropped(answers[i], |l.queue| - i - 1)
  {
    RequestsAre(l, now);
    RequestsInOrder(l, now);
    hide DropRequests, Requests, AtRest, TellsDropped, PersonIsThere, Distinct, Asked;
    var asked := Requests(l, now);
    DroppingIs(l, asked, now);
    forall k | 0 <= k < |asked|
      ensures InQueue(l.queue, asked[k].value)
    {
      assert HasWaited(l.queue, asked[k], now);
    }
    hide InQueue;
    DroppingTells(l, asked, now, i);
  }

  /** A mute answers once for every request to the person, in their order. */
  lemma MuteAnswers(b: BoardState, until: MuteUntil, now: Instant, key: Key, i: nat)
    requires key in b.leases && AtRest(b.leases[key])
    requires key in B.Apply(b, B.TimedCall(DoMute(until), now)).answers
    ensures var l, answers := b.leases[key], B.Apply(b, B.TimedCall(DoMute(until), now)).answers[key];
      && PersonIsThere(l) && |answers| == |Requests(l, now)|
      && (i < |answers| ==> TellsDropped(answers[i], |l.queue| - i - 1))
  {
    var l := b.leases[key];
    MuteAchieves(b, until, now, key);
    RequestsAre(l, now);
    RequestsAreAnswered(l, now, if i < |Requests(l, now)| then i else 0);
    hide AllDropped, Requests, AtRest, TellsDropped, PersonIsThere, Asked;
  }
}
