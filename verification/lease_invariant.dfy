/** What every call on a lease keeps. */
module LeaseInvariant {
  import opened Clock
  import opened Wrappers
  import opened Parties
  import opened Transitions
  import opened LeaseMachine

  predicate InQueue(q: seq<Waiter>, id: PartyId) {
    exists i :: 0 <= i < |q| && q[i].party.id == id
  }

  predicate DistinctIds(q: seq<Waiter>) {
    forall i, j :: 0 <= i < j < |q| ==> q[i].party.id != q[j].party.id
  }

  /** Nobody is in two places at once: holding, preempting, waiting. */
  predicate OnePlaceEach(l: LeaseState) {
    && DistinctIds(l.queue)
    && (l.holder.Some? ==> !InQueue(l.queue, l.holder.value.party.id))
    && (l.pending.Some? ==> !InQueue(l.queue, l.pending.value.waiter.party.id))
    && (l.pending.Some? ==> !HeldBy(l, l.pending.value.waiter.party.id))
  }

  /** A running preemption outranks the holder, and its deadline leaves the
      holder its minimum hold unless a person is taking over from an agent. */
  predicate PendingIsEarned(l: LeaseState) {
    l.pending.Some? && l.holder.Some? ==>
      var asking := l.pending.value.waiter.party;
      && asking.priority > l.holder.value.party.priority
      && (|| (!asking.kind.Agent? && l.holder.value.party.kind.Agent?)
          || Since(l.pending.value.deadline, l.holder.value.grantedAt) >= l.policy.minHoldMs)
  }

  predicate Inv(l: LeaseState) {
    && (l.phase.Unheld? <==> l.holder.None?)
    && (l.phase.Unheld? ==> l.queue == [])
    && (l.phase.PreemptPending? <==> l.pending.Some?)
    && OnePlaceEach(l)
    && |l.queue| <= l.policy.maxQueueDepth
    && (l.contendedSince.Some? <==> l.queue != [])
    && (l.holder.Some? ==>
          && l.holder.value.leaseId < l.nextLeaseId
          && (l.holder.value.connected <==> l.holder.value.graceUntil.None?)
          && (l.phase.HeldGrace? ==> !l.holder.value.connected))
    && PendingIsEarned(l)
  }

  // ---------------------------------------------------------------- queues

  lemma WithoutIds(q: seq<Waiter>, i: nat)
    requires i < |q| && DistinctIds(q)
    ensures DistinctIds(Without(q, i))
    ensures forall id :: InQueue(Without(q, i), id) <==> InQueue(q, id) && id != q[i].party.id
  {
    var r := Without(q, i);
    assert forall j :: 0 <= j < |r| ==> r[j] == q[if j < i then j else j + 1];
    forall id | InQueue(q, id) && id != q[i].party.id
      ensures InQueue(r, id)
    {
      var k :| 0 <= k < |q| && q[k].party.id == id;
      assert r[if k < i then k else k - 1].party.id == id;
    }
  }

  lemma InsertedIds(q: seq<Waiter>, i: nat, w: Waiter)
    requires i <= |q| && DistinctIds(q) && !InQueue(q, w.party.id)
    ensures DistinctIds(Inserted(q, i, w))
    ensures forall id :: InQueue(Inserted(q, i, w), id) <==> InQueue(q, id) || id == w.party.id
  {
    var r := Inserted(q, i, w);
    assert forall j :: 0 <= j < |r| ==> r[j] == if j < i then q[j] else if j == i then w else q[j - 1];
    forall id | InQueue(q, id)
      ensures InQueue(r, id)
    {
      var k :| 0 <= k < |q| && q[k].party.id == id;
      assert r[if k < i then k else k + 1].party.id == id;
    }
    assert r[i].party.id == w.party.id;
  }

  lemma {:induction false} LiveIds(q: seq<Waiter>, now: Instant, ttl: Millis)
    requires DistinctIds(q)
    ensures DistinctIds(Waiters(q, now, ttl, false))
    ensures forall id :: InQueue(Waiters(q, now, ttl, false), id) ==> InQueue(q, id)
  {
    if q != [] {
      LiveIds(q[1..], now, ttl);
      forall id | InQueue(Waiters(q, now, ttl, false), id)
        ensures InQueue(q, id)
      {
        if id == q[0].party.id {
          assert InQueue(q, id);
        } else {
          var r := Waiters(q, now, ttl, false);
          var k :| 0 <= k < |r| && r[k].party.id == id;
          assert r[k] in q;
        }
      }
      var rest := Waiters(q[1..], now, ttl, false);
      forall j | 0 <= j < |rest|
        ensures rest[j].party.id != q[0].party.id
      {
        assert rest[j] in q[1..];
      }
    }
  }

  lemma HeadIds(q: seq<Waiter>)
    requires q != [] && DistinctIds(q)
    ensures DistinctIds(q[1..])
    ensures forall id :: InQueue(q[1..], id) <==> InQueue(q, id) && id != q[0].party.id
  {
    WithoutIds(q, 0);
    assert Without(q, 0) == q[1..];
  }

  // ---------------------------------------------------------------- calls

  lemma SettleKeepsInv(l: LeaseState, now: Instant, from: Phase, cause: Cause)
    requires Inv(l) && l.holder.Some?
    ensures Inv(Settle(l, now, from, cause).lease)
  {
    if l.pending.None? && l.queue != [] {
      HeadIds(l.queue);
    }
  }

  lemma TakeOverKeepsInv(l: LeaseState, party: Party, now: Instant, from: Phase)
    requires Inv(l) && l.holder.Some? && !InQueue(l.queue, party.id)
    ensures Inv(TakeOver(l, party, now, from).lease)
  {
  }

  /** `party` is nowhere in this lease yet. */
  predicate Stranger(l: LeaseState, party: Party) {
    !HeldBy(l, party.id) && !PendingFor(l, party.id) && !InQueue(l.queue, party.id)
  }

  lemma QueueOrRefuseKeepsInv(l: LeaseState, party: Party, queue: bool, now: Instant, refusal: LeaseError)
    requires Inv(l) && Stranger(l, party) && !l.phase.Unheld?
    ensures Inv(QueueOrRefuse(l, party, queue, now, refusal).lease)
  {
    var i := InsertPosition(l.queue, party.priority);
    InsertedIds(l.queue, i, Waiter(party, now, now));
  }

  lemma ContestKeepsInv(l: LeaseState, party: Party, queue: bool, now: Instant)
    requires Inv(l) && Stranger(l, party) && !l.phase.Unheld?
    ensures Inv(Contest(l, party, queue, now).lease)
  {
    var h := l.holder.value;
    var heldFor := Since(now, h.grantedAt);
    QueueOrRefuseKeepsInv(l, party, queue, now, HeldElsewhere(h.party.kind));
    if heldFor < l.policy.minHoldMs {
      QueueOrRefuseKeepsInv(l, party, queue, now, MinHoldNotElapsed(l.policy.minHoldMs - heldFor));
    }
    TakeOverKeepsInv(l, party, now, l.phase);
  }

  lemma AcquireKeepsInv(l0: LeaseState, party: Party, queue: bool, now: Instant)
    requires Inv(l0)
    ensures Inv(Acquire(l0, party, queue, now).lease)
  {
    var l := l0.(forceReleaseUntil := None);
    match PositionOf(l.queue, party.id)
    case Some(i) =>
      var q := l.queue[i := l.queue[i].(queuedAt := now)];
      assert forall j :: 0 <= j < |q| ==> q[j].party == l.queue[j].party;
    case None =>
      if Stranger(l, party) && !l.phase.Unheld? {
        ContestKeepsInv(l, party, queue, now);
      }
  }

  lemma CancelWaitKeepsInv(l: LeaseState, id: PartyId, now: Instant)
    requires Inv(l)
    ensures Inv(CancelWait(l, id, now).lease)
  {
    match PositionOf(l.queue, id)
    case Some(i) => WithoutIds(l.queue, i);
    case None =>
  }

  lemma PromoteKeepsInv(l: LeaseState, id: PartyId)
    requires Inv(l)
    ensures Inv(Promote(l, id))
  {
    match PositionOf(l.queue, id)
    case None =>
    case Some(i) =>
      var rest := Without(l.queue, i);
      WithoutIds(l.queue, i);
      assert !InQueue(rest, l.queue[i].party.id);
      InsertedIds(rest, 0, l.queue[i]);
      assert Inserted(rest, 0, l.queue[i]) == [l.queue[i]] + rest;
  }

  /** Both halves of a tick keep it: sweeping the queue, then moving the holder. */
  lemma TickKeepsInv(l: LeaseState, now: Instant)
    requires Inv(l)
    ensures Inv(Swept(l, now))
    ensures Inv(Tick(l, now).lease)
  {
    LiveIds(l.queue, now, l.policy.queueTtlMs);
    var s := Swept(l, now);
    assert Inv(s);
    match DueCause(s, now)
    case None =>
    case Some(cause) => SettleKeepsInv(s, now, s.phase, cause);
  }

  lemma ReleaseKeepsInv(l: LeaseState, id: PartyId, leaseId: nat, now: Instant)
    requires Inv(l)
    ensures Inv(Release(l, id, leaseId, now).lease)
  {
    if l.holder.Some? {
      SettleKeepsInv(l, now, l.phase, Released);
    }
  }

  lemma ForceReleaseKeepsInv(l: LeaseState, now: Instant)
    requires Inv(l)
    ensures Inv(ForceRelease(l, now).lease)
  {
  }

  lemma ConfirmKeepsInv(l: LeaseState, now: Instant)
    requires Inv(l)
    ensures Inv(ConfirmRelease(l, now).lease)
  {
  }

  lemma SetConnectedKeepsInv(l: LeaseState, id: PartyId, connected: bool, now: Instant)
    requires Inv(l)
    ensures Inv(SetConnected(l, id, connected, now).lease)
  {
  }

  /** Every call keeps the invariant. */
  lemma ApplyKeepsInv(l: LeaseState, c: TimedCall)
    requires Inv(l)
    ensures Inv(Apply(l, c).0)
    ensures Apply(l, c).0.policy == l.policy
  {
    hide Inv, Acquire, Release, Promote, CancelWait, ForceRelease, ConfirmRelease, SetConnected, Tick;
    ApplyKeepsPolicy(l, c);
    match c.call
    case DoAcquire(party, queue) => AcquireKeepsInv(l, party, queue, c.now);
    case DoRelease(id, leaseId) => ReleaseKeepsInv(l, id, leaseId, c.now);
    case DoPromote(id) => PromoteKeepsInv(l, id);
    case DoCancelWait(id) => CancelWaitKeepsInv(l, id, c.now);
    case DoConfirmRelease => ConfirmKeepsInv(l, c.now);
    case DoSetConnected(id, connected) => SetConnectedKeepsInv(l, id, connected, c.now);
    case DoForceRelease => ForceReleaseKeepsInv(l, c.now);
    case DoTick => TickKeepsInv(l, c.now);
    case DoNoteIntent(id) => ClocksKeepInv(l, id, c.now);
    case DoRenew(id) => ClocksKeepInv(l, id, c.now);
  }

  lemma ClocksKeepInv(l: LeaseState, id: PartyId, now: Instant)
    requires Inv(l)
    ensures Inv(NoteIntent(l, id, now)) && Inv(Renew(l, id, now))
  {
  }

  lemma ApplyKeepsPolicy(l: LeaseState, c: TimedCall)
    ensures Apply(l, c).0.policy == l.policy
  {
  }

  /** The invariant holds after every run of calls on a fresh lease. */
  lemma {:induction false} RunKeepsInv(l: LeaseState, calls: seq<TimedCall>)
    requires Inv(l)
    ensures Inv(Run(l, calls))
    ensures Run(l, calls).policy == l.policy
    decreases |calls|
  {
    if calls != [] {
      ApplyKeepsInv(l, calls[0]);
      RunKeepsInv(Apply(l, calls[0]).0, calls[1..]);
    }
  }

  lemma FreshIsValid(policy: Policy, calls: seq<TimedCall>)
    ensures Inv(Run(Fresh(policy), calls))
  {
    assert Inv(Fresh(policy));
    RunKeepsInv(Fresh(policy), calls);
  }
}
