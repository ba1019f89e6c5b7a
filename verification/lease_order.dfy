/** Who waits behind whom, over whole runs. */
module LeaseOrder {
  import opened Clock
  import opened Parties
  import opened Transitions
  import opened LeaseMachine
  import opened LeaseInvariant

  /** Highest priority first. */
  predicate Sorted(q: seq<Waiter>) {
    forall i, j :: 0 <= i < j < |q| ==> q[i].party.priority >= q[j].party.priority
  }

  /** `a` is served before `b`. */
  predicate Ahead(q: seq<Waiter>, a: PartyId, b: PartyId) {
    exists i, j :: 0 <= i < j < |q| && q[i].party.id == a && q[j].party.id == b
  }

  /** `p` stands before `p2`. */
  predicate Before(q: seq<Waiter>, p: Party, p2: Party) {
    exists i, j :: 0 <= i < j < |q| && q[i].party == p && q[j].party == p2
  }

  predicate Waits(q: seq<Waiter>, p: Party) {
    exists i :: 0 <= i < |q| && q[i].party == p
  }

  /** `r` lists some of the parties of `q`, in the same order. */
  predicate Thinned(q: seq<Waiter>, r: seq<Waiter>) {
    && (forall i :: 0 <= i < |r| ==> Waits(q, r[i].party))
    && (forall i, j :: 0 <= i < j < |r| ==> Before(q, r[i].party, r[j].party))
  }

  lemma NotBothWays(q: seq<Waiter>, p: Party, p2: Party)
    requires DistinctIds(q) && Ahead(q, p.id, p2.id)
    ensures p.id != p2.id && !Before(q, p2, p)
  {
    var k, l :| 0 <= k < l < |q| && q[k].party.id == p.id && q[l].party.id == p2.id;
    assert forall m :: 0 <= m < |q| && q[m].party == p ==> m == k;
    assert forall m :: 0 <= m < |q| && q[m].party == p2 ==> m == l;
  }

  lemma ThinningKeepsPlaces(q: seq<Waiter>, r: seq<Waiter>, a: PartyId, b: PartyId)
    requires DistinctIds(q) && Thinned(q, r)
    requires Ahead(q, a, b) && InQueue(r, a) && InQueue(r, b)
    ensures Ahead(r, a, b)
  {
    var i :| 0 <= i < |r| && r[i].party.id == a;
    var j :| 0 <= j < |r| && r[j].party.id == b;
    hide Before, Waits, DistinctIds;
    NotBothWays(q, r[i].party, r[j].party);
    assert i < j;
  }

  lemma ThinningKeepsOrder(q: seq<Waiter>, r: seq<Waiter>, a: PartyId, b: PartyId)
    requires DistinctIds(q) && Thinned(q, r)
    ensures Sorted(q) ==> Sorted(r)
    ensures Ahead(q, a, b) && InQueue(r, a) && InQueue(r, b) ==> Ahead(r, a, b)
    ensures InQueue(r, a) ==> InQueue(q, a)
  {
    if Ahead(q, a, b) && InQueue(r, a) && InQueue(r, b) {
      ThinningKeepsPlaces(q, r, a, b);
    }
    if InQueue(r, a) {
      var i :| 0 <= i < |r| && r[i].party.id == a;
      assert Waits(q, r[i].party);
    }
  }

  lemma WithoutThins(q: seq<Waiter>, i: nat)
    requires i < |q|
    ensures Thinned(q, Without(q, i))
  {
    var r := Without(q, i);
    assert forall j :: 0 <= j < |r| ==> r[j] == q[if j < i then j else j + 1];
  }

  lemma SameThins(q: seq<Waiter>, r: seq<Waiter>)
    requires |q| == |r| && forall i :: 0 <= i < |q| ==> q[i].party == r[i].party
    ensures Thinned(q, r)
  {
  }

  lemma {:induction false} SweepingThins(q: seq<Waiter>, now: Instant, ttl: Millis)
    ensures Thinned(q, Waiters(q, now, ttl, false))
  {
    if q != [] {
      SweepingThins(q[1..], now, ttl);
      var rest := Waiters(q[1..], now, ttl, false);
      forall i | 0 <= i < |rest|
        ensures Before(q, q[0].party, rest[i].party) && Waits(q, rest[i].party)
      {
        var k :| 0 <= k < |q[1..]| && q[1..][k].party == rest[i].party;
        assert q[k + 1].party == rest[i].party;
      }
      forall i, j | 0 <= i < j < |rest|
        ensures Before(q, rest[i].party, rest[j].party)
      {
        var k, m :| 0 <= k < m < |q[1..]| && q[1..][k].party == rest[i].party && q[1..][m].party == rest[j].party;
        assert q[k + 1].party == rest[i].party && q[m + 1].party == rest[j].party;
      }
    }
  }

  /** `p` joined the line, behind everybody of at least its priority. */
  predicate Joined(l: LeaseState, after: LeaseState, p: Party, now: Instant) {
    && Stranger(l, p)
    && after.queue == Inserted(l.queue, InsertPosition(l.queue, p.priority), Waiter(p, now, now))
  }

  /** Everything a call other than `promote` can do to the line: drop some of
      it, or add one newcomer. */
  ghost predicate LineKept(l: LeaseState, after: LeaseState) {
    || Thinned(l.queue, after.queue)
    || (exists p: Party, now: Instant :: Joined(l, after, p, now))
  }

  lemma SettleKeepsLine(l: LeaseState, now: Instant, from: Phase, cause: Cause)
    ensures Thinned(l.queue, Settle(l, now, from, cause).lease.queue)
  {
    SameThins(l.queue, l.queue);
    if l.queue != [] {
      WithoutThins(l.queue, 0);
      assert Without(l.queue, 0) == l.queue[1..];
    }
  }

  lemma AcquireKeepsLine(l0: LeaseState, party: Party, queue: bool, now: Instant)
    requires Inv(l0)
    ensures LineKept(l0, Acquire(l0, party, queue, now).lease)
  {
    var after := Acquire(l0, party, queue, now).lease;
    if |after.queue| == |l0.queue| + 1 {
      assert Joined(l0, after, party, now);
    } else {
      SameThins(l0.queue, after.queue);
    }
  }

  lemma TickKeepsLine(l: LeaseState, now: Instant)
    ensures Thinned(l.queue, Tick(l, now).lease.queue)
  {
    SweepingThins(l.queue, now, l.policy.queueTtlMs);
    var s := Swept(l, now);
    match DueCause(s, now)
    case None =>
    case Some(cause) => SettleKeepsLine(s, now, s.phase, cause);
  }

  lemma ApplyKeepsLine(l: LeaseState, c: TimedCall)
    requires Inv(l) && !c.call.DoPromote?
    ensures LineKept(l, Apply(l, c).0)
  {
    match c.call
    case DoAcquire(party, queue) => AcquireKeepsLine(l, party, queue, c.now);
    case DoRelease(id, leaseId) =>
      SettleKeepsLine(l, c.now, l.phase, Released);
      SameThins(l.queue, l.queue);
    case DoCancelWait(id) =>
      SameThins(l.queue, l.queue);
      match PositionOf(l.queue, id) {
        case Some(i) => WithoutThins(l.queue, i);
        case None =>
      }
    case DoTick => TickKeepsLine(l, c.now);
    case DoForceRelease =>
    case _ => SameThins(l.queue, Apply(l, c).0.queue);
  }

  lemma InsertedAt<T>(q: seq<T>, p: nat, x: T)
    requires p <= |q|
    ensures var r := Inserted(q, p, x);
      && |r| == |q| + 1
      && r[p] == x
      && (forall j :: 0 <= j < p ==> r[j] == q[j])
      && (forall j :: p < j < |r| ==> r[j] == q[j - 1])
  {
  }

  lemma JoiningKeepsOrder(q: seq<Waiter>, p: nat, w: Waiter, a: PartyId, b: PartyId)
    requires p <= |q|
    ensures Ahead(q, a, b) ==> Ahead(Inserted(q, p, w), a, b)
  {
    InsertedAt(q, p, w);
    if Ahead(q, a, b) {
      var r := Inserted(q, p, w);
      var i, j :| 0 <= i < j < |q| && q[i].party.id == a && q[j].party.id == b;
      var i' := if i < p then i else i + 1;
      var j' := if j < p then j else j + 1;
      assert r[i'].party.id == a && r[j'].party.id == b;
    }
  }

  lemma JoiningKeepsSorted(q: seq<Waiter>, w: Waiter)
    requires Sorted(q)
    ensures Sorted(Inserted(q, InsertPosition(q, w.party.priority), w))
  {
    InsertedAt(q, InsertPosition(q, w.party.priority), w);
  }

  /** One call other than `promote` keeps the queue sorted, and nobody passes
      anybody who is still waiting. */
  lemma NobodyPasses(l: LeaseState, c: TimedCall, a: PartyId, b: PartyId)
    requires Inv(l) && Sorted(l.queue) && !c.call.DoPromote?
    ensures var after := Apply(l, c).0;
      && Sorted(after.queue)
      && (Ahead(l.queue, a, b) && InQueue(after.queue, a) && InQueue(after.queue, b) ==> Ahead(after.queue, a, b))
  {
    ApplyKeepsLine(l, c);
    var after := Apply(l, c).0;
    if Thinned(l.queue, after.queue) {
      ThinningKeepsOrder(l.queue, after.queue, a, b);
    } else {
      var p: Party, now: Instant :| Joined(l, after, p, now);
      JoiningKeepsOrder(l.queue, InsertPosition(l.queue, p.priority), Waiter(p, now, now), a, b);
      JoiningKeepsSorted(l.queue, Waiter(p, now, now));
    }
  }

  /** A newcomer joins behind everybody of at least its priority: first come,
      first served within a priority. */
  lemma NewcomerJoinsBehind(l: LeaseState, party: Party, queue: bool, now: Instant, i: nat)
    requires Inv(l) && Sorted(l.queue) && i < |l.queue| && l.queue[i].party.priority >= party.priority
    requires !InQueue(l.queue, party.id)
    ensures var after := Acquire(l, party, queue, now).lease;
      InQueue(after.queue, party.id) ==> Ahead(after.queue, l.queue[i].party.id, party.id)
  {
    var after := Acquire(l, party, queue, now).lease;
    var p := InsertPosition(l.queue, party.priority);
    InsertedAt(l.queue, p, Waiter(party, now, now));
    if |after.queue| == |l.queue| + 1 {
      assert i < p;
      assert after.queue[i].party.id == l.queue[i].party.id && after.queue[p].party.id == party.id;
    }
  }

  /** Asking again keeps the place, and everybody else's. */
  lemma AskingAgainKeepsThePlace(l: LeaseState, party: Party, queue: bool, now: Instant)
    requires Inv(l) && InQueue(l.queue, party.id)
    ensures var s := Acquire(l, party, queue, now);
      && |s.lease.queue| == |l.queue|
      && (forall i :: 0 <= i < |l.queue| ==> s.lease.queue[i].party == l.queue[i].party)
      && (s.answer.Ok? ==>
            && s.answer.value.outcome.Queued?
            && s.answer.value.outcome.position < |l.queue|
            && l.queue[s.answer.value.outcome.position].party.id == party.id)
  {
  }

  lemma SettleServesTheHead(l: LeaseState, now: Instant, from: Phase, cause: Cause, a: PartyId, b: PartyId)
    requires Inv(l) && Ahead(l.queue, a, b)
    ensures !HeldBy(Settle(l, now, from, cause).lease, b)
  {
    assert InQueue(l.queue, b);
  }

  lemma TickServesNobodyEarly(l: LeaseState, now: Instant, a: PartyId, b: PartyId)
    requires Inv(l) && Ahead(l.queue, a, b) && InQueue(l.queue, b)
    ensures var after := Tick(l, now).lease; HeldBy(after, b) ==> !InQueue(after.queue, a)
  {
    var s := Swept(l, now);
    TickKeepsInv(l, now);
    SweepingThins(l.queue, now, l.policy.queueTtlMs);
    ThinningKeepsOrder(l.queue, s.queue, a, b);
    match DueCause(s, now)
    case None =>
    case Some(cause) =>
      SettleKeepsLine(s, now, s.phase, cause);
      ThinningKeepsOrder(s.queue, Settle(s, now, s.phase, cause).lease.queue, a, b);
      if InQueue(s.queue, a) && InQueue(s.queue, b) {
        SettleServesTheHead(s, now, s.phase, cause, a, b);
      }
  }

  /** Whoever a call hands the lease to was not behind anybody who still waits. */
  lemma NobodyIsServedEarly(l: LeaseState, c: TimedCall, a: PartyId, b: PartyId)
    requires Inv(l) && Ahead(l.queue, a, b) && !c.call.DoPromote?
    ensures var after := Apply(l, c).0; HeldBy(after, b) ==> !InQueue(after.queue, a)
  {
    assert InQueue(l.queue, b);
    match c.call
    case DoTick => TickServesNobodyEarly(l, c.now, a, b);
    case DoRelease(id, leaseId) => SettleServesTheHead(l, c.now, l.phase, Released, a, b);
    case _ =>
  }

  predicate NoPromotes(calls: seq<TimedCall>) {
    forall i :: 0 <= i < |calls| ==> !calls[i].call.DoPromote?
  }

  /** `id` waits in this state and after every call of the run. */
  predicate KeepsWaiting(l: LeaseState, calls: seq<TimedCall>, id: PartyId)
    decreases |calls|
  {
    InQueue(l.queue, id) && (calls != [] ==> KeepsWaiting(Apply(l, calls[0]).0, calls[1..], id))
  }

  /** Over every run without `promote`: the queue stays sorted by priority, and
      of two parties that both keep waiting, the one ahead stays ahead. */
  lemma {:induction false} FirstComeFirstServed(l: LeaseState, calls: seq<TimedCall>, a: PartyId, b: PartyId)
    requires Inv(l) && Sorted(l.queue) && NoPromotes(calls)
    ensures Sorted(Run(l, calls).queue)
    ensures Ahead(l.queue, a, b) && KeepsWaiting(l, calls, a) && KeepsWaiting(l, calls, b) ==>
      Ahead(Run(l, calls).queue, a, b)
    decreases |calls|
  {
    if calls != [] {
      NobodyPasses(l, calls[0], a, b);
      ApplyKeepsInv(l, calls[0]);
      FirstComeFirstServed(Apply(l, calls[0]).0, calls[1..], a, b);
    }
  }

  // ---------------------------------------------------------------- by asking

  /** Within a priority the line is in the order in which its parties first
      asked, none of them later than `now`. */
  predicate ByAsking(q: seq<Waiter>, now: Instant) {
    && (forall i :: 0 <= i < |q| ==> q[i].firstAskedAt <= now)
    && (forall i, j :: 0 <= i < j < |q| && q[i].party.priority == q[j].party.priority ==>
          q[i].firstAskedAt <= q[j].firstAskedAt)
  }

  /** The calls come at instants that never go back, from `now` on. */
  predicate Onward(calls: seq<TimedCall>, now: Instant) {
    && (forall i :: 0 <= i < |calls| ==> now <= calls[i].now)
    && (forall i, j :: 0 <= i < j < |calls| ==> calls[i].now <= calls[j].now)
  }

  lemma WithoutStaysByAsking(q: seq<Waiter>, i: nat, now: Instant)
    requires i < |q| && ByAsking(q, now)
    ensures ByAsking(Without(q, i), now)
  {
    var r := Without(q, i);
    assert forall j :: 0 <= j < |r| ==> r[j] == q[if j < i then j else j + 1];
  }

  lemma JoiningStaysByAsking(q: seq<Waiter>, p: Party, now: Instant)
    requires Sorted(q) && ByAsking(q, now)
    ensures ByAsking(Inserted(q, InsertPosition(q, p.priority), Waiter(p, now, now)), now)
  {
    var at := InsertPosition(q, p.priority);
    InsertedAt(q, at, Waiter(p, now, now));
    assert forall j :: at <= j < |q| ==> q[j].party.priority < p.priority;
    hide Sorted, Inserted;
    var r := Inserted(q, at, Waiter(p, now, now));
    forall i, j | 0 <= i < j < |r| && r[i].party.priority == r[j].party.priority
      ensures r[i].firstAskedAt <= r[j].firstAskedAt
    {
      if j != at && i != at {
        assert r[i] == q[if i < at then i else i - 1] && r[j] == q[if j < at then j else j - 1];
      }
    }
  }

  lemma {:induction false} SweepingStaysByAsking(q: seq<Waiter>, t: Instant, ttl: Millis, now: Instant)
    requires ByAsking(q, now)
    ensures ByAsking(Waiters(q, t, ttl, false), now)
  {
    if q != [] {
      SweepingStaysByAsking(q[1..], t, ttl, now);
      var rest := Waiters(q[1..], t, ttl, false);
      forall j | 0 <= j < |rest| && rest[j].party.priority == q[0].party.priority
        ensures q[0].firstAskedAt <= rest[j].firstAskedAt
      {
        assert rest[j] in q[1..];
      }
    }
  }

  lemma SettleStaysByAsking(l: LeaseState, now: Instant, from: Phase, cause: Cause)
    requires ByAsking(l.queue, now)
    ensures ByAsking(Settle(l, now, from, cause).lease.queue, now)
  {
    if l.queue != [] {
      WithoutStaysByAsking(l.queue, 0, now);
      assert Without(l.queue, 0) == l.queue[1..];
    }
  }

  lemma AcquireStaysByAsking(l: LeaseState, party: Party, queue: bool, now: Instant)
    requires Inv(l) && Sorted(l.queue) && ByAsking(l.queue, now)
    ensures ByAsking(Acquire(l, party, queue, now).lease.queue, now)
  {
    AcquiringJoins(l, party, queue, now);
    JoiningStaysByAsking(l.queue, party, now);
    hide Acquire, Inserted, Sorted, Inv;
  }

  lemma AcquiringJoins(l: LeaseState, party: Party, queue: bool, now: Instant)
    ensures var after := Acquire(l, party, queue, now).lease.queue;
      || after == Inserted(l.queue, InsertPosition(l.queue, party.priority), Waiter(party, now, now))
      || SameAskers(l.queue, after)
  {
    hide Inserted;
  }

  predicate SameAskers(q: seq<Waiter>, r: seq<Waiter>) {
    && |q| == |r|
    && forall i :: 0 <= i < |q| ==> r[i].party == q[i].party && r[i].firstAskedAt == q[i].firstAskedAt
  }

  lemma TickStaysByAsking(l: LeaseState, now: Instant)
    requires ByAsking(l.queue, now)
    ensures ByAsking(Tick(l, now).lease.queue, now)
  {
    SweepingStaysByAsking(l.queue, now, l.policy.queueTtlMs, now);
    var s := Swept(l, now);
    match DueCause(s, now)
    case None =>
    case Some(cause) => SettleStaysByAsking(s, now, s.phase, cause);
  }

  lemma ApplyStaysByAsking(l: LeaseState, c: TimedCall)
    requires Inv(l) && Sorted(l.queue) && ByAsking(l.queue, c.now) && !c.call.DoPromote?
    ensures ByAsking(Apply(l, c).0.queue, c.now)
  {
    hide ByAsking;
    match c.call
    case DoAcquire(party, queue) => AcquireStaysByAsking(l, party, queue, c.now);
    case DoRelease(id, leaseId) => SettleStaysByAsking(l, c.now, l.phase, Released);
    case DoCancelWait(id) =>
      match PositionOf(l.queue, id) {
        case Some(i) => WithoutStaysByAsking(l.queue, i, c.now);
        case None =>
      }
    case DoTick => TickStaysByAsking(l, c.now);
    case DoForceRelease => NobodyByAsking(c.now);
    case _ =>
  }

  lemma NobodyByAsking(now: Instant)
    ensures ByAsking([], now)
  {
  }

  lemma {:induction false} RunStaysByAsking(l: LeaseState, calls: seq<TimedCall>, now: Instant)
    requires Inv(l) && Sorted(l.queue) && ByAsking(l.queue, now) && NoPromotes(calls) && Onward(calls, now)
    ensures ByAsking(Run(l, calls).queue, if calls == [] then now else calls[|calls| - 1].now)
    decreases |calls|
  {
    if calls != [] {
      var next := Apply(l, calls[0]).0;
      ApplyStaysByAsking(l, calls[0]);
      NobodyPasses(l, calls[0], "", "");
      ApplyKeepsInv(l, calls[0]);
      RunStaysByAsking(next, calls[1..], calls[0].now);
    }
  }

  /** First come, first served, from the first call on a fresh lease: over every
      run without `promote` and without the clock going back, whoever stands
      ahead of another of the same priority first asked no later, whenever the
      two of them joined and however often they asked again. */
  lemma LineIsByAsking(policy: Policy, calls: seq<TimedCall>, i: nat, j: nat)
    requires NoPromotes(calls) && Onward(calls, 0)
    requires i < j < |Run(Fresh(policy), calls).queue|
    ensures var q := Run(Fresh(policy), calls).queue;
      && q[i].party.priority >= q[j].party.priority
      && (q[i].party.priority == q[j].party.priority ==> q[i].firstAskedAt <= q[j].firstAskedAt)
  {
    RunStaysByAsking(Fresh(policy), calls, 0);
    FirstComeFirstServed(Fresh(policy), calls, "", "");
  }
}
