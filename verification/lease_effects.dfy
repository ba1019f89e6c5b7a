/** What each call on a lease achieves, told by the lease's own fields before and
    after it (crates/agent-lease/src/lease.rs). */
module LeaseEffects {
  import opened Clock
  import opened Wrappers
  import opened Parties
  import opened Transitions
  import opened LeaseMachine
  import opened LeaseInvariant

  /** A limit counted from `from` has run out at `at`; a limit of zero always has. */
  predicate RunOut(from: Instant, limit: Millis, at: Instant) {
    limit == 0 || from + limit <= at
  }

  /** A deadline `d` after `from` has come; at the very top of the clock every one has. */
  predicate Past(from: Instant, d: Millis, at: Instant) {
    from + d <= at || at == U64_MAX
  }

  // ---------------------------------------------------------------- handing on

  /** `party` was granted the lease at `now` under the next lease id, and the
      transition says so and owes a release. */
  predicate NewGrant(l: LeaseState, after: LeaseState, t: Transition, party: Party, now: Instant) {
    && after.holder == Some(Holder(l.nextLeaseId, party, now, now, now, true, None))
    && after.nextLeaseId == l.nextLeaseId + 1
    && after.phase == HandingOver && after.pending == None
    && after.contendedSince == (if after.queue == [] then None else Some(now))
    && t.at == now && t.from == l.phase && t.to == HandingOver
    && t.outcome == Granted(l.nextLeaseId, party) && t.release == Required
  }

  /** Nobody holds the lease, nobody waits, and the transition owes a release. */
  predicate Vacated(l: LeaseState, after: LeaseState, t: Transition, now: Instant) {
    && after.holder == None && after.pending == None && after.queue == [] && after.phase == Unheld
    && after.contendedSince == None
    && after.nextLeaseId == l.nextLeaseId
    && t.at == now && t.from == l.phase && t.to == Unheld
    && t.outcome == NobodyHolds && t.release == Required
  }

  /** The party a preemption was running for gets the lease, or else the first in
      `line`, or else nobody; the rest of the line stays as it was. */
  predicate PassedOn(l: LeaseState, after: LeaseState, t: Transition, line: seq<Waiter>, now: Instant) {
    if l.pending.Some? then NewGrant(l, after, t, l.pending.value.waiter.party, now) && after.queue == line
    else if line != [] then NewGrant(l, after, t, line[0].party, now) && after.queue == line[1..]
    else Vacated(l, after, t, now)
  }

  /** The transition tells of this holder leaving, and how long it held. */
  predicate Tells(t: Transition, h: Holder, cause: Cause, now: Instant) {
    t.departed == Some(Departure(h.party, h.leaseId, cause, if now < h.grantedAt then 0 else now - h.grantedAt))
  }

  /** What no call but a release of the backoff touches when a lease changes hands. */
  predicate SameRules(l: LeaseState, after: LeaseState) {
    after.policy == l.policy && after.forceReleaseUntil == l.forceReleaseUntil
  }

  lemma SettlePassesOn(l: LeaseState, now: Instant, cause: Cause)
    requires Inv(l) && l.holder.Some?
    ensures var s := Settle(l, now, l.phase, cause);
      && PassedOn(l, s.lease, s.transition, l.queue, now)
      && Tells(s.transition, l.holder.value, cause, now)
      && SameRules(l, s.lease) && s.transition.expiredWaiters == []
      && s.transition.queueDepth == |s.lease.queue|
  {
  }

  /** Letting go takes the holder's own id and the id of its grant, and then hands
      the lease on; anything else changes nothing. */
  lemma ReleaseHandsOn(l: LeaseState, id: PartyId, leaseId: nat, now: Instant)
    requires Inv(l)
    ensures var s, mine := Release(l, id, leaseId, now),
        l.holder.Some? && l.holder.value.party.id == id && l.holder.value.leaseId == leaseId;
      && (mine ==>
            && PassedOn(l, s.lease, s.transition, l.queue, now)
            && Tells(s.transition, l.holder.value, Released, now)
            && SameRules(l, s.lease))
      && (!mine ==>
            && s.lease == l
            && s.transition == Transition(now, l.phase, l.phase, Unchanged, NotRequired, None, [], |l.queue|))
  {
    if l.holder.Some? {
      SettlePassesOn(l, now, Released);
    }
  }

  // ---------------------------------------------------------------- elapsed time

  /** Neither of the holder's two clocks moved for the time to live. */
  predicate Expires(h: Holder, p: Policy, now: Instant) {
    RunOut(h.lastIntentAt, p.leaseTtlMs, now) && RunOut(h.lastRenewAt, p.leaseTtlMs, now)
  }

  /** The holder sent no input for as long as its kind may. */
  predicate Silent(h: Holder, p: Policy, now: Instant) {
    || (!h.party.kind.Agent? && RunOut(h.lastIntentAt, p.personIdleMs, now))
    || (h.party.kind.Agent? && RunOut(h.lastIntentAt, p.idleRevokeMs, now))
  }

  /** This waiter has not outlived the queue. */
  predicate Live(w: Waiter, p: Policy, now: Instant) {
    !RunOut(w.queuedAt, p.queueTtlMs, now)
  }

  predicate SomebodyLive(l: LeaseState, now: Instant) {
    exists i :: 0 <= i < |l.queue| && Live(l.queue[i], l.policy, now)
  }

  /** An agent that somebody waits behind was quiet, since its last input and since
      somebody first stood there, and held the lease, for as long as the policy says. */
  predicate Outstayed(l: LeaseState, h: Holder, now: Instant) {
    && h.party.kind.Agent? && SomebodyLive(l, now) && l.contendedSince.Some?
    && Past(h.lastIntentAt, l.policy.contendedIdleMs, now)
    && Past(l.contendedSince.value, l.policy.contendedIdleMs, now)
    && Past(h.grantedAt, l.policy.minHoldMs, now)
  }

  /** The holder's time is up at `now`, in the phase the lease is in. */
  predicate TimeIsUp(l: LeaseState, now: Instant) {
    && l.holder.Some?
    && var h := l.holder.value;
       || (l.phase.Held? && (Expires(h, l.policy, now) || Silent(h, l.policy, now) || Outstayed(l, h, now)))
       || (l.phase.PreemptPending? && l.pending.Some? && l.pending.value.deadline <= now)
       || (l.phase.HeldGrace? && h.graceUntil.Some? && h.graceUntil.value <= now)
  }

  /** Why, the first of these that holds. */
  predicate Because(l: LeaseState, h: Holder, now: Instant, cause: Cause) {
    match cause
    case Preempted => l.phase.PreemptPending?
    case DisconnectGraceElapsed => l.phase.HeldGrace?
    case Expired => l.phase.Held? && Expires(h, l.policy, now)
    case IdleRevoked => l.phase.Held? && Silent(h, l.policy, now) && !Expires(h, l.policy, now)
    case YieldedToWaiter => l.phase.Held? && !Expires(h, l.policy, now) && !Silent(h, l.policy, now)
    case Released => false
    case ForceReleasedBy => false
  }

  predicate StandsBefore(q: seq<Waiter>, w: Waiter, v: Waiter) {
    exists i, j :: 0 <= i < j < |q| && q[i] == w && q[j] == v
  }

  /** Any two of `line` stand as they do in `q`. */
  predicate AsTheyStood(q: seq<Waiter>, line: seq<Waiter>) {
    forall i, j :: 0 <= i < j < |line| ==> StandsBefore(q, line[i], line[j])
  }

  /** `line` is the waiters of `q` that have not outlived the queue (`live`), or
      those that have, as they stood. */
  ghost predicate Sifted(q: seq<Waiter>, line: seq<Waiter>, p: Policy, now: Instant, live: bool) {
    && (forall w :: w in line <==> w in q && Live(w, p, now) == live)
    && AsTheyStood(q, line)
  }

  lemma {:induction false} SweepKeepsPlaces(q: seq<Waiter>, now: Instant, ttl: Millis, expired: bool)
    ensures AsTheyStood(q, Waiters(q, now, ttl, expired))
  {
    if q != [] {
      SweepKeepsPlaces(q[1..], now, ttl, expired);
      var rest, r := Waiters(q[1..], now, ttl, expired), Waiters(q, now, ttl, expired);
      forall i, j | 0 <= i < j < |rest|
        ensures StandsBefore(q, rest[i], rest[j])
      {
        assert StandsBefore(q[1..], rest[i], rest[j]);
        var k, m :| 0 <= k < m < |q[1..]| && q[1..][k] == rest[i] && q[1..][m] == rest[j];
        assert q[k + 1] == rest[i] && q[m + 1] == rest[j];
      }
      forall j | 0 <= j < |rest|
        ensures StandsBefore(q, q[0], rest[j])
      {
        assert rest[j] in q[1..];
        var m :| 0 <= m < |q[1..]| && q[1..][m] == rest[j];
        assert q[m + 1] == rest[j];
      }
    }
  }

  lemma SweptIs(l: LeaseState, now: Instant)
    requires Inv(l)
    ensures var s := Swept(l, now);
      && Sifted(l.queue, s.queue, l.policy, now, true)
      && s == l.(queue := s.queue, forceReleaseUntil := s.forceReleaseUntil, contendedSince := s.contendedSince)
      && (s.queue != [] ==> s.contendedSince == l.contendedSince)
      && (s.forceReleaseUntil == if Refusing(l, now) then l.forceReleaseUntil else None)
    ensures Swept(l, now).queue != [] <==> SomebodyLive(l, now)
  {
    SweepKeepsPlaces(l.queue, now, l.policy.queueTtlMs, false);
    var r := Waiters(l.queue, now, l.policy.queueTtlMs, false);
    if r != [] {
      assert r[0] in l.queue;
    }
  }

  /** Everybody is still refused after the panic chord. */
  predicate Refusing(l: LeaseState, now: Instant) {
    l.forceReleaseUntil.Some? && now < l.forceReleaseUntil.value
  }

  lemma DueIs(l: LeaseState, s: LeaseState, now: Instant)
    requires Inv(l) && Inv(s)
    requires s == l.(queue := s.queue, forceReleaseUntil := s.forceReleaseUntil, contendedSince := s.contendedSince)
    requires s.queue != [] ==> s.contendedSince == l.contendedSince
    requires s.queue != [] <==> SomebodyLive(l, now)
    ensures DueCause(s, now).Some? <==> TimeIsUp(l, now)
    ensures DueCause(s, now).Some? ==> Because(l, l.holder.value, now, DueCause(s, now).value)
  {
    hide SomebodyLive;
  }

  /** A tick takes the lease if and only if the holder's time is up, and then says
      why and hands it on to whoever is next of those who still wait; otherwise it
      only ends the backoff and drops the waiters that have outlived the queue.
      Either way it names every waiter it dropped. */
  lemma TickTakesExactly(l: LeaseState, now: Instant)
    requires Inv(l)
    ensures var s, line := Tick(l, now), Swept(l, now).queue;
      && Sifted(l.queue, line, l.policy, now, true)
      && (TimeIsUp(l, now) ==>
            && PassedOn(l, s.lease, s.transition, line, now) && s.lease.policy == l.policy
            && s.lease.forceReleaseUntil == (if Refusing(l, now) then l.forceReleaseUntil else None)
            && (exists cause :: Because(l, l.holder.value, now, cause)
                  && Tells(s.transition, l.holder.value, cause, now)))
      && (!TimeIsUp(l, now) ==>
            && s.lease == l.(queue := line,
                             contendedSince := if line == [] then None else l.contendedSince,
                             forceReleaseUntil := if Refusing(l, now) then l.forceReleaseUntil else None)
            && s.transition.outcome == Unchanged && s.transition.release == NotRequired
            && s.transition.departed == None && s.transition.to == s.transition.from == l.phase)
      && Sifted(l.queue, s.transition.expiredWaiters, l.policy, now, false)
      && s.transition.queueDepth == |s.lease.queue|
  {
    TickKeepsInv(l, now);
    SweptIs(l, now);
    var swept := Swept(l, now);
    DueIs(l, swept, now);
    if DueCause(swept, now).Some? {
      SettlePassesOn(swept, now, DueCause(swept, now).value);
    }
    SweepKeepsPlaces(l.queue, now, l.policy.queueTtlMs, true);
    hide Inv, Swept, AsTheyStood, Because, TimeIsUp, Settle, DueCause, SomebodyLive;
  }

  // ---------------------------------------------------------------- asking

  predicate HasPlace(l: LeaseState, id: PartyId) {
    HeldBy(l, id) || PendingFor(l, id) || InQueue(l.queue, id)
  }

  /** The party outranks a holder nobody is taking over from, and the holder has had
      its minimum hold or is an agent that a person asks of. */
  predicate Outranks(l: LeaseState, party: Party, now: Instant) {
    && l.holder.Some? && (l.phase.Held? || l.phase.HeldGrace?)
    && party.priority > l.holder.value.party.priority
    && (|| (!party.kind.Agent? && l.holder.value.party.kind.Agent?)
        || RunOut(l.holder.value.grantedAt, l.policy.minHoldMs, now))
  }

  /** Neither in nor entitled to take over: it can only wait. */
  predicate MustWait(l: LeaseState, party: Party, now: Instant) {
    !HasPlace(l, party.id) && l.holder.Some? && !Outranks(l, party, now)
  }

  /** `party` joined the line, behind everybody of at least its priority who stands
      before the first of a lower one. */
  predicate JoinedAt(l: LeaseState, after: LeaseState, party: Party, now: Instant, p: nat) {
    && p <= |l.queue|
    && after.queue == l.queue[..p] + [Waiter(party, now, now)] + l.queue[p..]
    && (forall j :: 0 <= j < p ==> l.queue[j].party.priority >= party.priority)
    && (p < |l.queue| ==> l.queue[p].party.priority < party.priority)
  }

  /** Asking again from the same place: the holder's renewal is noted, the
      requester's deadline stands, the waiter's place stands and its age starts over. */
  predicate AskedAgain(l: LeaseState, after: LeaseState, t: Transition, id: PartyId, now: Instant) {
    && t.from == t.to == l.phase && t.release == NotRequired && t.departed == None
    && (if HeldBy(l, id) then
          && after == l.(holder := Some(l.holder.value.(lastRenewAt := now)), forceReleaseUntil := None)
          && t.outcome == Renewed(l.holder.value.leaseId)
        else if PendingFor(l, id) then
          && after == l.(forceReleaseUntil := None)
          && t.outcome == PreemptionStarted(l.pending.value.deadline, l.pending.value.waiter.party)
        else
          exists i :: 0 <= i < |l.queue| && l.queue[i].party.id == id
            && after == l.(queue := l.queue[i := l.queue[i].(queuedAt := now)], forceReleaseUntil := None)
            && t.outcome == Queued(i))
  }

  /** The preemption started for `party`, with its deadline. */
  predicate StartedPreempting(l: LeaseState, after: LeaseState, t: Transition, party: Party, now: Instant) {
    && after.phase == PreemptPending && after.pending.Some?
    && var deadline := after.pending.value.deadline;
       && after.pending.value.waiter == Waiter(party, now, now)
       && deadline == (if now + l.policy.agentPreemptGraceMs > U64_MAX then U64_MAX
                       else now + l.policy.agentPreemptGraceMs)
       && after == l.(phase := PreemptPending, pending := after.pending, forceReleaseUntil := None)
       && t.outcome == PreemptionStarted(deadline, party) && t.release == Required
       && t.departed == None && t.from == l.phase && t.to == PreemptPending
  }

  /** Why a party that can only wait was not let in line. */
  predicate Declines(l: LeaseState, party: Party, queue: bool, now: Instant, error: LeaseError)
    requires l.holder.Some?
  {
    var h := l.holder.value;
    if queue then error == QueueFull(|l.queue|)
    else if party.priority > h.party.priority && (l.phase.Held? || l.phase.HeldGrace?) then
      && error.MinHoldNotElapsed?
      && error.retryAfterMs + (if now < h.grantedAt then 0 else now - h.grantedAt) == l.policy.minHoldMs
    else error == HeldElsewhere(h.party.kind)
  }

  /** What an ask at `now` did. Exactly one of the cases applies. */
  predicate Asked(l: LeaseState, party: Party, queue: bool, now: Instant, s: AcquireStep) {
    var after := s.lease;
    && (Refusing(l, now) ==>
          after == l && s.answer == Err(ForceReleased(l.forceReleaseUntil.value - now)))
    && (!Refusing(l, now) ==>
          && after.policy == l.policy && after.forceReleaseUntil == None
          && (HasPlace(l, party.id) ==>
                s.answer.Ok? && AskedAgain(l, after, s.answer.value, party.id, now))
          && (l.holder.None? && !HasPlace(l, party.id) ==>
                && s.answer.Ok? && NewGrant(l, after, s.answer.value, party, now)
                && after.queue == l.queue && s.answer.value.departed == None)
          && (!HasPlace(l, party.id) && Outranks(l, party, now) && l.holder.value.connected ==>
                s.answer.Ok? && StartedPreempting(l, after, s.answer.value, party, now))
          && (!HasPlace(l, party.id) && Outranks(l, party, now) && !l.holder.value.connected ==>
                && s.answer.Ok? && NewGrant(l, after, s.answer.value, party, now)
                && after.queue == l.queue && Tells(s.answer.value, l.holder.value, Preempted, now))
          && (MustWait(l, party, now) && queue && |l.queue| < l.policy.maxQueueDepth ==>
                && s.answer.Ok? && s.answer.value.outcome.Queued?
                && JoinedAt(l, after, party, now, s.answer.value.outcome.position)
                && s.answer.value.release == NotRequired && s.answer.value.departed == None
                && after == l.(queue := after.queue, forceReleaseUntil := None, contendedSince :=
                                 if l.contendedSince.None? then Some(now) else l.contendedSince))
          && (MustWait(l, party, now) && !(queue && |l.queue| < l.policy.maxQueueDepth) ==>
                && after == l.(forceReleaseUntil := None)
                && s.answer.Err? && Declines(l, party, queue, now, s.answer.error)))
  }

  lemma NoPlaceInQueue(q: seq<Waiter>, id: PartyId)
    ensures PositionOf(q, id).None? <==> !InQueue(q, id)
  {
  }

  /** An ask is refused during the backoff; it changes nothing but a clock for
      whoever already has a place; a free lease is granted on the spot; whoever
      outranks the holder takes over, at once from one that is disconnected and
      with a grace from one that is not; everybody else joins the line if it may
      and there is room, and is refused otherwise. */
  lemma AskedExactly(l: LeaseState, party: Party, queue: bool, now: Instant)
    requires Inv(l)
    ensures Asked(l, party, queue, now, Acquire(l, party, queue, now))
  {
    NoPlaceInQueue(l.queue, party.id);
    var s := Acquire(l, party, queue, now);
    if Refusing(l, now) {
    } else if HasPlace(l, party.id) {
      AskingAgain(l, party, queue, now);
    } else if MustWait(l, party, now) {
      StrangerWaits(l, party, queue, now);
    } else {
      StrangerTakes(l, party, queue, now);
    }
  }

  lemma AskingAgain(l: LeaseState, party: Party, queue: bool, now: Instant)
    requires Inv(l) && !Refusing(l, now) && HasPlace(l, party.id)
    ensures var s := Acquire(l, party, queue, now);
      s.lease.policy == l.policy && s.lease.forceReleaseUntil == None
      && s.answer.Ok? && AskedAgain(l, s.lease, s.answer.value, party.id, now)
  {
    NoPlaceInQueue(l.queue, party.id);
  }

  lemma StrangerTakes(l: LeaseState, party: Party, queue: bool, now: Instant)
    requires Inv(l) && !Refusing(l, now) && !HasPlace(l, party.id) && !MustWait(l, party, now)
    ensures Asked(l, party, queue, now, Acquire(l, party, queue, now))
  {
    NoPlaceInQueue(l.queue, party.id);
    hide QueueOrRefuse, JoinedAt, InQueue;
  }

  lemma StrangerWaits(l: LeaseState, party: Party, queue: bool, now: Instant)
    requires Inv(l) && !Refusing(l, now) && MustWait(l, party, now)
    ensures Asked(l, party, queue, now, Acquire(l, party, queue, now))
  {
    NoPlaceInQueue(l.queue, party.id);
    hide Grant, NewGrant, StartedPreempting, InQueue;
  }

  // ---------------------------------------------------------------- leaving the line

  /** Giving up calls off the preemption that ran for this party and leaves the
      holder as it was, or takes the party out of line and leaves everybody else
      where they stood; a party that waits for nothing changes nothing. */
  lemma GivesUpExactly(l: LeaseState, id: PartyId, now: Instant)
    requires Inv(l)
    ensures var s := CancelWait(l, id, now);
      && s.transition.departed == None && s.transition.expiredWaiters == []
      && s.transition.from == l.phase && s.transition.to == s.lease.phase
      && (PendingFor(l, id) ==>
            && s.lease == l.(pending := None, phase := s.lease.phase)
            && s.lease.phase == (if l.holder.Some? && l.holder.value.connected then Held else HeldGrace)
            && s.transition.outcome == PreemptionAbandoned && s.transition.release == Required)
      && (InQueue(l.queue, id) ==>
            && (exists i :: 0 <= i < |l.queue| && l.queue[i].party.id == id
                  && s.lease.queue == l.queue[..i] + l.queue[i + 1..])
            && s.lease == l.(queue := s.lease.queue,
                             contendedSince := if s.lease.queue == [] then None else l.contendedSince)
            && s.transition.outcome == WaitCancelled && s.transition.release == NotRequired)
      && (!PendingFor(l, id) && !InQueue(l.queue, id) ==>
            s.lease == l && s.transition.outcome == Unchanged && s.transition.release == NotRequired)
  {
    NoPlaceInQueue(l.queue, id);
  }

  /** Promoted, a waiter is next: the holder's release then hands it the lease,
      with the rest of the line as it was. */
  lemma PromotedIsNext(l: LeaseState, id: PartyId, now: Instant)
    requires Inv(l) && InQueue(l.queue, id) && l.pending.None?
    ensures l.holder.Some?
    ensures var s := Release(Promote(l, id), l.holder.value.party.id, l.holder.value.leaseId, now);
      exists i :: 0 <= i < |l.queue| && l.queue[i].party.id == id
        && NewGrant(l, s.lease, s.transition, l.queue[i].party, now)
        && s.lease.queue == l.queue[..i] + l.queue[i + 1..]
  {
    NoPlaceInQueue(l.queue, id);
    PromoteKeepsInv(l, id);
    var p := Promote(l, id);
    ReleaseHandsOn(p, l.holder.value.party.id, l.holder.value.leaseId, now);
    var i := PositionOf(l.queue, id).value;
    assert p.queue[1..] == l.queue[..i] + l.queue[i + 1..];
  }

  // ---------------------------------------------------------------- the panic chord

  /** Everybody is out, the holder and whoever waited are named, and a release is owed. */
  predicate Dropped(l: LeaseState, after: LeaseState, t: Transition, now: Instant) {
    && Vacated(l, after, t, now) && after.policy == l.policy
    && (l.holder.Some? ==> Tells(t, l.holder.value, ForceReleasedBy, now))
    && (l.holder.None? ==> t.departed == None)
    && t.expiredWaiters == (if l.pending.Some? then [l.pending.value.waiter] + l.queue else l.queue)
  }

  /** After the panic chord every ask is refused, with the time left, until the
      backoff has passed, whether or not the lease is ticked in between, and from
      then on the first ask is granted. */
  lemma PanicHolds(l: LeaseState, now: Instant, party: Party, queue: bool, at: Instant, ticked: bool)
    requires Inv(l)
    ensures Dropped(l, ForceRelease(l, now).lease, ForceRelease(l, now).transition, now)
    ensures var free := ForceRelease(l, now).lease;
      var s := Acquire(if ticked then Tick(free, at).lease else free, party, queue, at);
      var left := now + l.policy.forceReleaseBackoffMs - at;
      && (!Past(now, l.policy.forceReleaseBackoffMs, at) ==>
            s.answer == Err(ForceReleased(
              if now + l.policy.forceReleaseBackoffMs > U64_MAX then U64_MAX - at else left)))
      && (Past(now, l.policy.forceReleaseBackoffMs, at) ==>
            HeldBy(s.lease, party.id) && s.lease.phase == HandingOver)
  {
    ForceReleaseKeepsInv(l, now);
    var free := ForceRelease(l, now).lease;
    TickTakesExactly(free, at);
    TickKeepsInv(free, at);
    assert !TimeIsUp(free, at);
    var asked := if ticked then Tick(free, at).lease else free;
    AskedExactly(asked, party, queue, at);
    hide Tick, Acquire, Inv;
  }

  // ---------------------------------------------------------------- confirming and connections

  /** Confirmed, the new holder may dispatch and its clocks start now; a release
      confirmed at any other time changes nothing. */
  lemma ConfirmLetsIn(l: LeaseState, now: Instant)
    requires Inv(l)
    ensures var s := ConfirmRelease(l, now);
      && (!l.phase.HandingOver? ==> s.lease == l && s.transition.outcome == Unchanged)
      && (l.phase.HandingOver? ==>
            && l.holder.Some?
            && var h := l.holder.value;
               && s.lease == l.(phase := Held, holder := Some(h.(lastIntentAt := now, lastRenewAt := now)))
               && (forall id :: Fence(s.lease, id) == Allowed <==> id == h.party.id)
               && s.transition.outcome == HandoverComplete(h.leaseId)
               && s.transition.from == HandingOver && s.transition.to == Held)
      && s.transition.release == NotRequired && s.transition.departed == None
  {
  }

  /** A holder whose connection is lost stops dispatching, keeps the lease for the
      grace and no longer, and has it back as it was if the connection returns
      first. */
  lemma GraceIsForTheHolder(l: LeaseState, now: Instant, back: Instant, at: Instant)
    requires Inv(l) && l.phase.Held? && l.holder.value.connected
    ensures var id, lost := l.holder.value.party.id, SetConnected(l, l.holder.value.party.id, false, now).lease;
      && Fence(lost, id) == ReleaseOnly
      && SetConnected(lost, id, true, back).lease == l
      && SetConnected(l, id, false, now).transition.release == Required
      && SetConnected(lost, id, true, back).transition.release == Required
      && (TimeIsUp(lost, at) <==> Past(now, l.policy.disconnectGraceMs, at))
  {
  }

  /** Nobody else's connection matters, nor the same news twice; and in the other
      phases a lost connection moves nothing but the grace. */
  lemma OnlyTheHoldersConnection(l: LeaseState, id: PartyId, connected: bool, now: Instant)
    requires Inv(l)
    ensures var s, h := SetConnected(l, id, connected, now).lease, l.holder;
      && (h.None? || h.value.party.id != id || h.value.connected == connected ==> s == l)
      && (s.phase != l.phase ==> l.phase == (if connected then HeldGrace else Held))
      && (s != l ==> h.Some? && s.holder == Some(h.value.(
            connected := connected,
            graceUntil := if connected then None
                          else if now + l.policy.disconnectGraceMs > U64_MAX then Some(U64_MAX)
                          else Some(now + l.policy.disconnectGraceMs))))
      && s == l.(holder := s.holder, phase := s.phase)
  {
  }

  // ---------------------------------------------------------------- the two clocks

  /** A renewal puts off the time to live and nothing else; input puts off the
      silence as well. Neither is anybody's but the holder's. */
  lemma RenewalIsNotInput(l: LeaseState, id: PartyId, now: Instant, at: Instant)
    requires Inv(l) && l.phase.Held?
    ensures var h, p, mine := l.holder.value, l.policy, l.holder.value.party.id == id;
      && (TimeIsUp(Renew(l, id, now), at) <==>
            || Silent(h, p, at) || Outstayed(l, h, at)
            || (RunOut(h.lastIntentAt, p.leaseTtlMs, at) &&
                RunOut(if mine then now else h.lastRenewAt, p.leaseTtlMs, at)))
      && (TimeIsUp(NoteIntent(l, id, now), at) <==>
            var moved := if mine then h.(lastIntentAt := now) else h;
            Silent(moved, p, at) || Outstayed(l, moved, at) || Expires(moved, p, at))
      && Renew(l, id, now) == l.(holder := Renew(l, id, now).holder)
      && NoteIntent(l, id, now) == l.(holder := NoteIntent(l, id, now).holder)
  {
    hide SomebodyLive;
    assert SomebodyLive(Renew(l, id, now), at) == SomebodyLive(l, at) == SomebodyLive(NoteIntent(l, id, now), at) by {
      SameLine(l, Renew(l, id, now), at);
      SameLine(l, NoteIntent(l, id, now), at);
    }
  }

  lemma SameLine(l: LeaseState, after: LeaseState, at: Instant)
    requires after.queue == l.queue && after.policy == l.policy
    ensures SomebodyLive(after, at) <==> SomebodyLive(l, at)
  {
  }

  // ---------------------------------------------------------------- status

  /** A status shows the holder with how long it has held and how long it has been
      silent, the line in order with how long each has waited since it first asked,
      who is taking over, and how long asks are refused. */
  lemma StatusShows(l: LeaseState, now: Instant)
    ensures var s := StatusOf(l, now);
      && s.phase == l.phase
      && (s.holder.Some? <==> l.holder.Some?)
      && (l.holder.Some? ==>
            var h, shown := l.holder.value, s.holder.value;
            && shown.id == h.party.id && shown.kind == h.party.kind && shown.since == h.grantedAt
            && (h.grantedAt <= now ==> h.grantedAt + shown.heldForMs == now)
            && (h.grantedAt > now ==> shown.heldForMs == 0)
            && (h.lastIntentAt <= now ==> h.lastIntentAt + shown.idleForMs == now)
            && (h.lastIntentAt > now ==> shown.idleForMs == 0))
      && |s.queue| == |l.queue|
      && (forall i :: 0 <= i < |l.queue| ==> Shown(l.queue[i], s.queue[i], now))
      && (s.preempting.Some? <==> l.pending.Some?)
      && (l.pending.Some? ==> Shown(l.pending.value.waiter, s.preempting.value, now))
      && (s.refusedForMs.Some? <==> Refusing(l, now))
      && (Refusing(l, now) ==> now + s.refusedForMs.value == l.forceReleaseUntil.value)
  {
  }

  predicate Shown(w: Waiter, shown: WaiterStatus, now: Instant) {
    && shown.id == w.party.id && shown.kind == w.party.kind
    && (w.firstAskedAt <= now ==> w.firstAskedAt + shown.waitingMs == now)
    && (w.firstAskedAt > now ==> shown.waitingMs == 0)
  }
}
