/** The lease as an object whose calls update its fields
    (crates/agent-lease/src/lease.rs), each proved to do what LeaseMachine says. */
module Leases {
  import opened Clock
  import opened Wrappers
  import opened Parties
  import opened Transitions
  import M = LeaseMachine

  lemma SweptOne(q: seq<Waiter>, i: nat, now: Instant, ttl: Millis, done: seq<Waiter>, expired: bool)
    requires i < |q|
    ensures done + M.Waiters(q[i..], now, ttl, expired) ==
      (if M.WaiterExpired(q[i], now, ttl) == expired then done + [q[i]] else done)
      + M.Waiters(q[i + 1..], now, ttl, expired)
  {
    assert q[i..][1..] == q[i + 1..];
  }

  class Lease {
    const policy: Policy
    var phase: Phase
    var holder: Option<Holder>
    var pending: Option<Pending>
    var queue: seq<Waiter>
    var nextLeaseId: nat
    var forceReleaseUntil: Option<Instant>
    var contendedSince: Option<Instant>

    /** The value this object holds. */
    ghost function State(): M.LeaseState
      reads this
    {
      M.LeaseState(policy, phase, holder, pending, queue, nextLeaseId, forceReleaseUntil, contendedSince)
    }

    constructor (policy: Policy)
      ensures State() == M.Fresh(policy)
    {
      this.policy := policy;
      phase := Unheld;
      holder := None;
      pending := None;
      queue := [];
      nextLeaseId := 1;
      forceReleaseUntil := None;
      contendedSince := None;
    }

    method QueuePosition(id: PartyId) returns (r: Option<nat>)
      ensures r == M.PositionOf(queue, id)
    {
      var i := 0;
      while i < |queue|
        invariant 0 <= i <= |queue|
        invariant forall j :: 0 <= j < i ==> queue[j].party.id != id
      {
        if queue[i].party.id == id {
          return Some(i);
        }
        i := i + 1;
      }
      r := None;
    }

    function Fence(id: PartyId): (r: Fencing)
      reads this
      ensures r == M.Fence(State(), id)
    {
      if holder.Some? && holder.value.party.id == id && phase == Held then Allowed else ReleaseOnly
    }

    method Draft(at: Instant, from: Phase, outcome: Outcome, release: ReleaseObligation)
      returns (t: Transition)
      ensures t == M.Draft(State(), at, from, outcome, release)
    {
      t := Transition(at, from, phase, outcome, release, None, [], |queue|);
    }

    method Acquire(party: Party, wait: bool, now: Instant) returns (answer: Result<Transition, LeaseError>)
      modifies this
      ensures M.AcquireStep(State(), answer) == M.Acquire(old(State()), party, wait, now)
    {
      var from := phase;
      if forceReleaseUntil.Some? {
        if !Reached(now, forceReleaseUntil.value) {
          return Err(ForceReleased(Since(forceReleaseUntil.value, now)));
        }
        forceReleaseUntil := None;
      }
      if holder.Some? && holder.value.party.id == party.id {
        holder := Some(holder.value.(lastRenewAt := now));
        var t := Draft(now, from, Renewed(holder.value.leaseId), NotRequired);
        return Ok(t);
      }
      if pending.Some? && pending.value.waiter.party.id == party.id {
        var t := Draft(now, from, PreemptionStarted(pending.value.deadline, pending.value.waiter.party), NotRequired);
        return Ok(t);
      }
      var position := QueuePosition(party.id);
      if position.Some? {
        var i := position.value;
        queue := queue[i := queue[i].(queuedAt := now)];
        var t := Draft(now, from, Queued(i), NotRequired);
        return Ok(t);
      }
      if phase == Unheld {
        var t := Grant(party, now, from);
        return Ok(t);
      }
      answer := Contest(party, wait, now, from);
    }

    method Release(id: PartyId, leaseId: nat, now: Instant) returns (t: Transition)
      modifies this
      ensures M.Step(State(), t) == M.Release(old(State()), id, leaseId, now)
    {
      var from := phase;
      if !(holder.Some? && holder.value.party.id == id && holder.value.leaseId == leaseId) {
        t := Draft(now, from, Unchanged, NotRequired);
        return;
      }
      var departed := TakeHolder(now, Released);
      t := Settle(now, from, departed);
    }

    method Promote(id: PartyId) returns (waiting: bool)
      modifies this
      ensures State() == M.Promote(old(State()), id)
      ensures waiting <==> M.PositionOf(old(queue), id).Some?
    {
      var position := QueuePosition(id);
      if position.None? {
        return false;
      }
      var waiter := queue[position.value];
      queue := M.Without(queue, position.value);
      queue := [waiter] + queue;
      waiting := true;
    }

    method CancelWait(id: PartyId, now: Instant) returns (t: Transition)
      modifies this
      ensures M.Step(State(), t) == M.CancelWait(old(State()), id, now)
    {
      var from := phase;
      if pending.Some? && pending.value.waiter.party.id == id {
        pending := None;
        var connected := holder.Some? && holder.value.connected;
        phase := if connected then Held else HeldGrace;
        t := Draft(now, from, PreemptionAbandoned, Required);
        return;
      }
      var position := QueuePosition(id);
      if position.Some? {
        queue := M.Without(queue, position.value);
        if queue == [] {
          contendedSince := None;
        }
        t := Draft(now, from, WaitCancelled, NotRequired);
      } else {
        t := Draft(now, from, Unchanged, NotRequired);
      }
    }

    method ForceRelease(now: Instant) returns (t: Transition)
      modifies this
      ensures M.Step(State(), t) == M.ForceRelease(old(State()), now)
    {
      var from := phase;
      var departed := TakeHolder(now, ForceReleasedBy);
      var dropped: seq<Waiter> := [];
      if pending.Some? {
        dropped := [pending.value.waiter];
        pending := None;
      }
      dropped := dropped + queue;
      queue := [];
      contendedSince := None;
      phase := Unheld;
      forceReleaseUntil := Some(Plus(now, policy.forceReleaseBackoffMs));
      t := Draft(now, from, NobodyHolds, Required);
      t := t.(departed := departed, expiredWaiters := dropped);
    }

    method ConfirmRelease(now: Instant) returns (t: Transition)
      modifies this
      ensures M.Step(State(), t) == M.ConfirmRelease(old(State()), now)
    {
      var from := phase;
      if from != HandingOver {
        t := Draft(now, from, Unchanged, NotRequired);
        return;
      }
      phase := Held;
      var leaseId := 0;
      if holder.Some? {
        holder := Some(holder.value.(lastIntentAt := now, lastRenewAt := now));
        leaseId := holder.value.leaseId;
      }
      t := Draft(now, from, HandoverComplete(leaseId), NotRequired);
    }

    method SetConnected(id: PartyId, connected: bool, now: Instant) returns (t: Transition)
      modifies this
      ensures M.Step(State(), t) == M.SetConnected(old(State()), id, connected, now)
    {
      var from := phase;
      var isHolder := holder.Some? && holder.value.party.id == id;
      var changed := holder.Some? && holder.value.connected != connected;
      if !isHolder || !changed {
        t := Draft(now, from, Unchanged, NotRequired);
        return;
      }
      var graceUntil := if connected then None else Some(Plus(now, policy.disconnectGraceMs));
      holder := Some(holder.value.(connected := connected, graceUntil := graceUntil));
      match (phase, connected) {
        case (Held, false) => phase := HeldGrace;
        case (HeldGrace, true) => phase := Held;
        case _ =>
      }
      t := Draft(now, from, Unchanged, Required);
    }

    method NoteIntent(id: PartyId, now: Instant)
      modifies this
      ensures State() == M.NoteIntent(old(State()), id, now)
    {
      if holder.Some? && holder.value.party.id == id {
        holder := Some(holder.value.(lastIntentAt := now));
      }
    }

    method Renew(id: PartyId, now: Instant)
      modifies this
      ensures State() == M.Renew(old(State()), id, now)
    {
      if holder.Some? && holder.value.party.id == id {
        holder := Some(holder.value.(lastRenewAt := now));
      }
    }

    method Tick(now: Instant) returns (t: Transition)
      modifies this
      ensures M.Step(State(), t) == M.Tick(old(State()), now)
    {
      var from := phase;
      if forceReleaseUntil.Some? && Reached(now, forceReleaseUntil.value) {
        forceReleaseUntil := None;
      }
      var expired := SweepQueue(now);
      if queue == [] {
        contendedSince := None;
      }
      t := TickHolder(now, from);
      t := t.(expiredWaiters := expired, queueDepth := |queue|);
    }

    /** Drop the waiters that have outlived the queue, in place. */
    method SweepQueue(now: Instant) returns (expired: seq<Waiter>)
      modifies this`queue
      ensures queue == M.Waiters(old(queue), now, policy.queueTtlMs, false)
      ensures expired == M.Waiters(old(queue), now, policy.queueTtlMs, true)
    {
      var was := queue;
      var kept: seq<Waiter> := [];
      expired := [];
      var i := 0;
      assert was[0..] == was;
      while i < |was|
        invariant 0 <= i <= |was|
        invariant kept + M.Waiters(was[i..], now, policy.queueTtlMs, false) ==
          M.Waiters(was, now, policy.queueTtlMs, false)
        invariant expired + M.Waiters(was[i..], now, policy.queueTtlMs, true) ==
          M.Waiters(was, now, policy.queueTtlMs, true)
        invariant queue == was
      {
        hide M.Waiters;
        var w := was[i];
        ghost var kept0, expired0 := kept, expired;
        if M.WaiterExpired(w, now, policy.queueTtlMs) {
          expired := expired + [w];
        } else {
          kept := kept + [w];
        }
        SweptOne(was, i, now, policy.queueTtlMs, kept0, false);
        SweptOne(was, i, now, policy.queueTtlMs, expired0, true);
        i := i + 1;
      }
      queue := kept;
    }

    method Contest(party: Party, wait: bool, now: Instant, from: Phase)
      returns (answer: Result<Transition, LeaseError>)
      requires from == phase
      modifies this
      ensures M.AcquireStep(State(), answer) == M.Contest(old(State()), party, wait, now)
    {
      if holder.None? {
        var t := Grant(party, now, from);
        return Ok(t);
      }
      var h := holder.value;
      if party.priority <= h.party.priority {
        answer := QueueOrRefuse(party, wait, now, from, HeldElsewhere(h.party.kind));
        return;
      }
      if phase == PreemptPending || phase == HandingOver {
        answer := QueueOrRefuse(party, wait, now, from, HeldElsewhere(h.party.kind));
        return;
      }
      var floorLifted := party.kind.IsPerson() && h.party.kind == Agent;
      var heldFor := Since(now, h.grantedAt);
      if !floorLifted && heldFor < policy.minHoldMs {
        answer := QueueOrRefuse(party, wait, now, from, MinHoldNotElapsed(policy.minHoldMs - heldFor));
        return;
      }
      if !h.connected {
        var t := TakeOver(party, now, from);
        return Ok(t);
      }
      var deadline := Plus(now, policy.agentPreemptGraceMs);
      pending := Some(Pending(Waiter(party, now, now), deadline));
      phase := PreemptPending;
      var t := Draft(now, from, PreemptionStarted(deadline, party), Required);
      answer := Ok(t);
    }

    method QueueOrRefuse(party: Party, wait: bool, now: Instant, from: Phase, refusal: LeaseError)
      returns (answer: Result<Transition, LeaseError>)
      requires from == phase
      modifies this
      ensures M.AcquireStep(State(), answer) == M.QueueOrRefuse(old(State()), party, wait, now, refusal)
    {
      if !wait {
        return Err(refusal);
      }
      if |queue| >= policy.maxQueueDepth {
        return Err(QueueFull(|queue|));
      }
      var position := 0;
      while position < |queue| && queue[position].party.priority >= party.priority
        invariant 0 <= position <= |queue|
        invariant forall j :: 0 <= j < position ==> queue[j].party.priority >= party.priority
      {
        position := position + 1;
      }
      queue := M.Inserted(queue, position, Waiter(party, now, now));
      if contendedSince.None? {
        contendedSince := Some(now);
      }
      var t := Draft(now, from, Queued(position), NotRequired);
      answer := Ok(t);
    }

    method TickHolder(now: Instant, from: Phase) returns (t: Transition)
      requires from == phase
      modifies this
      ensures M.Step(State(), t) == M.TickHolder(old(State()), now)
    {
      var cause: Cause;
      match phase {
        case PreemptPending =>
          if !(pending.Some? && Reached(now, pending.value.deadline)) {
            t := Draft(now, from, Unchanged, NotRequired);
            return;
          }
          cause := Preempted;
        case HeldGrace =>
          if !(holder.Some? && holder.value.graceUntil.Some? && Reached(now, holder.value.graceUntil.value)) {
            t := Draft(now, from, Unchanged, NotRequired);
            return;
          }
          cause := DisconnectGraceElapsed;
        case Held =>
          if holder.None? {
            t := Draft(now, from, Unchanged, NotRequired);
            return;
          }
          var contended := ContendedDeadline(holder.value);
          if Since(now, holder.value.LastActivity()) >= policy.leaseTtlMs {
            cause := Expired;
          } else if Since(now, holder.value.lastIntentAt) >= IdleLimit(holder.value) {
            cause := IdleRevoked;
          } else if contended.Some? && Reached(now, contended.value) {
            cause := YieldedToWaiter;
          } else {
            t := Draft(now, from, Unchanged, NotRequired);
            return;
          }
        case Unheld =>
          t := Draft(now, from, Unchanged, NotRequired);
          return;
        case HandingOver =>
          t := Draft(now, from, Unchanged, NotRequired);
          return;
      }
      var departed := TakeHolder(now, cause);
      t := Settle(now, from, departed);
    }

    function IdleLimit(h: Holder): (r: Millis)
      ensures r == M.IdleLimit(policy, h)
    {
      if h.party.kind.IsPerson() then policy.personIdleMs else policy.idleRevokeMs
    }

    function ContendedDeadline(h: Holder): (r: Option<Instant>)
      reads this
      ensures r == M.ContendedDeadline(State(), h)
    {
      if h.party.kind.IsPerson() || queue == [] || contendedSince.None? then None
      else
        var deadline := Plus(Later(h.lastIntentAt, contendedSince.value), policy.contendedIdleMs);
        Some(Later(deadline, Plus(h.grantedAt, policy.minHoldMs)))
    }

    method StatusAt(now: Instant) returns (status: Status)
      ensures status == M.StatusOf(State(), now)
    {
      var changesAt: Option<Instant> := None;
      if phase == PreemptPending {
        if pending.Some? { changesAt := Some(pending.value.deadline); }
      } else if phase == HeldGrace && holder.Some? {
        changesAt := holder.value.graceUntil;
      } else if phase == Held && holder.Some? {
        var h := holder.value;
        var at := Earlier(Plus(h.LastActivity(), policy.leaseTtlMs), Plus(h.lastIntentAt, IdleLimit(h)));
        var contended := ContendedDeadline(h);
        if contended.Some? { at := Earlier(at, contended.value); }
        changesAt := Some(at);
      }
      var waiting := [];
      var i := 0;
      while i < |queue|
        invariant 0 <= i <= |queue| && |waiting| == i
        invariant forall j :: 0 <= j < i ==> waiting[j] == M.WaiterStatusOf(queue[j], now)
      {
        waiting := waiting + [M.WaiterStatusOf(queue[i], now)];
        i := i + 1;
      }
      assert waiting == M.StatusOf(State(), now).queue;
      status := Status(
        phase,
        if holder.Some? then
          var h := holder.value;
          Some(HolderStatus(h.party.id, h.party.kind, h.grantedAt, Since(now, h.grantedAt), Since(now, h.lastIntentAt)))
        else None,
        waiting,
        if pending.Some? then Some(M.WaiterStatusOf(pending.value.waiter, now)) else None,
        if changesAt.Some? then Some(Since(changesAt.value, now)) else None,
        if forceReleaseUntil.Some? && !Reached(now, forceReleaseUntil.value)
        then Some(Since(forceReleaseUntil.value, now)) else None);
    }

    method TakeHolder(now: Instant, cause: Cause) returns (departed: Option<Departure>)
      modifies this`holder
      ensures departed == M.Departing(old(State()), now, cause)
      ensures holder == None
    {
      if holder.None? {
        return None;
      }
      var h := holder.value;
      holder := None;
      departed := Some(Departure(h.party, h.leaseId, cause, Since(now, h.grantedAt)));
    }

    /** The requester of a preemption, else the head of the line, else nobody. */
    method Settle(now: Instant, from: Phase, departed: Option<Departure>) returns (t: Transition)
      requires holder.None?
      modifies this
      ensures forall was: M.LeaseState, cause ::
        was.(holder := None) == old(State()) && M.Departing(was, now, cause) == departed ==>
          M.Step(State(), t) == M.Settle(was, now, from, cause)
    {
      var successor: Option<Party> := None;
      if pending.Some? {
        successor := Some(pending.value.waiter.party);
        pending := None;
      } else if queue != [] {
        successor := Some(queue[0].party);
        queue := queue[1..];
      }
      if successor.Some? {
        t := Grant(successor.value, now, from);
      } else {
        phase := Unheld;
        t := Draft(now, from, NobodyHolds, Required);
      }
      t := t.(departed := departed);
    }

    method TakeOver(party: Party, now: Instant, from: Phase) returns (t: Transition)
      modifies this
      ensures M.Step(State(), t) == M.TakeOver(old(State()), party, now, from)
    {
      var departed := TakeHolder(now, Preempted);
      pending := None;
      t := Grant(party, now, from);
      t := t.(departed := departed);
    }

    method Grant(party: Party, now: Instant, from: Phase) returns (t: Transition)
      modifies this
      ensures M.Step(State(), t) == M.Grant(old(State()), party, now, from)
    {
      var leaseId := nextLeaseId;
      nextLeaseId := nextLeaseId + 1;
      holder := Some(Holder(leaseId, party, now, now, now, true, None));
      contendedSince := if queue == [] then None else Some(now);
      phase := HandingOver;
      t := Draft(now, from, Granted(leaseId, party), Required);
    }
  }
}
