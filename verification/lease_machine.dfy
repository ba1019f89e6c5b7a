/** The lease as a state machine on values: the meaning of every call on
    `Lease` in crates/agent-lease/src/lease.rs. The class in lease.dfy updates
    fields in place and is proved to compute these functions. */
module LeaseMachine {
  import opened Clock
  import opened Wrappers
  import opened Parties
  import opened Transitions

  datatype LeaseState = LeaseState(
    policy: Policy,
    phase: Phase,
    holder: Option<Holder>,
    pending: Option<Pending>,
    queue: seq<Waiter>,
    nextLeaseId: nat,
    forceReleaseUntil: Option<Instant>,
    contendedSince: Option<Instant>)

  datatype Step = Step(lease: LeaseState, transition: Transition)

  datatype AcquireStep = AcquireStep(lease: LeaseState, answer: Result<Transition, LeaseError>)

  function Fresh(policy: Policy): LeaseState {
    LeaseState(policy, Unheld, None, None, [], 1, None, None)
  }

  predicate HeldBy(l: LeaseState, id: PartyId) {
    l.holder.Some? && l.holder.value.party.id == id
  }

  predicate PendingFor(l: LeaseState, id: PartyId) {
    l.pending.Some? && l.pending.value.waiter.party.id == id
  }

  /** The first place of a party with this id, if it has one. */
  function PositionOf(q: seq<Waiter>, id: PartyId): (r: Option<nat>)
    ensures r.Some? ==> r.value < |q| && q[r.value].party.id == id
    ensures r.Some? ==> forall j :: 0 <= j < r.value ==> q[j].party.id != id
    ensures r.None? ==> forall j :: 0 <= j < |q| ==> q[j].party.id != id
  {
    if q == [] then None
    else if q[0].party.id == id then Some(0)
    else
      match PositionOf(q[1..], id)
      case None => assert forall j :: 0 < j < |q| ==> q[j] == q[1..][j - 1]; None
      case Some(p) => assert forall j :: 0 < j < p + 1 ==> q[j] == q[1..][j - 1]; Some(p + 1)
  }

  /** Behind everybody of at least this priority who is ahead of the first
      waiter of a lower one. */
  function InsertPosition(q: seq<Waiter>, priority: nat): (p: nat)
    ensures p <= |q|
    ensures forall j :: 0 <= j < p ==> q[j].party.priority >= priority
    ensures p < |q| ==> q[p].party.priority < priority
  {
    if q == [] || q[0].party.priority < priority then 0
    else
      var p := InsertPosition(q[1..], priority);
      assert forall j :: 0 < j < p + 1 ==> q[j] == q[1..][j - 1];
      p + 1
  }

  function Without<T>(q: seq<T>, i: nat): seq<T>
    requires i < |q|
  {
    q[..i] + q[i + 1..]
  }

  function Inserted<T>(q: seq<T>, i: nat, x: T): seq<T>
    requires i <= |q|
  {
    q[..i] + [x] + q[i..]
  }

  /** Who may dispatch right now. */
  function Fence(l: LeaseState, id: PartyId): Fencing {
    if HeldBy(l, id) && l.phase.Held? then Allowed else ReleaseOnly
  }

  function Draft(l: LeaseState, at: Instant, from: Phase, outcome: Outcome, release: ReleaseObligation): Transition {
    Transition(at, from, l.phase, outcome, release, None, [], |l.queue|)
  }

  function Idle(l: LeaseState, now: Instant): Step {
    Step(l, Draft(l, now, l.phase, Unchanged, NotRequired))
  }

  // ---------------------------------------------------------------- handing on

  function Departing(l: LeaseState, now: Instant, cause: Cause): Option<Departure> {
    match l.holder
    case None => None
    case Some(h) => Some(Departure(h.party, h.leaseId, cause, Since(now, h.grantedAt)))
  }

  /** Mint a lease id for `party` and start handing over to it. */
  function Grant(l: LeaseState, party: Party, now: Instant, from: Phase): Step {
    var granted := l.(
      nextLeaseId := l.nextLeaseId + 1,
      holder := Some(Holder(l.nextLeaseId, party, now, now, now, true, None)),
      contendedSince := if l.queue == [] then None else Some(now),
      phase := HandingOver);
    Step(granted, Draft(granted, now, from, Granted(l.nextLeaseId, party), Required))
  }

  /** The holder leaves for `cause`, and a pending requester, or else the head of
      the queue, is granted the lease. */
  function Settle(l: LeaseState, now: Instant, from: Phase, cause: Cause): Step {
    var departed := Departing(l, now, cause);
    var vacant := l.(holder := None, pending := None);
    var s :=
      if l.pending.Some? then
        Grant(vacant, l.pending.value.waiter.party, now, from)
      else if l.queue != [] then
        Grant(vacant.(queue := l.queue[1..]), l.queue[0].party, now, from)
      else
        var unheld := vacant.(phase := Unheld);
        Step(unheld, Draft(unheld, now, from, NobodyHolds, Required));
    Step(s.lease, s.transition.(departed := departed))
  }

  /** `party` takes the lease now, calling off any preemption. */
  function TakeOver(l: LeaseState, party: Party, now: Instant, from: Phase): Step {
    var s := Grant(l.(holder := None, pending := None), party, now, from);
    Step(s.lease, s.transition.(departed := Departing(l, now, Preempted)))
  }

  // ---------------------------------------------------------------- asking

  function QueueOrRefuse(l: LeaseState, party: Party, queue: bool, now: Instant, refusal: LeaseError): AcquireStep {
    if !queue then AcquireStep(l, Err(refusal))
    else if |l.queue| >= l.policy.maxQueueDepth then AcquireStep(l, Err(QueueFull(|l.queue|)))
    else
      var position := InsertPosition(l.queue, party.priority);
      var queued := l.(
        queue := Inserted(l.queue, position, Waiter(party, now, now)),
        contendedSince := if l.contendedSince.None? then Some(now) else l.contendedSince);
      AcquireStep(queued, Ok(Draft(queued, now, l.phase, Queued(position), NotRequired)))
  }

  /** A person need not wait out an agent's minimum hold. */
  predicate FloorLifted(asking: Party, holding: Party) {
    asking.kind.IsPerson() && holding.kind == Agent
  }

  /** The contested half of `Acquire`. */
  function Contest(l: LeaseState, party: Party, queue: bool, now: Instant): AcquireStep {
    match l.holder
    case None =>
      var s := Grant(l, party, now, l.phase);
      AcquireStep(s.lease, Ok(s.transition))
    case Some(h) =>
      var heldFor := Since(now, h.grantedAt);
      if party.priority <= h.party.priority || l.phase.PreemptPending? || l.phase.HandingOver? then
        QueueOrRefuse(l, party, queue, now, HeldElsewhere(h.party.kind))
      else if !FloorLifted(party, h.party) && heldFor < l.policy.minHoldMs then
        QueueOrRefuse(l, party, queue, now, MinHoldNotElapsed(l.policy.minHoldMs - heldFor))
      else if !h.connected then
        var s := TakeOver(l, party, now, l.phase);
        AcquireStep(s.lease, Ok(s.transition))
      else
        var deadline := Plus(now, l.policy.agentPreemptGraceMs);
        var preempting := l.(
          pending := Some(Pending(Waiter(party, now, now), deadline)),
          phase := PreemptPending);
        AcquireStep(preempting,
                    Ok(Draft(preempting, now, l.phase, PreemptionStarted(deadline, party), Required)))
  }

  /** Ask for control. */
  function Acquire(l0: LeaseState, party: Party, queue: bool, now: Instant): AcquireStep {
    if l0.forceReleaseUntil.Some? && !Reached(now, l0.forceReleaseUntil.value) then
      AcquireStep(l0, Err(ForceReleased(Since(l0.forceReleaseUntil.value, now))))
    else
      var l := l0.(forceReleaseUntil := None);
      if HeldBy(l, party.id) then
        var renewed := l.(holder := Some(l.holder.value.(lastRenewAt := now)));
        AcquireStep(renewed, Ok(Draft(renewed, now, l.phase, Renewed(l.holder.value.leaseId), NotRequired)))
      else if PendingFor(l, party.id) then
        var p := l.pending.value;
        AcquireStep(l, Ok(Draft(l, now, l.phase, PreemptionStarted(p.deadline, p.waiter.party), NotRequired)))
      else
        match PositionOf(l.queue, party.id)
        case Some(i) =>
          var refreshed := l.(queue := l.queue[i := l.queue[i].(queuedAt := now)]);
          AcquireStep(refreshed, Ok(Draft(refreshed, now, l.phase, Queued(i), NotRequired)))
        case None =>
          if l.phase.Unheld? then
            var s := Grant(l, party, now, l.phase);
            AcquireStep(s.lease, Ok(s.transition))
          else
            Contest(l, party, queue, now)
  }

  // ---------------------------------------------------------------- letting go

  function Release(l: LeaseState, id: PartyId, leaseId: nat, now: Instant): Step {
    if HeldBy(l, id) && l.holder.value.leaseId == leaseId then
      Settle(l, now, l.phase, Released)
    else
      Idle(l, now)
  }

  /** The waiter first, whatever the priorities, and the others in their order. */
  function Promote(l: LeaseState, id: PartyId): LeaseState {
    match PositionOf(l.queue, id)
    case None => l
    case Some(i) => l.(queue := [l.queue[i]] + Without(l.queue, i))
  }

  /** Give up waiting; a preemption running for this party is called off. */
  function CancelWait(l: LeaseState, id: PartyId, now: Instant): Step {
    if PendingFor(l, id) then
      var connected := l.holder.Some? && l.holder.value.connected;
      var back := l.(pending := None, phase := if connected then Held else HeldGrace);
      Step(back, Draft(back, now, l.phase, PreemptionAbandoned, Required))
    else
      match PositionOf(l.queue, id)
      case None => Idle(l, now)
      case Some(i) =>
        var queue := Without(l.queue, i);
        var left := l.(
          queue := queue,
          contendedSince := if queue == [] then None else l.contendedSince);
        Step(left, Draft(left, now, l.phase, WaitCancelled, NotRequired))
  }

  /** The panic chord. */
  function ForceRelease(l: LeaseState, now: Instant): Step {
    var dropped := (if l.pending.Some? then [l.pending.value.waiter] else []) + l.queue;
    var free := l.(
      holder := None, pending := None, queue := [], contendedSince := None, phase := Unheld,
      forceReleaseUntil := Some(Plus(now, l.policy.forceReleaseBackoffMs)));
    Step(free, Draft(free, now, l.phase, NobodyHolds, Required).(
      departed := Departing(l, now, ForceReleasedBy),
      expiredWaiters := dropped))
  }

  /** The release owed at a handover reached the limb. */
  function ConfirmRelease(l: LeaseState, now: Instant): Step {
    if !l.phase.HandingOver? then Idle(l, now)
    else
      match l.holder
      case None =>
        var held := l.(phase := Held);
        Step(held, Draft(held, now, l.phase, HandoverComplete(0), NotRequired))
      case Some(h) =>
        var held := l.(phase := Held, holder := Some(h.(lastIntentAt := now, lastRenewAt := now)));
        Step(held, Draft(held, now, l.phase, HandoverComplete(h.leaseId), NotRequired))
  }

  /** The holder's connection lost or regained, and with it the grace. */
  function SetConnected(l: LeaseState, id: PartyId, connected: bool, now: Instant): Step {
    if !HeldBy(l, id) || l.holder.value.connected == connected then Idle(l, now)
    else
      var grace := if connected then None else Some(Plus(now, l.policy.disconnectGraceMs));
      var moved := l.(
        holder := Some(l.holder.value.(connected := connected, graceUntil := grace)),
        phase := if l.phase.Held? && !connected then HeldGrace
                 else if l.phase.HeldGrace? && connected then Held
                 else l.phase);
      Step(moved, Draft(moved, now, l.phase, Unchanged, Required))
  }

  /** The holder dispatched something. */
  function NoteIntent(l: LeaseState, id: PartyId, now: Instant): LeaseState {
    if HeldBy(l, id) then l.(holder := Some(l.holder.value.(lastIntentAt := now))) else l
  }

  /** The holder's other clock, which input does not move. */
  function Renew(l: LeaseState, id: PartyId, now: Instant): LeaseState {
    if HeldBy(l, id) then l.(holder := Some(l.holder.value.(lastRenewAt := now))) else l
  }

  // ---------------------------------------------------------------- time

  predicate WaiterExpired(w: Waiter, now: Instant, ttl: Millis) {
    Since(now, w.queuedAt) >= ttl
  }

  /** The waiters that have outlived `ttl` (`expired`) or have not. */
  function Waiters(q: seq<Waiter>, now: Instant, ttl: Millis, expired: bool): (r: seq<Waiter>)
    ensures |r| <= |q|
    ensures forall w :: w in r <==> w in q && WaiterExpired(w, now, ttl) == expired
  {
    if q == [] then []
    else
      var rest := Waiters(q[1..], now, ttl, expired);
      if WaiterExpired(q[0], now, ttl) == expired then [q[0]] + rest else rest
  }

  function IdleLimit(p: Policy, h: Holder): Millis {
    if h.party.kind.IsPerson() then p.personIdleMs else p.idleRevokeMs
  }

  /** When an agent holder somebody waits behind is handed on. */
  function ContendedDeadline(l: LeaseState, h: Holder): Option<Instant> {
    if h.party.kind.IsPerson() || l.queue == [] || l.contendedSince.None? then None
    else
      var quietFrom := Later(h.lastIntentAt, l.contendedSince.value);
      Some(Later(Plus(quietFrom, l.policy.contendedIdleMs), Plus(h.grantedAt, l.policy.minHoldMs)))
  }

  /** Why the holder loses the lease at `now` by elapsed time alone, if it does. */
  function DueCause(l: LeaseState, now: Instant): Option<Cause> {
    match l.phase
    case PreemptPending =>
      if l.pending.Some? && Reached(now, l.pending.value.deadline) then Some(Preempted) else None
    case HeldGrace =>
      if l.holder.Some? && l.holder.value.graceUntil.Some? && Reached(now, l.holder.value.graceUntil.value)
      then Some(DisconnectGraceElapsed) else None
    case Held =>
      (match l.holder
       case None => None
       case Some(h) =>
         if Since(now, h.LastActivity()) >= l.policy.leaseTtlMs then Some(Expired)
         else if Since(now, h.lastIntentAt) >= IdleLimit(l.policy, h) then Some(IdleRevoked)
         else
           match ContendedDeadline(l, h)
           case Some(deadline) => if Reached(now, deadline) then Some(YieldedToWaiter) else None
           case None => None)
    case Unheld => None
    case HandingOver => None
  }

  /** The first half of a tick: the backoff ends and stale waiters are dropped. */
  function Swept(l: LeaseState, now: Instant): LeaseState {
    var queue := Waiters(l.queue, now, l.policy.queueTtlMs, false);
    l.(
      forceReleaseUntil :=
        if l.forceReleaseUntil.Some? && Reached(now, l.forceReleaseUntil.value) then None
        else l.forceReleaseUntil,
      queue := queue,
      contendedSince := if queue == [] then None else l.contendedSince)
  }

  function TickHolder(l: LeaseState, now: Instant): Step {
    match DueCause(l, now)
    case None => Idle(l, now)
    case Some(cause) => Settle(l, now, l.phase, cause)
  }

  /** Apply elapsed time. */
  function Tick(l: LeaseState, now: Instant): Step {
    var s := TickHolder(Swept(l, now), now);
    Step(s.lease, s.transition.(
      expiredWaiters := Waiters(l.queue, now, l.policy.queueTtlMs, true),
      queueDepth := |s.lease.queue|))
  }

  // ---------------------------------------------------------------- looking

  /** The earliest deadline that applies in this phase. */
  function ChangesAt(l: LeaseState): Option<Instant> {
    match (l.phase, l.holder)
    case (PreemptPending, _) => if l.pending.Some? then Some(l.pending.value.deadline) else None
    case (HeldGrace, Some(h)) => h.graceUntil
    case (Held, Some(h)) =>
      var at := Earlier(Plus(h.LastActivity(), l.policy.leaseTtlMs),
                        Plus(h.lastIntentAt, IdleLimit(l.policy, h)));
      (match ContendedDeadline(l, h)
       case Some(contended) => Some(Earlier(at, contended))
       case None => Some(at))
    case _ => None
  }

  function WaiterStatusOf(w: Waiter, now: Instant): WaiterStatus {
    WaiterStatus(w.party.id, w.party.kind, Since(now, w.firstAskedAt))
  }

  function StatusOf(l: LeaseState, now: Instant): Status {
    Status(
      l.phase,
      match l.holder
      case None => None
      case Some(h) => Some(HolderStatus(h.party.id, h.party.kind, h.grantedAt,
                                        Since(now, h.grantedAt), Since(now, h.lastIntentAt))),
      seq(|l.queue|, i requires 0 <= i < |l.queue| => WaiterStatusOf(l.queue[i], now)),
      if l.pending.Some? then Some(WaiterStatusOf(l.pending.value.waiter, now)) else None,
      match ChangesAt(l) case None => None case Some(at) => Some(Since(at, now)),
      if l.forceReleaseUntil.Some? && !Reached(now, l.forceReleaseUntil.value)
      then Some(Since(l.forceReleaseUntil.value, now)) else None)
  }

  // ---------------------------------------------------------------- runs

  /** One call on a lease. */
  datatype Call =
    | DoAcquire(party: Party, queue: bool)
    | DoRelease(id: PartyId, leaseId: nat)
    | DoPromote(id: PartyId)
    | DoCancelWait(id: PartyId)
    | DoForceRelease
    | DoConfirmRelease
    | DoSetConnected(id: PartyId, connected: bool)
    | DoNoteIntent(id: PartyId)
    | DoRenew(id: PartyId)
    | DoTick

  datatype TimedCall = TimedCall(call: Call, now: Instant)

  /** The state after one call, and the transition it returned, if any. */
  function Apply(l: LeaseState, c: TimedCall): (LeaseState, Option<Transition>) {
    match c.call
    case DoAcquire(party, queue) =>
      var s := Acquire(l, party, queue, c.now);
      (s.lease, if s.answer.Ok? then Some(s.answer.value) else None)
    case DoRelease(id, leaseId) => var s := Release(l, id, leaseId, c.now); (s.lease, Some(s.transition))
    case DoPromote(id) => (Promote(l, id), None)
    case DoCancelWait(id) => var s := CancelWait(l, id, c.now); (s.lease, Some(s.transition))
    case DoForceRelease => var s := ForceRelease(l, c.now); (s.lease, Some(s.transition))
    case DoConfirmRelease => var s := ConfirmRelease(l, c.now); (s.lease, Some(s.transition))
    case DoSetConnected(id, connected) =>
      var s := SetConnected(l, id, connected, c.now); (s.lease, Some(s.transition))
    case DoNoteIntent(id) => (NoteIntent(l, id, c.now), None)
    case DoRenew(id) => (Renew(l, id, c.now), None)
    case DoTick => var s := Tick(l, c.now); (s.lease, Some(s.transition))
  }

  /** The state after a run of calls. */
  function Run(l: LeaseState, calls: seq<TimedCall>): LeaseState
    decreases |calls|
  {
    if calls == [] then l else Run(Apply(l, calls[0]).0, calls[1..])
  }
}
