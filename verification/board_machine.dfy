/** One lease per session: the meaning of every call on `Board` in
    crates/agent-lease/src/board.rs. The class in board.dfy updates the leases
    in place and is proved to compute these functions. */
module BoardMachine {
  import opened Clock
  import opened Wrappers
  import opened Parties
  import opened Transitions
  import opened LeaseMachine
  import opened StableSort

  type Key = string

  const NOT_NOW_MS: Millis := 60_000

  datatype MuteUntil = At(until: Instant) | PersonIdle

  datatype Answer = Answer(transitions: seq<Transition>, status: Status, refusal: Option<LeaseError>)
  {
    predicate Changed() {
      exists i :: 0 <= i < |transitions| && transitions[i].Changed()
    }
  }

  datatype BoardState = BoardState(
    policy: Policy,
    leases: map<Key, LeaseState>,
    mute: Option<MuteUntil>,
    declined: map<(Key, PartyId), Instant>)

  /** What one call did to one session's lease. */
  datatype Done = Done(lease: LeaseState, transitions: seq<Transition>, refusal: Option<LeaseError>)
  {
    function Then(s: Step): Done {
      Done(s.lease, transitions + [s.transition], refusal)
    }

    function Refused(error: LeaseError): Done {
      this.(refusal := Some(error))
    }

    function Answered(now: Instant): Answer {
      Answer(transitions, StatusOf(lease, now), refusal)
    }
  }

  // ---------------------------------------------------------------- one session

  /** Confirm a handover if one has started. */
  function ConfirmInto(d: Done, now: Instant): Done {
    if d.lease.phase.HandingOver? then d.Then(ConfirmRelease(d.lease, now)) else d
  }

  /** Elapsed time on one lease, silent unless something moved, and never left in
      a handover. */
  function TickInto(l: LeaseState, now: Instant): Done {
    var s := Tick(l, now);
    ConfirmInto(
      Done(s.lease, if s.transition.Changed() || s.transition.MustRelease() then [s.transition] else [], None),
      now)
  }

  function HeldError(l: LeaseState): LeaseError {
    match l.holder
    case Some(h) => HeldElsewhere(h.party.kind)
    case None =>
      match StatusOf(l, 0).refusedForMs
      case Some(ms) => ForceReleased(ms)
      case None => ForceReleased(0)
  }

  /** Ask, after the tick. `gate` is the person's standing refusal, if any. */
  function AskOp(d: Done, party: Party, gate: Option<LeaseError>, now: Instant): Done {
    if gate.Some? then
      d.Then(CancelWait(d.lease, party.id, now)).Refused(gate.value)
    else
      var s := Acquire(d.lease, party, true, now);
      match s.answer
      case Ok(t) => ConfirmInto(d.Then(Step(s.lease, t)), now)
      case Err(error) => Done(s.lease, d.transitions, Some(error))
  }

  function ReleaseOp(l: LeaseState, id: PartyId, now: Instant): Done {
    var d := TickInto(l, now);
    var released := if HeldBy(d.lease, id) then d.Then(Release(d.lease, id, d.lease.holder.value.leaseId, now)) else d;
    ConfirmInto(released.Then(CancelWait(released.lease, id, now)), now)
  }

  /** The implicit grant of a free lease to whoever sends input. */
  function TakeIfFree(d: Done, party: Party, now: Instant): Done {
    if !d.lease.phase.Unheld? then d
    else
      var s := Acquire(d.lease, party, false, now);
      match s.answer
      case Ok(t) => ConfirmInto(d.Then(Step(s.lease, t)), now)
      case Err(error) => Done(s.lease, d.transitions, Some(error))
  }

  function InputOp(l: LeaseState, party: Party, now: Instant): Done {
    var d := TakeIfFree(TickInto(l, now), party, now);
    if d.refusal.Some? then d
    else if Fence(d.lease, party.id).Allowed? then d.(lease := NoteIntent(d.lease, party.id, now))
    else d.Refused(HeldError(d.lease))
  }

  function PersonInputOp(l: LeaseState, person: Party, now: Instant): Done {
    var d := TickInto(l, now);
    var s := Acquire(d.lease, person, false, now);
    var asked :=
      match s.answer
      case Ok(t) => ConfirmInto(d.Then(Step(s.lease, t)), now)
      case Err(_) => d.(lease := s.lease);
    asked.(lease := NoteIntent(asked.lease, person.id, now))
  }

  function YieldOp(l: LeaseState, party: PartyId, person: PartyId, now: Instant): Done {
    var d := TickInto(l, now);
    if PositionOf(d.lease.queue, party).None? then d.Refused(HeldElsewhere(Human))
    else
      var promoted := d.(lease := Promote(d.lease, party));
      var calledOff := promoted.Then(CancelWait(promoted.lease, person, now));
      var released :=
        if HeldBy(calledOff.lease, person)
        then calledOff.Then(Release(calledOff.lease, person, calledOff.lease.holder.value.leaseId, now))
        else calledOff;
      ConfirmInto(released, now)
  }

  function NotNowOp(l: LeaseState, id: PartyId, now: Instant): Done {
    var d := TickInto(l, now);
    d.Then(CancelWait(d.lease, id, now)).Refused(NotNow(NOT_NOW_MS))
  }

  // ---------------------------------------------------------------- requests

  /** The agents in line, each with how long it has waited. */
  function WaitingAgents(q: seq<Waiter>, now: Instant): seq<Keyed<PartyId>> {
    if q == [] then []
    else
      (if q[0].party.kind.IsPerson() then [] else [Keyed(Since(now, q[0].firstAskedAt), q[0].party.id)])
      + WaitingAgents(q[1..], now)
  }

  /** Who waits behind a person, by how long they have waited, longest first. */
  function Requests(l: LeaseState, now: Instant): seq<Keyed<PartyId>> {
    if StatusOf(l, now).PersonHolds() then SortDescending(WaitingAgents(l.queue, now)) else []
  }

  datatype Dropped = Dropped(lease: LeaseState, answers: seq<Answer>)

  /** Take these agents out of line, one answer each. */
  function DropRequests(l: LeaseState, asked: seq<Keyed<PartyId>>, now: Instant): Dropped
    decreases |asked|
  {
    if asked == [] then Dropped(l, [])
    else
      var s := CancelWait(l, asked[0].value, now);
      var rest := DropRequests(s.lease, asked[1..], now);
      Dropped(rest.lease, [Answer([s.transition], StatusOf(s.lease, now), None)] + rest.answers)
  }

  // ---------------------------------------------------------------- the board

  function LeaseAt(b: BoardState, key: Key): LeaseState {
    if key in b.leases then b.leases[key] else Fresh(b.policy)
  }

  function With(b: BoardState, key: Key, l: LeaseState): BoardState {
    b.(leases := b.leases[key := l])
  }

  predicate PersonHoldsAt(b: BoardState, key: Key, now: Instant) {
    key in b.leases && StatusOf(b.leases[key], now).PersonHolds()
  }

  predicate PersonHoldsAny(b: BoardState, now: Instant) {
    exists key :: key in b.leases && PersonHoldsAt(b, key, now)
  }

  /** The mute, unless its instant has come. */
  function MutedAt(b: BoardState, now: Instant): Option<MuteUntil> {
    match b.mute
    case None => None
    case Some(At(until)) => if Reached(now, until) then None else b.mute
    case Some(PersonIdle) => if PersonHoldsAny(b, now) then b.mute else None
  }

  /** How long a muted request should wait before asking again. */
  function MuteLeft(b: BoardState, key: Key, now: Instant): Option<Millis> {
    match MutedAt(b, now)
    case None => None
    case Some(At(until)) => Some(Since(until, now))
    case Some(PersonIdle) =>
      if key in b.leases && StatusOf(b.leases[key], now).changesInMs.Some?
      then StatusOf(b.leases[key], now).changesInMs
      else Some(b.policy.personIdleMs)
  }

  /** How long a "not now" to this agent still answers. */
  function NotNowLeft(b: BoardState, key: Key, id: PartyId, now: Instant): Option<Millis> {
    if (key, id) in b.declined && !Reached(now, b.declined[(key, id)])
    then Some(Since(b.declined[(key, id)], now))
    else None
  }

  /** The refusal a person's standing answer gives this agent, if any. */
  function Gate(b: BoardState, key: Key, party: Party, now: Instant): Option<LeaseError> {
    if party.kind.IsPerson() || !PersonHoldsAt(b, key, now) then None
    else
      match MuteLeft(b, key, now)
      case Some(ms) => Some(Muted(ms))
      case None =>
        match NotNowLeft(b, key, party.id, now)
        case Some(ms) => Some(NotNow(ms))
        case None => None
  }

  datatype Call =
    | DoStatus(key: Key)
    | DoAsk(key: Key, party: Party)
    | DoRelease(key: Key, id: PartyId)
    | DoInput(key: Key, party: Party)
    | DoPersonInput(key: Key, party: Party)
    | DoYieldTo(key: Key, id: PartyId, person: PartyId)
    | DoNotNow(key: Key, id: PartyId)
    | DoMute(until: MuteUntil)
    | DoUnmute
    | DoForgetParty(id: PartyId)
    | DoTickAll
    | DoRemove(key: Key)

  datatype TimedCall = TimedCall(call: Call, now: Instant)

  datatype Moved = Moved(board: BoardState, answers: map<Key, seq<Answer>>)

  function OneAnswer(b: BoardState, key: Key, answer: Answer): Moved {
    Moved(b, map[key := [answer]])
  }

  function OneSession(b: BoardState, key: Key, d: Done, now: Instant): Moved {
    OneAnswer(With(b, key, d.lease), key, d.Answered(now))
  }

  function Ask(b: BoardState, key: Key, party: Party, now: Instant): Moved {
    var d := TickInto(LeaseAt(b, key), now);
    OneSession(b, key, AskOp(d, party, Gate(With(b, key, d.lease), key, party, now), now), now)
  }

  function DeclinedBy(b: BoardState, key: Key, id: PartyId, now: Instant): BoardState {
    b.(declined := b.declined[(key, id) := Plus(now, NOT_NOW_MS)])
  }

  function AllDropped(l: LeaseState, now: Instant): Dropped {
    DropRequests(l, Requests(l, now), now)
  }

  function AllTicked(leases: map<Key, LeaseState>, now: Instant): map<Key, Done> {
    map key | key in leases :: TickInto(leases[key], now)
  }

  function AllReleased(leases: map<Key, LeaseState>, id: PartyId, now: Instant): map<Key, Done> {
    map key | key in leases :: ReleaseOp(leases[key], id, now)
  }

  function LeasesOf(done: map<Key, Done>): map<Key, LeaseState> {
    map key | key in done :: done[key].lease
  }

  /** An answer in which nothing moved is left out. */
  function WhereMoved(answers: map<Key, seq<Answer>>, key: Key, answer: Answer): map<Key, seq<Answer>> {
    if answer.Changed() then answers[key := [answer]] else answers
  }

  /** An answer for every session not in `rest` where something moved. */
  function AnsweredSoFar(done: map<Key, Done>, rest: set<Key>, now: Instant): map<Key, seq<Answer>> {
    map key | key in done && key !in rest && done[key].Answered(now).Changed() :: [done[key].Answered(now)]
  }

  function StillDeclined(declined: map<(Key, PartyId), Instant>, now: Instant): map<(Key, PartyId), Instant> {
    map pair | pair in declined && !Reached(now, declined[pair]) :: declined[pair]
  }

  function Ticked(b: BoardState, now: Instant): BoardState {
    b.(leases := LeasesOf(AllTicked(b.leases, now)), declined := StillDeclined(b.declined, now))
  }

  /** Every session ticked, and answered where something moved. */
  function TickAll(b: BoardState, now: Instant): Moved {
    var ticked := Ticked(b, now);
    Moved(ticked.(mute := if MutedAt(ticked, now).None? then None else ticked.mute),
          AnsweredSoFar(AllTicked(b.leases, now), {}, now))
  }

  /** Every session released by this party, and answered where something moved. */
  function ForgetParty(b: BoardState, id: PartyId, now: Instant): Moved {
    var done := AllReleased(b.leases, id, now);
    Moved(b.(leases := LeasesOf(done)), AnsweredSoFar(done, {}, now))
  }

  /** The answers for every session not in `rest` where an agent was in line. */
  function DroppedSoFar(leases: map<Key, LeaseState>, rest: set<Key>, now: Instant): map<Key, seq<Answer>> {
    map key | key in leases && key !in rest && AllDropped(leases[key], now).answers != [] ::
      AllDropped(leases[key], now).answers
  }

  /** Every agent taken out of line where a person is using the session. */
  function DropAll(b: BoardState, now: Instant): Moved {
    Moved(
      b.(leases := map key | key in b.leases :: AllDropped(b.leases[key], now).lease),
      DroppedSoFar(b.leases, {}, now))
  }

  /** The board after one call, and what the call returned for each session. */
  function Apply(b: BoardState, c: TimedCall): Moved {
    match c.call
    case DoStatus(key) => OneSession(b, key, TickInto(LeaseAt(b, key), c.now), c.now)
    case DoAsk(key, party) => Ask(b, key, party, c.now)
    case DoRelease(key, id) => OneSession(b, key, ReleaseOp(LeaseAt(b, key), id, c.now), c.now)
    case DoInput(key, party) => OneSession(b, key, InputOp(LeaseAt(b, key), party, c.now), c.now)
    case DoPersonInput(key, party) => OneSession(b, key, PersonInputOp(LeaseAt(b, key), party, c.now), c.now)
    case DoYieldTo(key, id, person) => OneSession(b, key, YieldOp(LeaseAt(b, key), id, person, c.now), c.now)
    case DoNotNow(key, id) =>
      OneSession(DeclinedBy(b, key, id, c.now), key, NotNowOp(LeaseAt(b, key), id, c.now), c.now)
    case DoMute(until) => DropAll(b.(mute := Some(until)), c.now)
    case DoUnmute => Moved(b.(mute := None), map[])
    case DoForgetParty(id) => ForgetParty(b, id, c.now)
    case DoTickAll => TickAll(b, c.now)
    case DoRemove(key) => Moved(b.(leases := b.leases - {key}), map[])
  }
}
