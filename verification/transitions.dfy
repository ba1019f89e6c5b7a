/** What one lease change is, as data (crates/agent-lease/src/transition.rs). */
module Transitions {
  import opened Clock
  import opened Wrappers
  import opened Parties

  datatype Phase = Unheld | Held | HeldGrace | PreemptPending | HandingOver

  datatype ReleaseObligation = NotRequired | Required

  datatype Cause =
    | Released
    | Preempted
    | Expired
    | IdleRevoked
    | DisconnectGraceElapsed
    | YieldedToWaiter
    | ForceReleasedBy

  datatype Departure = Departure(party: Party, leaseId: nat, cause: Cause, heldForMs: Millis)

  datatype Outcome =
    | Unchanged
    | Granted(leaseId: nat, holder: Party)
    | Renewed(leaseId: nat)
    | Queued(position: nat)
    | PreemptionStarted(deadline: Instant, requester: Party)
    | WaitCancelled
    | PreemptionAbandoned
    | NobodyHolds
    | HandoverComplete(leaseId: nat)

  datatype Transition = Transition(
    at: Instant,
    from: Phase,
    to: Phase,
    outcome: Outcome,
    release: ReleaseObligation,
    departed: Option<Departure>,
    expiredWaiters: seq<Waiter>,
    queueDepth: nat)
  {
    /** A release is owed for this transition. */
    predicate MustRelease() {
      release.Required?
    }

    /** The phase, the outcome or the queue is not as it was. */
    predicate Changed() {
      from != to || !outcome.Unchanged? || expiredWaiters != []
    }
  }

  datatype Fencing = Allowed | ReleaseOnly

  datatype HolderStatus = HolderStatus(
    id: PartyId, kind: HolderKind, since: Instant, heldForMs: Millis, idleForMs: Millis)

  datatype WaiterStatus = WaiterStatus(id: PartyId, kind: HolderKind, waitingMs: Millis)

  datatype Status = Status(
    phase: Phase,
    holder: Option<HolderStatus>,
    queue: seq<WaiterStatus>,
    preempting: Option<WaiterStatus>,
    changesInMs: Option<Millis>,
    refusedForMs: Option<Millis>)
  {
    /** The holder or the party taking over is a person. */
    predicate PersonHolds() {
      || (holder.Some? && holder.value.kind.IsPerson())
      || (preempting.Some? && preempting.value.kind.IsPerson())
    }
  }
}
