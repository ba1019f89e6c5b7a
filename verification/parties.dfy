/** Who asks for a lease, the timers it runs on, and why it refuses
    (crates/agent-lease/src/party.rs, policy.rs and error.rs). */
module Parties {
  import opened Clock
  import opened Wrappers

  datatype HolderKind = Admin | Owner | Human | Agent {
    predicate IsPerson() {
      !Agent?
    }
  }

  type PartyId = string

  datatype Party = Party(id: PartyId, kind: HolderKind, priority: nat)

  datatype Holder = Holder(
    leaseId: nat,
    party: Party,
    grantedAt: Instant,
    lastIntentAt: Instant,
    lastRenewAt: Instant,
    connected: bool,
    graceUntil: Option<Instant>)
  {
    /** The later of the holder's two clocks. */
    function LastActivity(): Instant {
      Later(lastIntentAt, lastRenewAt)
    }
  }

  datatype Waiter = Waiter(party: Party, queuedAt: Instant, firstAskedAt: Instant)

  /** Who is about to take over, and when at the latest. */
  datatype Pending = Pending(waiter: Waiter, deadline: Instant)

  datatype Policy = Policy(
    leaseTtlMs: Millis,
    idleRevokeMs: Millis,
    personIdleMs: Millis,
    contendedIdleMs: Millis,
    disconnectGraceMs: Millis,
    queueTtlMs: Millis,
    maxQueueDepth: nat,
    minHoldMs: Millis,
    agentPreemptGraceMs: Millis,
    forceReleaseBackoffMs: Millis)

  datatype LeaseError =
    | HeldElsewhere(holderKind: HolderKind)
    | QueueFull(depth: nat)
    | MinHoldNotElapsed(retryAfterMs: Millis)
    | ForceReleased(retryAfterMs: Millis)
    | Muted(retryAfterMs: Millis)
    | NotNow(retryAfterMs: Millis)
}
