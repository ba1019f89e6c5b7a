/** Every session's lease, updated in place (crates/agent-lease/src/board.rs). */
module Boards {
  import opened Clock
  import opened Wrappers
  import opened Parties
  import opened Transitions
  import opened StableSort
  import L = LeaseMachine
  import B = BoardMachine
  import Leases

  lemma WithTwice(b: B.BoardState, key: B.Key, l: L.LeaseState, l2: L.LeaseState)
    ensures B.With(B.With(b, key, l), key, l2) == B.With(b, key, l2)
  {
  }

  /** Part way through visiting every session: those in `rest` are still as
      they were, the others as they will be. */
  ghost function PartWay(was: map<B.Key, L.LeaseState>, after: map<B.Key, L.LeaseState>, rest: set<B.Key>)
    : map<B.Key, L.LeaseState>
    requires was.Keys == after.Keys
  {
    map k | k in was :: if k in rest then was[k] else after[k]
  }

  lemma OneMore(was: map<B.Key, L.LeaseState>, after: map<B.Key, L.LeaseState>, rest: set<B.Key>, key: B.Key)
    requires was.Keys == after.Keys && key in rest && key in was
    ensures PartWay(was, after, rest)[key := after[key]] == PartWay(was, after, rest - {key})
    ensures PartWay(was, after, rest)[key] == was[key]
  {
  }

  lemma FromStartToEnd(was: map<B.Key, L.LeaseState>, after: map<B.Key, L.LeaseState>)
    requires was.Keys == after.Keys
    ensures PartWay(was, after, was.Keys) == was && PartWay(was, after, {}) == after
  {
  }

  lemma OneMoreAnswer(done: map<B.Key, B.Done>, rest: set<B.Key>, key: B.Key, now: Instant)
    requires key in done && key in rest
    ensures B.AnsweredSoFar(done, rest - {key}, now) ==
      B.WhereMoved(B.AnsweredSoFar(done, rest, now), key, done[key].Answered(now))
  {
  }

  lemma OneMoreDropped(was: map<B.Key, L.LeaseState>, rest: set<B.Key>, key: B.Key, now: Instant)
    requires key in was && key in rest
    ensures var answers := B.AllDropped(was[key], now).answers;
      B.DroppedSoFar(was, rest - {key}, now) ==
        if answers != [] then B.DroppedSoFar(was, rest, now)[key := answers] else B.DroppedSoFar(was, rest, now)
  {
  }

  class Board {
    const policy: Policy
    var leases: map<B.Key, Leases.Lease>
    var mute: Option<B.MuteUntil>
    var declined: map<(B.Key, PartyId), Instant>

    /** Every session has a lease of its own. */
    ghost predicate Valid()
      reads this
    {
      forall k, k2 :: k in leases && k2 in leases && k != k2 ==> leases[k] != leases[k2]
    }

    ghost function State(): B.BoardState
      reads this, leases.Values
    {
      B.BoardState(policy, map k | k in leases :: leases[k].State(), mute, declined)
    }

    constructor (policy: Policy)
      ensures Valid() && State() == B.BoardState(policy, map[], None, map[])
    {
      this.policy := policy;
      leases := map[];
      mute := None;
      declined := map[];
    }

    /** A change to one session's lease is a change to the board at that key. */
    twostate lemma OnlyThisSession(key: B.Key)
      requires old(Valid()) && key in leases && leases == old(leases)
      requires mute == old(mute) && declined == old(declined)
      requires forall k :: k in leases && k != key ==> unchanged(leases[k])
      ensures State() == B.With(old(State()), key, leases[key].State())
    {
      assert forall k :: k in leases && k != key ==> leases[k].State() == old(leases[k].State());
    }

    /** A new session is a change to the board at its key. */
    twostate lemma NewSession(key: B.Key, new made: Leases.Lease)
      requires key !in old(leases) && leases == old(leases)[key := made]
      requires mute == old(mute) && declined == old(declined)
      requires forall k :: k in old(leases) ==> unchanged(leases[k])
      ensures State() == B.With(old(State()), key, made.State())
    {
      assert forall k :: k in old(leases) ==> leases[k].State() == old(leases[k].State());
    }

    /** A change to the mute or the standing refusals leaves every lease alone. */
    twostate lemma NoSession()
      requires leases == old(leases)
      requires forall k :: k in leases ==> unchanged(leases[k])
      ensures State() == old(State()).(mute := mute, declined := declined)
    {
      assert forall k :: k in leases ==> leases[k].State() == old(leases[k].State());
    }

    /** This session's lease, made on first use. */
    method LeaseFor(key: B.Key) returns (lease: Leases.Lease)
      requires Valid()
      modifies this`leases
      ensures Valid() && key in leases && leases[key] == lease
      ensures key in old(leases) ==> leases == old(leases)
      ensures key !in old(leases) ==> fresh(lease) && leases == old(leases)[key := lease]
      ensures lease.State() == B.LeaseAt(old(State()), key)
      ensures State() == B.With(old(State()), key, lease.State())
    {
      hide Leases.Lease.State;
      if key !in leases {
        var made := new Leases.Lease(policy);
        leases := leases[key := made];
        NewSession(key, made);
      }
      lease := leases[key];
    }

    // -------------------------------------------------------------- one session

    /** Elapsed time on one lease: at most two transitions, what moved and the
        handover it led to. */
    method TickInto(lease: Leases.Lease, now: Instant) returns (ts: seq<Transition>)
      modifies lease
      ensures B.Done(lease.State(), ts, None) == B.TickInto(old(lease.State()), now)
    {
      var ticked := lease.Tick(now);
      ts := [];
      if ticked.Changed() || ticked.MustRelease() {
        ts := [ticked];
      }
      ts := ConfirmInto(lease, ts, now);
    }

    method ConfirmInto(lease: Leases.Lease, ts: seq<Transition>, now: Instant) returns (out: seq<Transition>)
      modifies lease
      ensures forall refusal ::
                B.Done(lease.State(), out, refusal) == B.ConfirmInto(B.Done(old(lease.State()), ts, refusal), now)
    {
      out := ts;
      if lease.phase == HandingOver {
        var t := lease.ConfirmRelease(now);
        out := out + [t];
      }
    }

    method HeldError(lease: Leases.Lease) returns (error: LeaseError)
      ensures error == B.HeldError(lease.State())
    {
      if lease.holder.Some? {
        return HeldElsewhere(lease.holder.value.party.kind);
      }
      var status := lease.StatusAt(0);
      error := ForceReleased(if status.refusedForMs.Some? then status.refusedForMs.value else 0);
    }

    method Status(key: B.Key, now: Instant) returns (answer: B.Answer)
      requires Valid()
      modifies this`leases, leases.Values
      ensures Valid()
      ensures var d := B.TickInto(B.LeaseAt(old(State()), key), now);
        State() == B.With(old(State()), key, d.lease) && answer == d.Answered(now)
    {
      var lease := LeaseFor(key);
      label Before:
      var ts := TickInto(lease, now);
      var status := lease.StatusAt(now);
      answer := B.Answer(ts, status, None);
      OnlyThisSession@Before(key);
      WithTwice(old(State()), key, old@Before(lease.State()), lease.State());
    }

    method Release(key: B.Key, id: PartyId, now: Instant) returns (answer: B.Answer)
      requires Valid()
      modifies this`leases, leases.Values
      ensures Valid()
      ensures key in old(leases) ==> leases == old(leases)
      ensures var d := B.ReleaseOp(B.LeaseAt(old(State()), key), id, now);
        State() == B.With(old(State()), key, d.lease) && answer == d.Answered(now)
    {
      var lease := LeaseFor(key);
      label Before:
      answer := ReleaseAt(lease, id, now);
      OnlyThisSession@Before(key);
      WithTwice(old(State()), key, old@Before(lease.State()), lease.State());
    }

    method ReleaseAt(lease: Leases.Lease, id: PartyId, now: Instant) returns (answer: B.Answer)
      modifies lease
      ensures lease.State() == B.ReleaseOp(old(lease.State()), id, now).lease
      ensures answer == B.ReleaseOp(old(lease.State()), id, now).Answered(now)
    {
      var ts := TickInto(lease, now);
      if lease.holder.Some? && lease.holder.value.party.id == id {
        var t := lease.Release(id, lease.holder.value.leaseId, now);
        ts := ts + [t];
      }
      var t := lease.CancelWait(id, now);
      ts := ts + [t];
      ts := ConfirmInto(lease, ts, now);
      var status := lease.StatusAt(now);
      answer := B.Answer(ts, status, None);
    }

    method Input(key: B.Key, party: Party, now: Instant) returns (answer: B.Answer)
      requires Valid()
      modifies this`leases, leases.Values
      ensures Valid()
      ensures var d := B.InputOp(B.LeaseAt(old(State()), key), party, now);
        State() == B.With(old(State()), key, d.lease) && answer == d.Answered(now)
    {
      var lease := LeaseFor(key);
      label Before:
      answer := InputAt(lease, party, now);
      OnlyThisSession@Before(key);
      WithTwice(old(State()), key, old@Before(lease.State()), lease.State());
    }

    method InputAt(lease: Leases.Lease, party: Party, now: Instant) returns (answer: B.Answer)
      modifies lease
      ensures lease.State() == B.InputOp(old(lease.State()), party, now).lease
      ensures answer == B.InputOp(old(lease.State()), party, now).Answered(now)
    {
      var ts := TickInto(lease, now);
      if lease.phase == Unheld {
        var asked := lease.Acquire(party, false, now);
        match asked {
          case Ok(t) =>
            ts := ConfirmInto(lease, ts + [t], now);
          case Err(error) =>
            var status := lease.StatusAt(now);
            return B.Answer(ts, status, Some(error));
        }
      }
      var refusal: Option<LeaseError> := None;
      if lease.Fence(party.id) == Allowed {
        lease.NoteIntent(party.id, now);
      } else {
        var error := HeldError(lease);
        refusal := Some(error);
      }
      var status := lease.StatusAt(now);
      answer := B.Answer(ts, status, refusal);
    }

    method PersonInput(key: B.Key, person: Party, now: Instant) returns (answer: B.Answer)
      requires Valid()
      modifies this`leases, leases.Values
      ensures Valid()
      ensures var d := B.PersonInputOp(B.LeaseAt(old(State()), key), person, now);
        State() == B.With(old(State()), key, d.lease) && answer == d.Answered(now)
    {
      var lease := LeaseFor(key);
      label Before:
      answer := PersonInputAt(lease, person, now);
      OnlyThisSession@Before(key);
      WithTwice(old(State()), key, old@Before(lease.State()), lease.State());
    }

    method PersonInputAt(lease: Leases.Lease, person: Party, now: Instant) returns (answer: B.Answer)
      modifies lease
      ensures lease.State() == B.PersonInputOp(old(lease.State()), person, now).lease
      ensures answer == B.PersonInputOp(old(lease.State()), person, now).Answered(now)
    {
      var ts := TickInto(lease, now);
      var asked := lease.Acquire(person, false, now);
      if asked.Ok? {
        ts := ConfirmInto(lease, ts + [asked.value], now);
      }
      lease.NoteIntent(person.id, now);
      var status := lease.StatusAt(now);
      answer := B.Answer(ts, status, None);
    }

    method YieldTo(key: B.Key, id: PartyId, person: PartyId, now: Instant) returns (answer: B.Answer)
      requires Valid()
      modifies this`leases, leases.Values
      ensures Valid()
      ensures var d := B.YieldOp(B.LeaseAt(old(State()), key), id, person, now);
        State() == B.With(old(State()), key, d.lease) && answer == d.Answered(now)
    {
      var lease := LeaseFor(key);
      label Before:
      answer := YieldAt(lease, id, person, now);
      OnlyThisSession@Before(key);
      WithTwice(old(State()), key, old@Before(lease.State()), lease.State());
    }

    method YieldAt(lease: Leases.Lease, id: PartyId, person: PartyId, now: Instant) returns (answer: B.Answer)
      modifies lease
      ensures lease.State() == B.YieldOp(old(lease.State()), id, person, now).lease
      ensures answer == B.YieldOp(old(lease.State()), id, person, now).Answered(now)
    {
      var ts := TickInto(lease, now);
      var waiting := lease.Promote(id);
      if !waiting {
        var status := lease.StatusAt(now);
        return B.Answer(ts, status, Some(HeldElsewhere(Human)));
      }
      var t := lease.CancelWait(person, now);
      ts := ts + [t];
      if lease.holder.Some? && lease.holder.value.party.id == person {
        t := lease.Release(person, lease.holder.value.leaseId, now);
        ts := ts + [t];
      }
      ts := ConfirmInto(lease, ts, now);
      var status := lease.StatusAt(now);
      answer := B.Answer(ts, status, None);
    }

    method NotNow(key: B.Key, id: PartyId, now: Instant) returns (answer: B.Answer)
      requires Valid()
      modifies this, leases.Values
      ensures Valid()
      ensures var d := B.NotNowOp(B.LeaseAt(old(State()), key), id, now);
        && State() == B.With(B.DeclinedBy(old(State()), key, id, now), key, d.lease)
        && answer == d.Answered(now)
    {
      declined := declined[(key, id) := Plus(now, B.NOT_NOW_MS)];
      assert State() == B.DeclinedBy(old(State()), key, id, now);
      var lease := LeaseFor(key);
      label Before:
      answer := NotNowAt(lease, id, now);
      OnlyThisSession@Before(key);
      WithTwice(B.DeclinedBy(old(State()), key, id, now), key, old@Before(lease.State()), lease.State());
    }

    method NotNowAt(lease: Leases.Lease, id: PartyId, now: Instant) returns (answer: B.Answer)
      modifies lease
      ensures lease.State() == B.NotNowOp(old(lease.State()), id, now).lease
      ensures answer == B.NotNowOp(old(lease.State()), id, now).Answered(now)
    {
      var ts := TickInto(lease, now);
      var t := lease.CancelWait(id, now);
      ts := ts + [t];
      var status := lease.StatusAt(now);
      answer := B.Answer(ts, status, Some(LeaseError.NotNow(B.NOT_NOW_MS)));
    }

    // -------------------------------------------------------------- asking

    method PersonHolds(key: B.Key, now: Instant) returns (r: bool)
      ensures r <==> B.PersonHoldsAt(State(), key, now)
    {
      if key !in leases {
        return false;
      }
      var status := leases[key].StatusAt(now);
      r := status.PersonHolds();
    }

    method PersonHoldsAny(now: Instant) returns (r: bool)
      ensures r <==> B.PersonHoldsAny(State(), now)
    {
      var rest := leases.Keys;
      while rest != {}
        invariant rest <= leases.Keys
        invariant forall key :: key in leases && key !in rest ==> !B.PersonHoldsAt(State(), key, now)
        decreases |rest|
      {
        var key :| key in rest;
        var holds := PersonHolds(key, now);
        if holds {
          return true;
        }
        rest := rest - {key};
      }
      r := false;
    }

    method Muted(now: Instant) returns (r: Option<B.MuteUntil>)
      ensures r == B.MutedAt(State(), now)
    {
      match mute {
        case None => r := None;
        case Some(At(until)) => r := if Reached(now, until) then None else mute;
        case Some(PersonIdle) =>
          var any := PersonHoldsAny(now);
          r := if any then mute else None;
      }
    }

    method MuteLeft(key: B.Key, now: Instant) returns (r: Option<Millis>)
      ensures r == B.MuteLeft(State(), key, now)
    {
      var muted := Muted(now);
      match muted {
        case None => r := None;
        case Some(At(until)) => r := Some(Since(until, now));
        case Some(PersonIdle) =>
          r := Some(policy.personIdleMs);
          if key in leases {
            var status := leases[key].StatusAt(now);
            if status.changesInMs.Some? {
              r := status.changesInMs;
            }
          }
      }
    }

    method NotNowLeft(key: B.Key, id: PartyId, now: Instant) returns (r: Option<Millis>)
      ensures r == B.NotNowLeft(State(), key, id, now)
    {
      r := None;
      if (key, id) in declined && !Reached(now, declined[(key, id)]) {
        r := Some(Since(declined[(key, id)], now));
      }
    }

    /** The refusal a person's standing answer gives this agent, if any. */
    method Gate(key: B.Key, party: Party, now: Instant) returns (gate: Option<LeaseError>)
      ensures gate == B.Gate(State(), key, party, now)
    {
      gate := None;
      var held := PersonHolds(key, now);
      if !party.kind.IsPerson() && held {
        var muteLeft := MuteLeft(key, now);
        if muteLeft.Some? {
          return Some(LeaseError.Muted(muteLeft.value));
        }
        var notNowLeft := NotNowLeft(key, party.id, now);
        if notNowLeft.Some? {
          return Some(LeaseError.NotNow(notNowLeft.value));
        }
      }
    }

    method Ask(key: B.Key, party: Party, now: Instant) returns (answer: B.Answer)
      requires Valid()
      modifies this`leases, leases.Values
      ensures Valid()
      ensures B.OneAnswer(State(), key, answer) == B.Ask(old(State()), key, party, now)
    {
      hide B.TickInto, B.AskOp, B.Gate, L.StatusOf;
      var lease := LeaseFor(key);
      label Before:
      var ts := TickInto(lease, now);
      OnlyThisSession@Before(key);
      WithTwice(old(State()), key, old@Before(lease.State()), lease.State());
      label Ticked:
      var gate := Gate(key, party, now);
      answer := AskAt(lease, ts, party, gate, now);
      OnlyThisSession@Ticked(key);
      WithTwice(old(State()), key, old@Ticked(lease.State()), lease.State());
    }

    method AskAt(lease: Leases.Lease, ts: seq<Transition>, party: Party, gate: Option<LeaseError>, now: Instant)
      returns (answer: B.Answer)
      modifies lease
      ensures lease.State() == B.AskOp(B.Done(old(lease.State()), ts, None), party, gate, now).lease
      ensures answer == B.AskOp(B.Done(old(lease.State()), ts, None), party, gate, now).Answered(now)
    {
      if gate.Some? {
        var t := lease.CancelWait(party.id, now);
        var status := lease.StatusAt(now);
        return B.Answer(ts + [t], status, gate);
      }
      var out := ts;
      var refusal: Option<LeaseError> := None;
      var asked := lease.Acquire(party, true, now);
      match asked {
        case Ok(t) => out := ConfirmInto(lease, out + [t], now);
        case Err(error) => refusal := Some(error);
      }
      var status := lease.StatusAt(now);
      answer := B.Answer(out, status, refusal);
    }

    // -------------------------------------------------------------- every session

    method Unmute()
      modifies this`mute
      ensures State() == old(State()).(mute := None)
    {
      mute := None;
    }

    method Remove(key: B.Key)
      requires Valid()
      modifies this`leases
      ensures Valid()
      ensures State() == B.Apply(old(State()), B.TimedCall(B.DoRemove(key), 0)).board
    {
      leases := leases - {key};
    }

    method ForgetParty(id: PartyId, now: Instant) returns (out: map<B.Key, seq<B.Answer>>)
      requires Valid()
      modifies this`leases, leases.Values
      ensures Valid()
      ensures B.Moved(State(), out) == B.ForgetParty(old(State()), id, now)
    {
      hide B.ReleaseOp, L.StatusOf, B.TickInto;
      ghost var was := State();
      ghost var done := B.AllReleased(was.leases, id, now);
      ghost var after := B.LeasesOf(done);
      FromStartToEnd(was.leases, after);
      out := map[];
      var rest := leases.Keys;
      while rest != {}
        invariant Valid() && leases == old(leases) && rest <= leases.Keys
        invariant State() == was.(leases := PartWay(was.leases, after, rest))
        invariant out == B.AnsweredSoFar(done, rest, now)
        decreases |rest|
      {
        var key :| key in rest;
        OneMore(was.leases, after, rest, key);
        OneMoreAnswer(done, rest, key, now);
        assert B.LeaseAt(State(), key) == was.leases[key];
        var answer := Release(key, id, now);
        assert answer == done[key].Answered(now);
        out := B.WhereMoved(out, key, answer);
        rest := rest - {key};
      }
    }

    method TickAll(now: Instant) returns (out: map<B.Key, seq<B.Answer>>)
      requires Valid()
      modifies this, leases.Values
      ensures Valid()
      ensures B.Moved(State(), out) == B.TickAll(old(State()), now)
    {
      declined := B.StillDeclined(declined, now);
      NoSession();
      out := TickEvery(now);
      label Ticked:
      var muted := Muted(now);
      if muted.None? {
        mute := None;
      }
      NoSession@Ticked();
    }

    method TickOne(key: B.Key, now: Instant) returns (answer: B.Answer)
      requires Valid() && key in leases
      modifies leases.Values
      ensures Valid()
      ensures State() == B.With(old(State()), key, B.TickInto(old(State()).leases[key], now).lease)
      ensures answer == B.TickInto(old(State()).leases[key], now).Answered(now)
    {
      var ts := TickInto(leases[key], now);
      var status := leases[key].StatusAt(now);
      answer := B.Answer(ts, status, None);
      OnlyThisSession(key);
    }

    method TickEvery(now: Instant) returns (out: map<B.Key, seq<B.Answer>>)
      requires Valid()
      modifies leases.Values
      ensures Valid()
      ensures State() == old(State()).(leases := B.LeasesOf(B.AllTicked(old(State()).leases, now)))
      ensures out == B.AnsweredSoFar(B.AllTicked(old(State()).leases, now), {}, now)
    {
      hide B.TickInto, L.StatusOf;
      ghost var was := State();
      ghost var done := B.AllTicked(was.leases, now);
      ghost var after := B.LeasesOf(done);
      FromStartToEnd(was.leases, after);
      out := map[];
      var rest := leases.Keys;
      while rest != {}
        invariant Valid() && rest <= leases.Keys
        invariant State() == was.(leases := PartWay(was.leases, after, rest))
        invariant out == B.AnsweredSoFar(done, rest, now)
        decreases |rest|
      {
        var key :| key in rest;
        OneMore(was.leases, after, rest, key);
        OneMoreAnswer(done, rest, key, now);
        var answer := TickOne(key, now);
        assert answer == done[key].Answered(now);
        out := B.WhereMoved(out, key, answer);
        rest := rest - {key};
      }
    }

    /** Mute requests, and take the agents already asking out of line. */
    method Mute(until: B.MuteUntil, now: Instant) returns (out: map<B.Key, seq<B.Answer>>)
      requires Valid()
      modifies this, leases.Values
      ensures Valid()
      ensures B.Moved(State(), out) == B.DropAll(old(State()).(mute := Some(until)), now)
    {
      mute := Some(until);
      NoSession();
      out := DropRequests(now);
    }

    method DropOne(key: B.Key, now: Instant) returns (answers: seq<B.Answer>)
      requires Valid() && key in leases
      modifies leases.Values
      ensures Valid()
      ensures State() == B.With(old(State()), key, B.AllDropped(old(State()).leases[key], now).lease)
      ensures answers == B.AllDropped(old(State()).leases[key], now).answers
    {
      var asked := RequestsFor(leases[key], now);
      answers := DropRequestsAt(leases[key], asked, now);
      OnlyThisSession(key);
    }

    method DropRequests(now: Instant) returns (out: map<B.Key, seq<B.Answer>>)
      requires Valid()
      modifies leases.Values
      ensures Valid()
      ensures B.Moved(State(), out) == B.DropAll(old(State()), now)
    {
      hide B.AllDropped, L.StatusOf;
      ghost var was := State();
      ghost var after := B.DropAll(was, now).board.leases;
      FromStartToEnd(was.leases, after);
      out := map[];
      var rest := leases.Keys;
      while rest != {}
        invariant Valid() && rest <= leases.Keys
        invariant State() == was.(leases := PartWay(was.leases, after, rest))
        invariant out == B.DroppedSoFar(was.leases, rest, now)
        decreases |rest|
      {
        var key :| key in rest;
        OneMore(was.leases, after, rest, key);
        OneMoreDropped(was.leases, rest, key, now);
        var answers := DropOne(key, now);
        if answers != [] {
          out := out[key := answers];
        }
        rest := rest - {key};
      }
    }

    method RequestsFor(lease: Leases.Lease, now: Instant) returns (asked: seq<Keyed<PartyId>>)
      ensures asked == B.Requests(lease.State(), now)
    {
      var status := lease.StatusAt(now);
      if !status.PersonHolds() {
        return [];
      }
      asked := SortDescending(B.WaitingAgents(lease.queue, now));
    }

    method DropRequestsAt(lease: Leases.Lease, asked: seq<Keyed<PartyId>>, now: Instant)
      returns (answers: seq<B.Answer>)
      modifies lease
      ensures lease.State() == B.DropRequests(old(lease.State()), asked, now).lease
      ensures answers == B.DropRequests(old(lease.State()), asked, now).answers
    {
      hide L.CancelWait, L.StatusOf, Leases.Lease.State;
      answers := [];
      var i := 0;
      assert asked[0..] == asked;
      while i < |asked|
        invariant 0 <= i <= |asked|
        invariant B.DropRequests(lease.State(), asked[i..], now).lease
               == B.DropRequests(old(lease.State()), asked, now).lease
        invariant answers + B.DropRequests(lease.State(), asked[i..], now).answers
               == B.DropRequests(old(lease.State()), asked, now).answers
      {
        assert asked[i..][1..] == asked[i + 1..];
        var t := lease.CancelWait(asked[i].value, now);
        var status := lease.StatusAt(now);
        answers := answers + [B.Answer([t], status, None)];
        i := i + 1;
      }
    }
  }
}
