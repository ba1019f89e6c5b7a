/** How far a plan goes and what its settlement says of it, whatever happens on the
    way (crates/agent-plane/src/dispatch.rs:344-402, 798-885). */
module WalkSafety {
  import opened Geometry
  import opened Lowering
  import opened Dispatching
  import opened DragSafety

  /** Nothing stops the plan at this command: it is not cancelled, the lease lets it
      through, and the channel takes it or it is one that may be shed. */
  predicate Passes(step: Step, turn: Turn, needsLease: bool) {
    && !turn.cancelled && (needsLease ==> turn.allowed)
    && (turn.channel.HasRoom? || (turn.channel.StaysFull? && step.policy.Shed?))
  }

  /** Nothing stops it in the pause after this command. */
  predicate PauseHolds(step: Step, turn: Turn) {
    step.pause == 0 || !turn.cancelledInPause
  }

  /** The first `n` commands were all tried: none stopped the plan, nor did a pause. */
  predicate AllPass(steps: seq<Step>, turns: seq<Turn>, needsLease: bool, n: nat)
    requires n <= |steps| == |turns|
  {
    forall k :: 0 <= k < n ==> Passes(steps[k], turns[k], needsLease) && PauseHolds(steps[k], turns[k])
  }

  /** A plan goes on if and only if nothing stopped it so far. */
  lemma {:induction false} GoesOnExactly(steps: seq<Step>, turns: seq<Turn>, needsLease: bool, n: nat)
    requires n <= |steps| == |turns|
    ensures Walked(steps, turns, needsLease, n).stop.Finished? <==> AllPass(steps, turns, needsLease, n)
  {
    hide Walk.Record;
    if n > 0 {
      GoesOnExactly(steps, turns, needsLease, n - 1);
    }
  }

  /** Why a plan stopped where it did, told by what happened there. */
  predicate StoppedFor(stop: Stop, step: Step, turn: Turn, needsLease: bool) {
    if turn.cancelled then stop == Cancelled
    else if needsLease && !turn.allowed then stop == Superseded
    else if turn.channel.Closed? then stop == GoneStop
    else if turn.channel.StaysFull? && !step.policy.Shed? then stop == BlockedStop
    else stop == Cancelled && step.pause > 0 && turn.cancelledInPause
  }

  /** The commands of a plan that went, of those tried: each had room. */
  predicate Went(steps: seq<Step>, turns: seq<Turn>, tried: nat, sent: seq<Step>)
    requires tried <= |steps| == |turns|
    decreases tried
  {
    if tried == 0 then sent == []
    else if turns[tried - 1].channel.HasRoom? then
      && sent != [] && sent[|sent| - 1] == steps[tried - 1]
      && Went(steps, turns, tried - 1, sent[..|sent| - 1])
    else Went(steps, turns, tried - 1, sent)
  }

  lemma {:induction false} FirstStop(steps: seq<Step>, turns: seq<Turn>, needsLease: bool, n: nat) returns (at: nat)
    requires n <= |steps| == |turns| && !AllPass(steps, turns, needsLease, n)
    ensures at < n && AllPass(steps, turns, needsLease, at)
    ensures !(Passes(steps[at], turns[at], needsLease) && PauseHolds(steps[at], turns[at]))
  {
    hide Passes, PauseHolds;
    if AllPass(steps, turns, needsLease, n - 1) {
      at := n - 1;
    } else {
      at := FirstStop(steps, turns, needsLease, n - 1);
    }
  }

  /** A plan stops at the first command something stops it at. What went is exactly
      the commands before it that found room, in order; every other was shed; and the
      stop says what happened there. */
  lemma StopsExactly(steps: seq<Step>, turns: seq<Turn>, needsLease: bool, n: nat) returns (at: nat)
    requires n <= |steps| == |turns| && !AllPass(steps, turns, needsLease, n)
    ensures at < n && AllPass(steps, turns, needsLease, at)
    ensures !(Passes(steps[at], turns[at], needsLease) && PauseHolds(steps[at], turns[at]))
    ensures var j := Walked(steps, turns, needsLease, n);
      var tried := if Passes(steps[at], turns[at], needsLease) then at + 1 else at;
      && StoppedFor(j.stop, steps[at], turns[at], needsLease)
      && Went(steps, turns, tried, j.sent) && |j.sent| + j.shed == tried && j.stoppedAt == tried
  {
    at := FirstStop(steps, turns, needsLease, n);
    TriedSoFar(steps, turns, needsLease, at);
    StopsHere(Walked(steps, turns, needsLease, at), steps, turns, needsLease, at);
    OneFurther(steps, turns, needsLease, at);
    var j := Walked(steps, turns, needsLease, at + 1);
    assert !j.stop.Finished? by {
      StoppedIsNotFinished(j.stop, steps[at], turns[at], needsLease);
    }
    StoppedStays(steps, turns, needsLease, at + 1, n);
    hide Walked, OneStep, AllPass, Passes, PauseHolds, StoppedFor, Went;
  }

  lemma OneFurther(steps: seq<Step>, turns: seq<Turn>, needsLease: bool, at: nat)
    requires at < |steps| == |turns| && Walked(steps, turns, needsLease, at).stop.Finished?
    ensures Walked(steps, turns, needsLease, at + 1) ==
      OneStep(Walked(steps, turns, needsLease, at), steps[at], turns[at], needsLease, at)
  {
    hide OneStep;
  }

  lemma StoppedIsNotFinished(stop: Stop, step: Step, turn: Turn, needsLease: bool)
    requires StoppedFor(stop, step, turn, needsLease)
    ensures !stop.Finished?
  {
  }

  lemma StopsHere(j: Journey, steps: seq<Step>, turns: seq<Turn>, needsLease: bool, at: nat)
    requires at < |steps| == |turns| && j.stop.Finished?
    requires Went(steps, turns, at, j.sent) && |j.sent| + j.shed == at
    requires !(Passes(steps[at], turns[at], needsLease) && PauseHolds(steps[at], turns[at]))
    ensures var after := OneStep(j, steps[at], turns[at], needsLease, at);
      var tried := if Passes(steps[at], turns[at], needsLease) then at + 1 else at;
      && StoppedFor(after.stop, steps[at], turns[at], needsLease)
      && Went(steps, turns, tried, after.sent) && |after.sent| + after.shed == tried && after.stoppedAt == tried
  {
    hide Walk.Record;
  }

  /** While nothing stops the plan, what went is what found room, and the rest was shed. */
  lemma {:induction false} TriedSoFar(steps: seq<Step>, turns: seq<Turn>, needsLease: bool, n: nat)
    requires n <= |steps| == |turns| && AllPass(steps, turns, needsLease, n)
    ensures var j := Walked(steps, turns, needsLease, n);
      j.stop.Finished? && Went(steps, turns, n, j.sent) && |j.sent| + j.shed == n
  {
    hide Walk.Record;
    if n > 0 {
      assert AllPass(steps, turns, needsLease, n - 1);
      TriedSoFar(steps, turns, needsLease, n - 1);
    }
  }

  /** A plan's walk is the record of what went, shed commands or not. */
  lemma {:induction false} WalkIsTheRecord(steps: seq<Step>, turns: seq<Turn>, needsLease: bool, n: nat)
    requires n <= |steps| == |turns|
    ensures Walked(steps, turns, needsLease, n).walk == RecordAll(Walked(steps, turns, needsLease, n).sent)
  {
    hide Walk.Record;
    if n > 0 {
      WalkIsTheRecord(steps, turns, needsLease, n - 1);
    }
  }

  /** What the settlement of a plan that is no drag says: the code points that went,
      or else how many commands did, or that none did; how many were shed; how many
      never went for lack of room or of a session; and the outcome by what stopped it. */
  lemma SettlementCounts(steps: seq<Step>, turns: seq<Turn>, needsLease: bool, start: Pointer, resting: ButtonMask)
    requires |turns| == |steps|
    ensures var j := Walked(steps, turns, needsLease, |steps|);
      var s := SettledAs(j, |steps|, start, resting, needsLease, false);
      var typed := CountMarks(j.sent, m => m == CodePoint);
      && s.progress == (if typed > 0 then CodePoints(Min(typed, U32_MAX))
                        else if j.sent == [] then NoProgress else Delivered(Min(|j.sent|, U32_MAX)))
      && s.delivered == Min(|j.sent|, U32_MAX) && s.shed == j.shed
      && s.dropped == (if j.stop.BlockedStop? || j.stop.GoneStop? then |steps| - |j.sent| - j.shed else 0)
      && (s.outcome == WasCancelled <==> j.stop.Cancelled?)
      && (s.outcome == LinkLost <==> j.stop.GoneStop?)
      && (s.outcome == WasSuperseded(s.progress) <==> j.stop.Superseded?)
      && (s.outcome == Done(true) <==> j.stop.Finished?)
      && (s.outcome == RefusedUnsent <==> j.stop.BlockedStop? && j.sent == [])
  {
    var j := Walked(steps, turns, needsLease, |steps|);
    WalkIsTheRecord(steps, turns, needsLease, |steps|);
    CountsAreWhatWent(j.sent);
    GoesOnExactly(steps, turns, needsLease, |steps|);
    if AllPass(steps, turns, needsLease, |steps|) {
      TriedSoFar(steps, turns, needsLease, |steps|);
    } else {
      var at := StopsExactly(steps, turns, needsLease, |steps|);
    }
    hide Walked, RecordAll, AllPass, Passes;
  }
}
