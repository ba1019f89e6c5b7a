/** Walking a plan onto the wire, and the release a cut drag owes
    (crates/agent-plane/src/dispatch.rs:344-402, 798-885, 1588-1659). */
module Dispatching {
  import opened Geometry
  import opened Lowering
  import opened Wrappers

  /** The state of the session's channel when one command wants to go. */
  datatype Channel = HasRoom | StaysFull | Closed

  /** What became of one command. */
  datatype StepResult = Sent | Shed | Blocked | Gone

  /** A command that finds no room is shed, blocks until the deadline, or finds
      the session gone, by its policy. */
  function SendStep(policy: SendPolicy, channel: Channel): StepResult {
    match channel
    case HasRoom => Sent
    case StaysFull => if policy.Shed? then StepResult.Shed else Blocked
    case Closed => Gone
  }

  /** Everything the environment decides around one command: a cancellation seen
      before it, whether the lease still lets it through, the channel, and a
      cancellation during the pause after it. */
  datatype Turn = Turn(cancelled: bool, allowed: bool, channel: Channel, cancelledInPause: bool)

  const U32_MAX := 0xFFFF_FFFF

  /** What the commands that went so far add up to. */
  datatype Walk = Walk(
    delivered: nat, codePoints: nat, dragHeld: bool, dragPoints: nat, dragAt: Option<Point>, releaseSynthesised: bool)
  {
    function Record(step: Step): Walk {
      var w := this.(delivered := if delivered < U32_MAX then delivered + 1 else delivered);
      match step.mark
      case Plain => w
      case CodePoint => w.(codePoints := if codePoints < U32_MAX then codePoints + 1 else codePoints)
      case DragPress => w.(dragHeld := true)
      case DragPoint(at) =>
        w.(dragPoints := if dragPoints < U16_MAX then dragPoints + 1 else dragPoints, dragAt := Some(at))
      case DragRelease => w.(dragHeld := false, dragAt := None)
    }

    function Progress(wasDrag: bool): Progress {
      if wasDrag then
        DragProgress(if dragAt.Some? then dragAt.value else Point(0, 0), dragPoints, releaseSynthesised)
      else if codePoints > 0 then CodePoints(codePoints)
      else if delivered == 0 then NoProgress
      else Delivered(delivered)
    }
  }

  const START := Walk(0, 0, false, 0, None, false)

  datatype Progress =
    | NoProgress
    | CodePoints(n: nat)
    | DragProgress(releasedAt: Point, pointsDelivered: nat, releaseSynthesised: bool)
    | Delivered(n: nat)

  datatype Stop = Finished | Cancelled | Superseded | BlockedStop | GoneStop

  /** A plan after some of its commands: what went out, what was shed, and where
      and why it stopped. */
  datatype Journey = Journey(sent: seq<Step>, walk: Walk, shed: nat, stop: Stop, stoppedAt: nat)
  {
    /** Commands that never reached the session for lack of room. */
    function Dropped(total: nat): nat
      requires stoppedAt <= total
    {
      if stop.BlockedStop? || stop.GoneStop? then total - stoppedAt else 0
    }
  }

  function OneStep(j: Journey, step: Step, turn: Turn, needsLease: bool, index: nat): Journey {
    if turn.cancelled then j.(stop := Cancelled, stoppedAt := index)
    else if needsLease && !turn.allowed then j.(stop := Superseded, stoppedAt := index)
    else
      match SendStep(step.policy, turn.channel)
      case Blocked => j.(stop := BlockedStop, stoppedAt := index)
      case Gone => j.(stop := GoneStop, stoppedAt := index)
      case Sent => Paused(j.(sent := j.sent + [step], walk := j.walk.Record(step)), step, turn, index)
      case Shed => Paused(j.(shed := j.shed + 1), step, turn, index)
  }

  /** After a command with a pause a cancellation stops the plan there. */
  function Paused(j: Journey, step: Step, turn: Turn, index: nat): Journey {
    if step.pause > 0 && turn.cancelledInPause then j.(stop := Cancelled, stoppedAt := index + 1) else j
  }

  /** The journey through the first `n` commands of a plan. */
  function Walked(steps: seq<Step>, turns: seq<Turn>, needsLease: bool, n: nat): (j: Journey)
    requires n <= |steps| == |turns|
    ensures j.stoppedAt <= |steps|
  {
    if n == 0 then Journey([], START, 0, Finished, |steps|)
    else
      var before := Walked(steps, turns, needsLease, n - 1);
      if before.stop != Finished then before else OneStep(before, steps[n - 1], turns[n - 1], needsLease, n - 1)
  }

  /** What the limb was last told about the pointer. */
  datatype Pointer = Pointer(at: Point, mask: ButtonMask)

  function PointerAfter(start: Pointer, sent: seq<Step>): Pointer {
    if sent == [] then start else Pointer(sent[|sent| - 1].at, sent[|sent| - 1].mask)
  }

  /** What the caller is told, without its wording. */
  datatype Outcome =
    | WasCancelled
    | LinkLost
    | WasSuperseded(progress: Progress)
    | RefusedUnsent
    | Done(delivered: bool)

  /** A plan that was blocked is refused when nothing of it went, and done without
      being delivered when some of it did. */
  function OutcomeOf(stop: Stop, delivered: nat, progress: Progress): Outcome {
    match stop
    case Cancelled => WasCancelled
    case GoneStop => LinkLost
    case Superseded => WasSuperseded(progress)
    case BlockedStop => if delivered == 0 then RefusedUnsent else Done(false)
    case Finished => Done(true)
  }

  /** What a dispatch settles with, and whether it counts as the holder's input. */
  datatype Settled = Settled(
    outcome: Outcome, progress: Progress, dropped: nat, shed: nat, delivered: nat, notesIntent: bool)

  /** The release owed for a button the walk left down. */
  function Repair(walk: Walk, last: Point, resting: ButtonMask): Step {
    Step(if walk.dragAt.Some? then walk.dragAt.value else last, resting, Jump, 0, DragRelease)
  }

  function Repaired(walk: Walk, repair: Step): Walk {
    walk.(dragAt := Some(repair.at), releaseSynthesised := true)
  }

  /** One limb: the last pointer command the plane sent it, and everything sent. */
  class Limb {
    const restingMask: ButtonMask
    var lastPoint: Point
    var lastMask: ButtonMask
    var wire: seq<Step>

    constructor (restingMask: ButtonMask, at: Point)
      ensures this.restingMask == restingMask && lastPoint == at && lastMask == restingMask && wire == []
    {
      this.restingMask := restingMask;
      lastPoint := at;
      lastMask := restingMask;
      wire := [];
    }

    function Told(): Pointer
      reads this
    {
      Pointer(lastPoint, lastMask)
    }

    /** One command: on the wire and remembered exactly when the channel takes it. */
    method Send(step: Step, channel: Channel) returns (result: StepResult)
      modifies this
      ensures result == SendStep(step.policy, channel)
      ensures wire == old(wire) + (if result.Sent? then [step] else [])
      ensures Told() == if result.Sent? then Pointer(step.at, step.mask) else old(Told())
    {
      result := SendStep(step.policy, channel);
      if result.Sent? {
        wire := wire + [step];
        lastPoint := step.at;
        lastMask := step.mask;
      }
    }

    /** Walk a plan onto the wire, asking again before every command. */
    method WalkPlan(steps: seq<Step>, turns: seq<Turn>, needsLease: bool) returns (j: Journey)
      requires |turns| == |steps|
      modifies this
      ensures j == Walked(steps, turns, needsLease, |steps|)
      ensures wire == old(wire) + j.sent && Told() == PointerAfter(old(Told()), j.sent)
    {
      hide Walk.Record, OneStep;
      var sent: seq<Step>, walk, shed := [], START, 0;
      for index := 0 to |steps|
        invariant Walked(steps, turns, needsLease, index) == Journey(sent, walk, shed, Finished, |steps|)
        invariant wire == old(wire) + sent && Told() == PointerAfter(old(Told()), sent)
      {
        var step, turn := steps[index], turns[index];
        StepCases(Journey(sent, walk, shed, Finished, |steps|), step, turn, needsLease, index);
        StoppedStays(steps, turns, needsLease, index + 1, |steps|);
        if turn.cancelled {
          return Journey(sent, walk, shed, Cancelled, index);
        }
        if needsLease && !turn.allowed {
          return Journey(sent, walk, shed, Superseded, index);
        }
        var result := Send(step, turn.channel);
        match result {
          case Sent =>
            walk := walk.Record(step);
            sent := sent + [step];
          case Shed =>
            shed := shed + 1;
          case Blocked =>
            return Journey(sent, walk, shed, BlockedStop, index);
          case Gone =>
            return Journey(sent, walk, shed, GoneStop, index);
        }
        if step.pause > 0 && turn.cancelledInPause {
          return Journey(sent, walk, shed, Cancelled, index + 1);
        }
      }
      return Journey(sent, walk, shed, Finished, |steps|);
    }

    /** Dispatch a plan, and let go of a button a cut drag left down. */
    method Actuate(steps: seq<Step>, turns: seq<Turn>, repairChannel: Channel, needsLease: bool, wasDrag: bool)
        returns (settled: Settled)
      requires |turns| == |steps|
      modifies this
      ensures var j := Walked(steps, turns, needsLease, |steps|);
              var all := j.sent + Repairs(j, old(Told()), restingMask, repairChannel);
              && wire == old(wire) + all && Told() == PointerAfter(old(Told()), all)
              && settled == SettledAs(j, |steps|, old(Told()), restingMask, needsLease, wasDrag)
    {
      hide Walked;
      var j := WalkPlan(steps, turns, needsLease);
      var walk := j.walk;
      if walk.dragHeld {
        var release := Repair(walk, lastPoint, restingMask);
        var result := Send(release, repairChannel);
        walk := Repaired(walk, release);
      }
      var progress := walk.Progress(wasDrag);
      settled := Settled(OutcomeOf(j.stop, walk.delivered, progress), progress, j.Dropped(|steps|), j.shed,
                         walk.delivered, needsLease && walk.delivered > 0);
    }
  }

  /** The release a walk owes, as far as the channel lets it through. */
  function Repairs(j: Journey, start: Pointer, resting: ButtonMask, channel: Channel): seq<Step> {
    if j.walk.dragHeld && SendStep(Jump, channel).Sent? then [Repair(j.walk, PointerAfter(start, j.sent).at, resting)]
    else []
  }

  function SettledAs(
    j: Journey, total: nat, start: Pointer, resting: ButtonMask, needsLease: bool, wasDrag: bool): Settled
    requires j.stoppedAt <= total
  {
    var repair := Repair(j.walk, PointerAfter(start, j.sent).at, resting);
    var walk := if j.walk.dragHeld then Repaired(j.walk, repair) else j.walk;
    var progress := walk.Progress(wasDrag);
    Settled(OutcomeOf(j.stop, walk.delivered, progress), progress, j.Dropped(total), j.shed, walk.delivered,
            needsLease && walk.delivered > 0)
  }

  lemma StepCases(j: Journey, step: Step, turn: Turn, needsLease: bool, index: nat)
    ensures OneStep(j, step, turn, needsLease, index) ==
      if turn.cancelled then j.(stop := Cancelled, stoppedAt := index)
      else if needsLease && !turn.allowed then j.(stop := Superseded, stoppedAt := index)
      else if SendStep(step.policy, turn.channel).Blocked? then j.(stop := BlockedStop, stoppedAt := index)
      else if SendStep(step.policy, turn.channel).Gone? then j.(stop := GoneStop, stoppedAt := index)
      else if SendStep(step.policy, turn.channel).Sent? then
        Paused(j.(sent := j.sent + [step], walk := j.walk.Record(step)), step, turn, index)
      else Paused(j.(shed := j.shed + 1), step, turn, index)
  {
  }

  /** A journey that has stopped goes no further. */
  lemma {:induction false} StoppedStays(steps: seq<Step>, turns: seq<Turn>, needsLease: bool, n: nat, m: nat)
    requires n <= m <= |steps| == |turns|
    ensures Walked(steps, turns, needsLease, n).stop != Finished ==>
      Walked(steps, turns, needsLease, m) == Walked(steps, turns, needsLease, n)
    decreases m - n
  {
    if n < m {
      StoppedStays(steps, turns, needsLease, n, m - 1);
    }
  }
}
