/** An interrupted drag leaves no button held
    (crates/agent-plane/src/lowering.rs:621-625, dispatch.rs:845-874). */
module DragSafety {
  import opened Dispatching
  import opened Geometry
  import opened Lowering
  import opened Wrappers

  function RecordAll(sent: seq<Step>): Walk {
    if sent == [] then START else RecordAll(sent[..|sent| - 1]).Record(sent[|sent| - 1])
  }

  predicate NeverShed(steps: seq<Step>) {
    forall k :: 0 <= k < |steps| ==> !steps[k].policy.Shed?
  }

  lemma AwaitedIsNotShed(policy: SendPolicy, channel: Channel)
    ensures SendStep(policy, channel).Shed? ==> policy.Shed?
  {
  }

  /** Where nothing may be shed, what goes out is a prefix of the plan: however
      the plan is cut, nothing is skipped and nothing is reordered. */
  lemma {:induction false} SentIsPrefix(steps: seq<Step>, turns: seq<Turn>, needsLease: bool, n: nat)
    requires n <= |steps| == |turns| && NeverShed(steps)
    ensures var j := Walked(steps, turns, needsLease, n);
            && |j.sent| <= n && j.sent == steps[..|j.sent|] && j.walk == RecordAll(j.sent) && j.shed == 0
            && (j.stop.Finished? ==> |j.sent| == n)
  {
    hide Walk.Record, OneStep, SendStep;
    if n > 0 {
      SentIsPrefix(steps, turns, needsLease, n - 1);
      var before := Walked(steps, turns, needsLease, n - 1);
      if before.stop.Finished? {
        StepCases(before, steps[n - 1], turns[n - 1], needsLease, n - 1);
        AwaitedIsNotShed(steps[n - 1].policy, turns[n - 1].channel);
        assert steps[..n] == steps[..n - 1] + [steps[n - 1]];
        assert steps[..n][..n - 1] == steps[..n - 1];
      }
    }
  }

  /** The environment stops a plan before this command. */
  predicate StoppedBefore(turn: Turn, needsLease: bool) {
    turn.cancelled || (needsLease && !turn.allowed)
  }

  /** A plan stops on the spot: from the first command before which it is
      cancelled or the lease no longer lets it through, nothing more goes out, and
      no code point or drag point is claimed. */
  lemma NothingGoesAfter(steps: seq<Step>, turns: seq<Turn>, needsLease: bool, i: nat, n: nat)
    requires i < n <= |steps| == |turns| && StoppedBefore(turns[i], needsLease)
    ensures var j, before := Walked(steps, turns, needsLease, n), Walked(steps, turns, needsLease, i);
            j.sent == before.sent && j.walk == before.walk && !j.stop.Finished?
  {
    StepCases(Walked(steps, turns, needsLease, i), steps[i], turns[i], needsLease, i);
    StoppedStays(steps, turns, needsLease, i + 1, n);
  }

  /** While nothing stops it, every command with room goes. */
  lemma {:induction false} EverythingGoes(steps: seq<Step>, turns: seq<Turn>, needsLease: bool, n: nat)
    requires n <= |steps| == |turns|
    requires forall k :: 0 <= k < n ==>
      !StoppedBefore(turns[k], needsLease) && turns[k].channel.HasRoom? && !turns[k].cancelledInPause
    ensures Walked(steps, turns, needsLease, n).sent == steps[..n]
    ensures Walked(steps, turns, needsLease, n).stop.Finished?
  {
    if n > 0 {
      EverythingGoes(steps, turns, needsLease, n - 1);
      StepCases(Walked(steps, turns, needsLease, n - 1), steps[n - 1], turns[n - 1], needsLease, n - 1);
      assert steps[..n] == steps[..n - 1] + [steps[n - 1]];
    }
  }

  /** How many of these commands carry a mark of this kind. */
  function CountMarks(sent: seq<Step>, counts: StepMark -> bool): nat {
    if sent == [] then 0
    else CountMarks(sent[..|sent| - 1], counts) + (if counts(sent[|sent| - 1].mark) then 1 else 0)
  }

  /** What a settlement counts is what went: commands, code points and drag
      points, each as far as its counter reaches. */
  lemma {:induction false} CountsAreWhatWent(sent: seq<Step>)
    ensures RecordAll(sent).delivered == Min(|sent|, U32_MAX)
    ensures RecordAll(sent).codePoints == Min(CountMarks(sent, m => m == CodePoint), U32_MAX)
    ensures RecordAll(sent).dragPoints == Min(CountMarks(sent, (m: StepMark) => m.DragPoint?), U16_MAX)
  {
    if sent != [] {
      CountsAreWhatWent(sent[..|sent| - 1]);
    }
  }

  /** What the walk knows after `m` commands of a drag: the button is down from
      the press to just before the release, at the last point delivered. */
  lemma {:induction false} DragWalk(from: Point, to: Point, button: Button, ctx: LowerContext, m: nat)
    requires m <= ctx.dragPoints + 4
    ensures var steps, n := DragPlan(from, to, button, ctx), ctx.dragPoints;
            RecordAll(steps[..m]) ==
              Walk(m, 0, 2 <= m < n + 4, if m <= 2 then 0 else if m <= n + 3 then m - 2 else n + 1,
                   if 3 <= m < n + 4 then Some(steps[m - 1].at) else None, false)
  {
    var steps := DragPlan(from, to, button, ctx);
    if m > 0 {
      DragWalk(from, to, button, ctx, m - 1);
      DragPlanIs(from, to, button, ctx, m - 1);
      assert steps[..m][..m - 1] == steps[..m - 1];
    }
  }

  /** What went out of a drag, over every way of cutting it. */
  ghost function Cut(from: Point, to: Point, button: Button, ctx: LowerContext, turns: seq<Turn>, needsLease: bool)
    : Journey
    requires |turns| == ctx.dragPoints + 4
  {
    Walked(DragPlan(from, to, button, ctx), turns, needsLease, ctx.dragPoints + 4)
  }

  lemma CutIsPrefix(from: Point, to: Point, button: Button, ctx: LowerContext, turns: seq<Turn>, needsLease: bool)
    requires |turns| == ctx.dragPoints + 4
    ensures var j, n := Cut(from, to, button, ctx, turns, needsLease), ctx.dragPoints;
            var steps := DragPlan(from, to, button, ctx);
            var m := |j.sent|;
            && m <= n + 4 && j.sent == steps[..m] && j.walk.delivered == m
            && j.walk.dragHeld == (2 <= m < n + 4)
            && j.walk.dragAt == (if 3 <= m < n + 4 then Some(steps[m - 1].at) else None)
            && j.walk.dragPoints == (if m <= 2 then 0 else if m <= n + 3 then m - 2 else n + 1)
            && !j.walk.releaseSynthesised
  {
    var steps := DragPlan(from, to, button, ctx);
    forall k | 0 <= k < |steps|
      ensures !steps[k].policy.Shed?
    {
      DragPlanIs(from, to, button, ctx, k);
    }
    SentIsPrefix(steps, turns, needsLease, |steps|);
    DragWalk(from, to, button, ctx, |Cut(from, to, button, ctx, turns, needsLease).sent|);
  }

  /** Nothing can stop a drag after its release, which has no pause. */
  lemma SentWholeFinishes(
    from: Point, to: Point, button: Button, ctx: LowerContext, turns: seq<Turn>, needsLease: bool)
    requires |turns| == ctx.dragPoints + 4
    ensures var j := Cut(from, to, button, ctx, turns, needsLease);
            j.stop.Finished? <==> |j.sent| == ctx.dragPoints + 4
  {
    hide Walk.Record, OneStep, SendStep;
    var steps, last := DragPlan(from, to, button, ctx), ctx.dragPoints + 3;
    forall k | 0 <= k < |steps|
      ensures !steps[k].policy.Shed?
    {
      DragPlanIs(from, to, button, ctx, k);
    }
    SentIsPrefix(steps, turns, needsLease, last);
    SentIsPrefix(steps, turns, needsLease, last + 1);
    StepCases(Walked(steps, turns, needsLease, last), steps[last], turns[last], needsLease, last);
    assert steps[last].pause == 0;
  }

  /** The repair is at the last coordinate delivered. */
  lemma RepairIsWhereItStopped(from: Point, to: Point, button: Button, ctx: LowerContext, turns: seq<Turn>,
                               needsLease: bool, start: Pointer)
    requires |turns| == ctx.dragPoints + 4
    ensures var j := Cut(from, to, button, ctx, turns, needsLease);
            j.walk.dragHeld ==>
              Repair(j.walk, PointerAfter(start, j.sent).at, ctx.restingMask).at == PointerAfter(start, j.sent).at
  {
    CutIsPrefix(from, to, button, ctx, turns, needsLease);
  }

  lemma SameMasks(mask: ButtonMask, resting: ButtonMask, button: Button)
    requires BitIsSet(mask, button) && SameOtherBits(mask, resting, button)
    ensures mask == resting <==> BitIsSet(resting, button)
  {
  }

  /** After the commands that went the mask is the resting one if and only if the
      button was not down at the cut, or was down before the drag. */
  lemma MaskAtTheCut(from: Point, to: Point, button: Button, ctx: LowerContext, sent: seq<Step>, start: Pointer)
    requires start.mask == ctx.restingMask && |sent| <= ctx.dragPoints + 4
    requires sent == DragPlan(from, to, button, ctx)[..|sent|]
    ensures PointerAfter(start, sent).mask == ctx.restingMask <==>
      !(2 <= |sent| < ctx.dragPoints + 4) || BitIsSet(ctx.restingMask, button)
  {
    hide DragPlan, BitIsSet, SameOtherBits;
    if sent != [] {
      var last := sent[|sent| - 1];
      DragPlanIs(from, to, button, ctx, |sent| - 1);
      assert last == DragPlan(from, to, button, ctx)[|sent| - 1];
      if 2 <= |sent| < ctx.dragPoints + 4 {
        SameMasks(last.mask, ctx.restingMask, button);
      }
    }
  }

  /** However a drag is cut, by a cancellation, a lost lease or a channel that
      stays full, the pointer ends at the last coordinate delivered, and it ends
      with the resting mask if and only if the button was not down at the cut, or
      the repair went, or the button was down before the drag. */
  lemma NoButtonLeftHeld(from: Point, to: Point, button: Button, ctx: LowerContext, turns: seq<Turn>,
                         needsLease: bool, start: Pointer, repairChannel: Channel)
    requires |turns| == ctx.dragPoints + 4 && start.mask == ctx.restingMask
    ensures var j := Cut(from, to, button, ctx, turns, needsLease);
            var end := PointerAfter(start, j.sent + Repairs(j, start, ctx.restingMask, repairChannel));
            && end.at == PointerAfter(start, j.sent).at
            && (end.mask == ctx.restingMask <==>
                !(2 <= |j.sent| < ctx.dragPoints + 4) || repairChannel.HasRoom? ||
                BitIsSet(ctx.restingMask, button))
  {
    var j := Cut(from, to, button, ctx, turns, needsLease);
    CutIsPrefix(from, to, button, ctx, turns, needsLease);
    RepairIsWhereItStopped(from, to, button, ctx, turns, needsLease, start);
    MaskAtTheCut(from, to, button, ctx, j.sent, start);
    hide BitIsSet, DragPlan, Cut;
  }

  /** What an interrupted drag settles with: the points that went, whether the
      plane owed the release, and where. The coordinate is the one delivered last
      if and only if a release was owed (or that coordinate is the origin): a
      drag that reached its own release, or never pressed, names (0, 0). */
  lemma SettlementNamesTheDrop(from: Point, to: Point, button: Button, ctx: LowerContext, turns: seq<Turn>,
                               needsLease: bool, start: Pointer)
    requires |turns| == ctx.dragPoints + 4
    ensures var j := Cut(from, to, button, ctx, turns, needsLease);
            var progress := SettledAs(j, ctx.dragPoints + 4, start, ctx.restingMask, needsLease, true).progress;
            var last := PointerAfter(start, j.sent).at;
            && progress.DragProgress?
            && progress.pointsDelivered == j.walk.dragPoints
            && (progress.releaseSynthesised <==> 2 <= |j.sent| < ctx.dragPoints + 4)
            && (progress.releasedAt == last <==> progress.releaseSynthesised || last == Point(0, 0))
  {
    CutIsPrefix(from, to, button, ctx, turns, needsLease);
    RepairIsWhereItStopped(from, to, button, ctx, turns, needsLease, start);
  }

  /** A drag is reported as delivered if and only if every command of it went, as
      refused if and only if it was blocked before any did, and it counts as the
      holder's input if and only if it needs the lease and any command went. */
  lemma OutcomeIsHonest(from: Point, to: Point, button: Button, ctx: LowerContext, turns: seq<Turn>,
                        needsLease: bool, start: Pointer)
    requires |turns| == ctx.dragPoints + 4
    ensures var j := Cut(from, to, button, ctx, turns, needsLease);
            var settled := SettledAs(j, ctx.dragPoints + 4, start, ctx.restingMask, needsLease, true);
            && (settled.outcome == Done(true) <==> |j.sent| == ctx.dragPoints + 4)
            && (settled.outcome == RefusedUnsent <==> j.stop.BlockedStop? && j.sent == [])
            && (settled.notesIntent <==> needsLease && j.sent != [])
  {
    CutIsPrefix(from, to, button, ctx, turns, needsLease);
    SentWholeFinishes(from, to, button, ctx, turns, needsLease);
  }

  /** A drag from (5, 5) to (9, 9) that nothing interrupts lets go at (9, 9) and
      settles as released at (0, 0). */
  lemma WholeDragNamesTheOrigin(ctx: LowerContext, start: Pointer)
    requires ctx.dragPoints == 0
    ensures var calm := Turn(false, true, HasRoom, false);
            var j := Cut(Point(5, 5), Point(9, 9), Left, ctx, [calm, calm, calm, calm], true);
            && j.stop.Finished? && PointerAfter(start, j.sent).at == Point(9, 9)
            && SettledAs(j, 4, start, ctx.restingMask, true, true).progress.DragProgress?
            && SettledAs(j, 4, start, ctx.restingMask, true, true).progress.releasedAt == Point(0, 0)
  {
    hide DragPlan, Walked;
    var from, to := Point(5, 5), Point(9, 9);
    var calm := Turn(false, true, HasRoom, false);
    var turns := [calm, calm, calm, calm];
    EverythingGoes(DragPlan(from, to, Left, ctx), turns, true, 4);
    CutIsPrefix(from, to, Left, ctx, turns, true);
    DragPlanIs(from, to, Left, ctx, 3);
  }
}
