/** Lowering a drag to pointer commands
    (crates/agent-plane/src/lowering.rs:57-123, 203-206, 608-719, 825-833). */
module Lowering {
  import opened Geometry
  import opened Grids
  import opened Wrappers

  type u8 = x: int | 0 <= x < 0x100
  type ButtonMask = bv16

  datatype Button = Left | Middle | Right {
    function Mask(): ButtonMask {
      match this
      case Left => 1
      case Middle => 2
      case Right => 4
    }
  }

  datatype SendPolicy = Shed | Coalesce | Await | Jump

  /** What a command counts as when it went. */
  datatype StepMark = Plain | CodePoint | DragPress | DragPoint(at: Point) | DragRelease

  /** One pointer command: position and buttons, its fate on a full channel, the
      pause that follows, and what it counts as. */
  datatype Step = Step(at: Point, mask: ButtonMask, policy: SendPolicy, pause: nat, mark: StepMark)

  datatype Grounding = Pixels | Cells | NoGrounding

  datatype LowerContext = LowerContext(
    grounding: Grounding, width: u16, height: u16, restingMask: ButtonMask, dragPoints: u8, dragSettle: nat)
  {
    predicate Admits(at: Point) {
      at.x < width && at.y < height
    }
  }

  datatype Refusal = NotSupported | OffScreen

  // ---------------------------------------------------------------- the line

  function Lerp(a: u16, b: u16, i: nat, divisions: nat): int
    requires divisions > 0
  {
    if b >= a then a + ((b - a) * i + divisions / 2) / divisions
    else a - ((a - b) * i + divisions / 2) / divisions
  }

  /** How far along a distance point `i` is, rounded to the nearest. */
  function Along(distance: nat, i: nat, divisions: nat): nat
    requires divisions > 0
  {
    (distance * i + divisions / 2) / divisions
  }

  /** Off by at most half a pixel, never past the end, nowhere before the start. */
  lemma AlongIsNearest(distance: nat, i: nat, divisions: nat)
    requires divisions > 0 && i <= divisions
    ensures 2 * (divisions * Along(distance, i, divisions) - distance * i) <= divisions
    ensures 2 * (distance * i - divisions * Along(distance, i, divisions)) <= divisions
    ensures Along(distance, i, divisions) <= distance
    ensures i == 0 ==> Along(distance, i, divisions) == 0
    ensures i == divisions ==> Along(distance, i, divisions) == distance
  {
    var n := distance * i + divisions / 2;
    DivBounds(n, divisions);
    MulMono(i, divisions, distance);
    DivAtMost(n, divisions, distance);
    if i == divisions {
      DivAtLeast(n, divisions, distance);
    }
  }

  lemma AlongGrows(distance: nat, i: nat, j: nat, divisions: nat)
    requires divisions > 0 && i <= j
    ensures Along(distance, i, divisions) <= Along(distance, j, divisions)
  {
    MulMono(i, j, distance);
    var m, n := distance * i + divisions / 2, distance * j + divisions / 2;
    DivBounds(m, divisions);
    DivAtLeast(n, divisions, m / divisions);
  }

  /** Between the two ends, whichever is larger. */
  predicate Between(a: int, v: int, b: int) {
    a <= v <= b || b <= v <= a
  }

  lemma LerpIsAlong(a: u16, b: u16, i: nat, divisions: nat)
    requires divisions > 0 && i <= divisions
    ensures b >= a ==> Lerp(a, b, i, divisions) == a + Along(b - a, i, divisions)
    ensures b < a ==> Lerp(a, b, i, divisions) == a - Along(a - b, i, divisions)
    ensures Between(a, Lerp(a, b, i, divisions), b) && 0 <= Lerp(a, b, i, divisions) < 0x1_0000
  {
    AlongIsNearest(if b >= a then b - a else a - b, i, divisions);
  }

  /** Each axis of the line on its own. */
  function Interpolate(from: Point, to: Point, i: nat, divisions: nat): Point
    requires divisions > 0 && i <= divisions
  {
    LerpIsAlong(from.x, to.x, i, divisions);
    LerpIsAlong(from.y, to.y, i, divisions);
    Point(Lerp(from.x, to.x, i, divisions), Lerp(from.y, to.y, i, divisions))
  }

  /** The line starts and ends at its ends, stays between them on each axis, and
      never turns back. */
  lemma LineIsMonotone(from: Point, to: Point, i: nat, j: nat, divisions: nat)
    requires divisions > 0 && i <= j <= divisions
    ensures Interpolate(from, to, 0, divisions) == from && Interpolate(from, to, divisions, divisions) == to
    ensures var p, q := Interpolate(from, to, i, divisions), Interpolate(from, to, j, divisions);
            && Between(from.x, p.x, q.x) && Between(p.x, q.x, to.x) && Between(from.x, q.x, to.x)
            && Between(from.y, p.y, q.y) && Between(p.y, q.y, to.y) && Between(from.y, q.y, to.y)
  {
    AxisIsMonotone(from.x, to.x, i, j, divisions);
    AxisIsMonotone(from.y, to.y, i, j, divisions);
  }

  lemma AxisIsMonotone(a: u16, b: u16, i: nat, j: nat, divisions: nat)
    requires divisions > 0 && i <= j <= divisions
    ensures Lerp(a, b, 0, divisions) == a && Lerp(a, b, divisions, divisions) == b
    ensures var p, q := Lerp(a, b, i, divisions), Lerp(a, b, j, divisions);
            Between(a, p, q) && Between(p, q, b) && Between(a, q, b)
  {
    hide Lerp, Along;
    var distance := if b >= a then b - a else a - b;
    LerpIsAlong(a, b, 0, divisions);
    LerpIsAlong(a, b, divisions, divisions);
    LerpIsAlong(a, b, i, divisions);
    LerpIsAlong(a, b, j, divisions);
    AlongIsNearest(distance, 0, divisions);
    AlongIsNearest(distance, divisions, divisions);
    AlongIsNearest(distance, i, divisions);
    AlongIsNearest(distance, j, divisions);
    AlongGrows(distance, i, j, divisions);
  }

  /** The exact point lies half way between two pixels. */
  predicate HalfWay(distance: nat, i: nat, divisions: nat)
    requires divisions > 0
  {
    divisions % 2 == 0 && (distance * i) % divisions == divisions / 2
  }

  /** Rounded rather than truncated so that the path is symmetric: dragging back
      goes through the same points, except where the exact point lies half way
      between two pixels, and there it never does. */
  lemma SymmetricExactly(a: u16, b: u16, i: nat, divisions: nat)
    requires divisions > 0 && i <= divisions
    ensures var distance := if b >= a then b - a else a - b;
            Lerp(a, b, i, divisions) == Lerp(b, a, divisions - i, divisions) <==>
            !HalfWay(distance, i, divisions)
  {
    hide Lerp, Along, HalfWay;
    var distance := if b >= a then b - a else a - b;
    LerpIsAlong(a, b, i, divisions);
    LerpIsAlong(b, a, divisions - i, divisions);
    BothWays(distance, i, divisions);
  }

  /** From 0 to 1 in two steps the point half way is 1, and from 1 to 0 it is 0. */
  lemma HalfWayIsNotSymmetric()
    ensures HalfWay(1, 1, 2) && Lerp(0, 1, 1, 2) == 1 && Lerp(1, 0, 1, 2) == 0
  {
  }

  lemma BothWays(distance: nat, i: nat, divisions: nat)
    requires divisions > 0 && i <= divisions
    ensures Along(distance, i, divisions) + Along(distance, divisions - i, divisions) ==
      distance + (if HalfWay(distance, i, divisions) then 1 else 0)
  {
    hide Along, HalfWay;
    var q, r := QuotientFits(distance, i, divisions);
    There(distance, i, divisions, q, r);
    BackThere(distance, i, divisions, q, r);
    ThereAndBack(distance, divisions, q, r);
  }

  lemma ThereAndBack(distance: int, divisions: int, q: int, r: int)
    requires 0 <= r < divisions
    ensures (if r + divisions / 2 >= divisions then q + 1 else q) +
      (if r <= divisions / 2 then distance - q else distance - q - 1) ==
      distance + (if divisions % 2 == 0 && r == divisions / 2 then 1 else 0)
  {
  }

  lemma QuotientFits(distance: nat, i: nat, divisions: nat) returns (q: nat, r: nat)
    requires divisions > 0 && i <= divisions
    ensures distance * i == divisions * q + r && r < divisions && q <= distance && (r > 0 ==> q < distance)
    ensures HalfWay(distance, i, divisions) <==> divisions % 2 == 0 && r == divisions / 2
  {
    q, r := (distance * i) / divisions, (distance * i) % divisions;
    MulMono(i, divisions, distance);
    DivAtMost(distance * i, divisions, distance);
  }

  lemma There(distance: nat, i: nat, divisions: nat, q: nat, r: nat)
    requires divisions > 0 && r < divisions && distance * i == divisions * q + r
    ensures Along(distance, i, divisions) == if r + divisions / 2 >= divisions then q + 1 else q
  {
    var h := divisions / 2;
    Distributes(q, 1, divisions);
    DivModUnique(distance * i + h, divisions, if r + h >= divisions then q + 1 else q,
                 if r + h >= divisions then r + h - divisions else r + h);
  }

  lemma BackThere(distance: nat, i: nat, divisions: nat, q: nat, r: nat)
    requires divisions > 0 && i <= divisions && q <= distance && r < divisions && (r > 0 ==> q < distance)
    requires distance * i == divisions * q + r
    ensures Along(distance, divisions - i, divisions) == if r <= divisions / 2 then distance - q else distance - q - 1
  {
    var h := divisions / 2;
    var back := if r <= h then distance - q else distance - q - 1;
    Distributes(divisions - i, i, distance);
    Distributes(distance - q, q, divisions);
    if r > h {
      Distributes(back, 1, divisions);
    }
    DivModUnique(distance * (divisions - i) + h, divisions, back, if r <= h then h - r else divisions - r + h);
  }

  // ---------------------------------------------------------------- the drag

  /** The mask while the drag holds its button: whatever was down already, and
      the button. */
  function Held(resting: ButtonMask, button: Button): ButtonMask {
    resting | button.Mask()
  }

  function Plain(at: Point, mask: ButtonMask, pause: nat): Step {
    Step(at, mask, Await, pause, StepMark.Plain)
  }

  function Marked(at: Point, mask: ButtonMask, mark: StepMark, pause: nat): Step {
    Step(at, mask, Await, pause, mark)
  }

  /** The intermediate points up to number `n`. */
  function PointsUpTo(from: Point, to: Point, held: ButtonMask, n: nat, divisions: nat): (steps: seq<Step>)
    requires divisions > 0 && n <= divisions
    ensures |steps| == n
    ensures forall k :: 0 <= k < n ==>
      var at := Interpolate(from, to, k + 1, divisions);
      steps[k] == Marked(at, held, DragPoint(at), 0)
  {
    if n == 0 then []
    else
      var at := Interpolate(from, to, n, divisions);
      PointsUpTo(from, to, held, n - 1, divisions) + [Marked(at, held, DragPoint(at), 0)]
  }

  lemma NoPoints(from: Point, to: Point, held: ButtonMask, divisions: nat)
    requires divisions > 0
    ensures PointsUpTo(from, to, held, 0, divisions) == []
  {
  }

  /** The drag as a plan: arrive, press, every point in between, the target, and
      the release, each awaited. */
  function DragPlan(from: Point, to: Point, button: Button, ctx: LowerContext): (steps: seq<Step>)
    ensures |steps| == ctx.dragPoints + 4
  {
    var held := Held(ctx.restingMask, button);
    [Plain(from, ctx.restingMask, ctx.dragSettle), Marked(from, held, DragPress, ctx.dragSettle)]
    + PointsUpTo(from, to, held, ctx.dragPoints, ctx.dragPoints + 1)
    + [Marked(to, held, DragPoint(to), ctx.dragSettle), Marked(to, ctx.restingMask, DragRelease, 0)]
  }

  method LowerDrag(from: Point, to: Point, button: Button, ctx: LowerContext)
      returns (result: Result<seq<Step>, Refusal>)
    ensures result ==
      if !ctx.grounding.Pixels? then Err(NotSupported)
      else if !(from.x < ctx.width && from.y < ctx.height && to.x < ctx.width && to.y < ctx.height) then
        Err(OffScreen)
      else Ok(DragPlan(from, to, button, ctx))
  {
    if !ctx.grounding.Pixels? {
      return Err(NotSupported);
    }
    if !ctx.Admits(from) || !ctx.Admits(to) {
      return Err(OffScreen);
    }
    hide Interpolate, Held;
    var held := Held(ctx.restingMask, button);
    var start := [Plain(from, ctx.restingMask, ctx.dragSettle), Marked(from, held, DragPress, ctx.dragSettle)];
    var steps := start;
    NoPoints(from, to, held, ctx.dragPoints + 1);
    for i := 1 to ctx.dragPoints + 1
      invariant steps == start + PointsUpTo(from, to, held, i - 1, ctx.dragPoints + 1)
    {
      var at := Interpolate(from, to, i, ctx.dragPoints + 1);
      steps := steps + [Marked(at, held, DragPoint(at), 0)];
    }
    var middle := steps;
    steps := steps + [Marked(to, held, DragPoint(to), ctx.dragSettle)];
    steps := steps + [Marked(to, ctx.restingMask, DragRelease, 0)];
    assert steps ==
      middle + [Marked(to, held, DragPoint(to), ctx.dragSettle), Marked(to, ctx.restingMask, DragRelease, 0)];
    return Ok(steps);
  }

  /** Bit 0, 1 or 2 of the mask, for the left, middle and right button. */
  predicate BitIsSet(mask: ButtonMask, button: Button) {
    match button
    case Left => mask & 1 != 0
    case Middle => mask & 2 != 0
    case Right => mask & 4 != 0
  }

  /** The masks agree in every bit but this button's. */
  predicate SameOtherBits(mask: ButtonMask, other: ButtonMask, button: Button) {
    match button
    case Left => mask & 0xFFFE == other & 0xFFFE
    case Middle => mask & 0xFFFD == other & 0xFFFD
    case Right => mask & 0xFFFB == other & 0xFFFB
  }

  lemma LeftBit(resting: ButtonMask)
    ensures (resting | 1) & 1 != 0 && (resting | 1) & 0xFFFE == resting & 0xFFFE
  {
  }

  lemma MiddleBit(resting: ButtonMask)
    ensures (resting | 2) & 2 != 0 && (resting | 2) & 0xFFFD == resting & 0xFFFD
  {
  }

  lemma RightBit(resting: ButtonMask)
    ensures (resting | 4) & 4 != 0 && (resting | 4) & 0xFFFB == resting & 0xFFFB
  {
  }

  lemma HeldSetsTheBit(resting: ButtonMask, button: Button)
    ensures BitIsSet(Held(resting, button), button) && SameOtherBits(Held(resting, button), resting, button)
  {
    match button
    case Left => LeftBit(resting);
    case Middle => MiddleBit(resting);
    case Right => RightBit(resting);
  }

  /** What each command of a drag is: the pointer arrives at the origin with the
      buttons as they were, has the drag's button down, and every other as it was,
      from the second command to the last but one, moving along the line, and at the
      target has them as they were again. It pauses after it arrived, after the press
      and at the target, and nowhere else. */
  lemma DragPlanIs(from: Point, to: Point, button: Button, ctx: LowerContext, k: nat)
    requires k < ctx.dragPoints + 4
    ensures var steps, n := DragPlan(from, to, button, ctx), ctx.dragPoints;
            && steps[k].policy == Await
            && (if 1 <= k < n + 3 then
                  BitIsSet(steps[k].mask, button) && SameOtherBits(steps[k].mask, ctx.restingMask, button)
                else steps[k].mask == ctx.restingMask)
            && steps[k].at == (if k <= 1 then from else if k >= n + 2 then to else Interpolate(from, to, k - 1, n + 1))
            && steps[k].mark == (if k == 0 then StepMark.Plain else if k == 1 then DragPress
                                 else if k == n + 3 then DragRelease else DragPoint(steps[k].at))
            && steps[k].pause == (if k <= 1 || k == n + 2 then ctx.dragSettle else 0)
  {
    HeldSetsTheBit(ctx.restingMask, button);
    hide Interpolate, Held, PointsUpTo, BitIsSet, SameOtherBits;
  }

  /** Every point of a drag between two admitted ends is admitted. */
  lemma DragStaysAdmitted(from: Point, to: Point, button: Button, ctx: LowerContext, k: nat)
    requires ctx.Admits(from) && ctx.Admits(to) && k < ctx.dragPoints + 4
    ensures var at := DragPlan(from, to, button, ctx)[k].at; at.x < ctx.width && at.y < ctx.height
  {
    DragPlanIs(from, to, button, ctx, k);
    if 1 < k < ctx.dragPoints + 2 {
      LineIsMonotone(from, to, k - 1, k - 1, ctx.dragPoints + 1);
    }
  }
}
