/** Choosing the rectangle to read when something changed
    (crates/agent-perception/src/damage.rs:323-382). The limit is a number of
    pixels; the share of the screen it is computed from is a float and is a
    parameter here. */
module CropPlanner {
  import DamageMachine
  import opened Geometry
  import opened StableSort

  datatype ChangePlan =
    | Nothing
    | Crop(rect: Rect, damage: seq<Rect>, margin: u16, remaining: nat)
    | Degraded(area: nat)

  // ---------------------------------------------------------------- margins

  function Grow(start: u16, len: u16, margin: u16, limitStart: u16, limitLen: u16): (u16, u16) {
    var lo := Max(Max(start - margin, 0), limitStart);
    var hi := Wrap(Min(start + len + margin, limitStart + limitLen));
    (lo, Max(hi - lo, 0))
  }

  /** The rectangle with `margin` more pixels on every side, as far as the
      framebuffer reaches. */
  function Expand(r: Rect, margin: u16, fb: Rect): Rect {
    var (x, width) := Grow(r.x, r.width, margin, fb.x, fb.width);
    var (y, height) := Grow(r.y, r.height, margin, fb.y, fb.height);
    Rect(x, y, width, height)
  }

  /** One axis of the margin: the coordinates within `margin` of the stretch that
      lie within the limits. */
  lemma GrowExact(start: u16, len: u16, margin: u16, limitStart: u16, limitLen: u16, p: int)
    requires len > 0 && limitStart <= start && start + len <= limitStart + limitLen <= U16_MAX
    ensures var (lo, n) := Grow(start, len, margin, limitStart, limitLen);
      && (lo <= p < lo + n <==>
            limitStart <= p < limitStart + limitLen && start - margin <= p < start + len + margin)
      && limitStart <= lo <= start && start + len <= lo + n <= limitStart + limitLen
  {
    WrapSmall(Min(start + len + margin, limitStart + limitLen));
  }

  /** The margin is exactly the framebuffer pixels within `margin` of the
      rectangle. */
  lemma ExpandExact(r: Rect, margin: u16, fb: Rect, px: int, py: int)
    requires fb.Fits() && r.Within(fb) && !r.IsEmpty()
    ensures Expand(r, margin, fb).Has(px, py) <==>
      && fb.Has(px, py)
      && r.x - margin <= px < r.x + r.width + margin && r.y - margin <= py < r.y + r.height + margin
    ensures Expand(r, margin, fb).Fits() && Expand(r, margin, fb).Within(fb)
    ensures r.Within(Expand(r, margin, fb)) && !Expand(r, margin, fb).IsEmpty()
  {
    hide Grow;
    GrowExact(r.x, r.width, margin, fb.x, fb.width, px);
    GrowExact(r.y, r.height, margin, fb.y, fb.height, py);
  }

  // ---------------------------------------------------------------- what changed

  /** The changed rectangles that show on the framebuffer, clipped to it. */
  function Live(rects: seq<Rect>, fb: Rect): seq<Rect> {
    if rects == [] then []
    else
      var clipped := Intersect(rects[0], fb);
      (if clipped.IsEmpty() then [] else [clipped]) + Live(rects[1..], fb)
  }

  predicate OnScreen(r: Rect, fb: Rect) {
    r.Fits() && r.Within(fb) && !r.IsEmpty()
  }

  /** Anything live lies on a framebuffer that fits. */
  lemma {:induction false} LiveOnScreen(rects: seq<Rect>, fb: Rect)
    ensures forall r :: r in Live(rects, fb) ==> fb.Fits() && OnScreen(r, fb)
  {
    if rects != [] {
      LiveOnScreen(rects[1..], fb);
      if fb.Fits() {
        IntersectExact(rects[0], fb);
      } else {
        FitsOrEmpty(rects[0], fb);
      }
    }
  }

  /** Nothing overlaps a framebuffer whose far edge wraps. */
  lemma FitsOrEmpty(r: Rect, fb: Rect)
    requires !fb.Fits()
    ensures Intersect(r, fb).IsEmpty()
  {
    if fb.x + fb.width >= 0x1_0000 {
      assert Wrap(fb.x + fb.width) == fb.x + fb.width - 0x1_0000;
    } else {
      assert Wrap(fb.y + fb.height) == fb.y + fb.height - 0x1_0000;
    }
  }

  predicate Covers(rects: seq<Rect>, px: int, py: int) {
    exists r :: r in rects && r.Fits() && r.Has(px, py)
  }

  /** Every pixel of a change that is on the framebuffer is in a live rectangle,
      and nothing else is. */
  lemma {:induction false} LivePixels(rects: seq<Rect>, fb: Rect, px: int, py: int)
    requires fb.Fits()
    ensures Covers(Live(rects, fb), px, py) <==> fb.Has(px, py) && Covers(rects, px, py)
  {
    if rects != [] {
      var clipped := Intersect(rects[0], fb);
      var tail := Live(rects[1..], fb);
      LivePixels(rects[1..], fb, px, py);
      IntersectExact(rects[0], fb);
      CoversSplit([rects[0]], rects[1..], px, py);
      assert [rects[0]] + rects[1..] == rects;
      CoversOne(rects[0], px, py);
      CoversOne(clipped, px, py);
      CoversSplit(if clipped.IsEmpty() then [] else [clipped], tail, px, py);
      assert Covers(if clipped.IsEmpty() then [] else [clipped], px, py) == clipped.Has(px, py);
    }
  }

  lemma CoversSplit(a: seq<Rect>, b: seq<Rect>, px: int, py: int)
    ensures Covers(a + b, px, py) <==> Covers(a, px, py) || Covers(b, px, py)
  {
    if Covers(a, px, py) {
      var r :| r in a && r.Fits() && r.Has(px, py);
      assert r in a + b;
    }
    if Covers(b, px, py) {
      var r :| r in b && r.Fits() && r.Has(px, py);
      assert r in a + b;
    }
  }

  lemma CoversOne(r: Rect, px: int, py: int)
    ensures Covers([r], px, py) <==> r.Fits() && r.Has(px, py)
  {
    assert r in [r];
  }

  function ByArea(rects: seq<Rect>): (keyed: seq<Keyed<Rect>>)
    ensures |keyed| == |rects|
  {
    if rects == [] then [] else [Keyed(rects[0].Area(), rects[0])] + ByArea(rects[1..])
  }

  function Values(keyed: seq<Keyed<Rect>>): (rects: seq<Rect>)
    ensures |rects| == |keyed|
  {
    if keyed == [] then [] else [keyed[0].value] + Values(keyed[1..])
  }

  /** Largest first; equal areas in the order they came. */
  function LargestFirst(rects: seq<Rect>): seq<Rect> {
    Values(SortDescending(ByArea(rects)))
  }

  lemma {:induction false} InsertValues(x: Keyed<Rect>, s: seq<Keyed<Rect>>)
    ensures multiset(Values(InsertDescending(x, s))) == multiset{x.value} + multiset(Values(s))
  {
    if s == [] || x.key >= s[0].key {
      assert ([x] + s)[1..] == s;
    } else {
      InsertValues(x, s[1..]);
      var tail := InsertDescending(x, s[1..]);
      assert ([s[0]] + tail)[1..] == tail;
    }
  }

  lemma {:induction false} LargestFirstPermutes(rects: seq<Rect>)
    ensures multiset(LargestFirst(rects)) == multiset(rects)
  {
    if rects != [] {
      hide InsertDescending;
      LargestFirstPermutes(rects[1..]);
      var keyed := ByArea(rects);
      assert keyed[1..] == ByArea(rects[1..]);
      InsertValues(keyed[0], SortDescending(keyed[1..]));
      assert rects == [rects[0]] + rects[1..];
    }
  }

  lemma {:induction false} KeysAreAreas(rects: seq<Rect>)
    ensures forall x :: x in ByArea(rects) ==> x.key == x.value.Area()
  {
    if rects != [] {
      KeysAreAreas(rects[1..]);
    }
  }

  lemma {:induction false} ValuesAt(keyed: seq<Keyed<Rect>>, k: nat)
    requires k < |keyed|
    ensures Values(keyed)[k] == keyed[k].value
  {
    if k > 0 {
      ValuesAt(keyed[1..], k - 1);
    }
  }

  predicate BySize(rects: seq<Rect>) {
    forall i, j :: 0 <= i < j < |rects| ==> rects[i].Area() >= rects[j].Area()
  }

  /** A permutation, in descending order of area. */
  lemma LargestFirstSorts(rects: seq<Rect>)
    ensures multiset(LargestFirst(rects)) == multiset(rects) && |LargestFirst(rects)| == |rects|
    ensures BySize(LargestFirst(rects))
  {
    var sorted := SortDescending(ByArea(rects));
    LargestFirstPermutes(rects);
    Sorts(ByArea(rects));
    KeysAreAreas(rects);
    forall k | 0 <= k < |rects|
      ensures LargestFirst(rects)[k].Area() == sorted[k].key
    {
      ValuesAt(sorted, k);
      assert sorted[k] in multiset(ByArea(rects));
    }
  }

  // ---------------------------------------------------------------- the crop

  function Margins(rects: seq<Rect>, margin: u16, fb: Rect): (margins: seq<Rect>)
    ensures |margins| == |rects| && forall k :: 0 <= k < |rects| ==> margins[k] == Expand(rects[k], margin, fb)
  {
    seq(|rects|, k requires 0 <= k < |rects| => Expand(rects[k], margin, fb))
  }

  /** The smallest rectangle that holds these rectangles' margins. */
  function CropAround(rects: seq<Rect>, margin: u16, fb: Rect): Rect {
    DamageMachine.BoundingBox(Margins(rects, margin, fb))
  }

  lemma AroundOneMore(rects: seq<Rect>, r: Rect, margin: u16, fb: Rect)
    ensures CropAround(rects + [r], margin, fb) == Union(CropAround(rects, margin, fb), Expand(r, margin, fb))
  {
    var more := Margins(rects + [r], margin, fb);
    assert more[..|more| - 1] == Margins(rects, margin, fb);
  }

  lemma AroundOne(r: Rect, margin: u16, fb: Rect)
    ensures CropAround([r], margin, fb) == Expand(r, margin, fb)
  {
    assert [] + [r] == [r] && Margins([], margin, fb) == [];
    AroundOneMore([], r, margin, fb);
  }

  /** The rectangles that are listed: the first, and of the others, in order, each
      that the crop around those listed so far could take. */
  function Greedily(rects: seq<Rect>, margin: u16, fb: Rect, limit: nat): seq<Rect> {
    if |rects| <= 1 then rects
    else
      var before, r := Greedily(rects[..|rects| - 1], margin, fb, limit), rects[|rects| - 1];
      if Affordable(CropAround(before, margin, fb), r, margin, fb, limit) then before + [r] else before
  }

  /** The crop can take this rectangle and its margin and stay under the limit. */
  predicate Affordable(crop: Rect, r: Rect, margin: u16, fb: Rect, limit: nat) {
    Union(crop, Expand(r, margin, fb)).Area() <= limit
  }

  /** The crop lies on the framebuffer and under the limit, and holds every
      listed rectangle with its margin. */
  predicate Sound(crop: Rect, listed: seq<Rect>, margin: u16, fb: Rect, limit: nat) {
    && OnScreen(crop, fb) && crop.Area() <= limit
    && forall r :: r in listed ==> r.Within(crop) && Expand(r, margin, fb).Within(crop)
  }

  /** No rectangle left out could still be added. */
  predicate Maximal(crop: Rect, left: seq<Rect>, margin: u16, fb: Rect, limit: nat) {
    forall r :: r in left ==> !Affordable(crop, r, margin, fb, limit)
  }

  /** What the plan leaves out, counted by `remaining`: with the listed
      rectangles it is everything that changed, and none of it could be added. */
  ghost predicate LeftOut(plan: ChangePlan, left: seq<Rect>, live: seq<Rect>, fb: Rect, limit: nat)
    requires plan.Crop?
  {
    && |left| == plan.remaining
    && multiset(plan.damage) + multiset(left) == multiset(live)
    && Maximal(plan.rect, left, plan.margin, fb, limit)
  }

  /** The plan for these changes. There is one exactly when something changed on
      the screen, and it gives up exactly when the largest change with its margin
      is over the limit on its own. */
  ghost predicate Planned(plan: ChangePlan, live: seq<Rect>, fb: Rect, margin: u16, limit: nat) {
    if live == [] then plan.Nothing?
    else
      var seed := (LargestFirstSorts(live); Expand(LargestFirst(live)[0], margin, fb));
      if seed.Area() > limit then plan == Degraded(seed.Area())
      else
        && plan.Crop? && plan.margin == margin
        && plan.damage == Greedily(LargestFirst(live), margin, fb, limit)
        && plan.rect == CropAround(plan.damage, margin, fb)
        && Sound(plan.rect, plan.damage, margin, fb, limit)
        && plan.damage != [] && plan.damage[0] == LargestFirst(live)[0] && BySize(plan.damage)
        && exists left :: LeftOut(plan, left, live, fb, limit)
  }

  /** No rectangle is larger, and none before it as large. */
  predicate FirstLargest(rects: seq<Rect>, i: nat) {
    && i < |rects|
    && (forall j :: 0 <= j < |rects| ==> rects[j].Area() <= rects[i].Area())
    && (forall j :: 0 <= j < i ==> rects[j].Area() < rects[i].Area())
  }

  lemma {:induction false} ByAreaAt(rects: seq<Rect>, k: nat)
    requires k < |rects|
    ensures ByArea(rects)[k] == Keyed(rects[k].Area(), rects[k])
  {
    hide Rect.Area;
    if k > 0 {
      ByAreaAt(rects[1..], k - 1);
    }
  }

  lemma LargestIsFirst(rects: seq<Rect>) returns (i: nat)
    requires rects != []
    ensures FirstLargest(rects, i) && LargestFirst(rects) != [] && LargestFirst(rects)[0] == rects[i]
  {
    hide Rect.Area, ByArea, SortDescending;
    i := HeadIsFirstLargest(ByArea(rects));
    ValuesAt(SortDescending(ByArea(rects)), 0);
    forall k | 0 <= k < |rects|
      ensures ByArea(rects)[k] == Keyed(rects[k].Area(), rects[k])
    {
      ByAreaAt(rects, k);
    }
  }

  /** The plan for the first of the largest changes: it is listed first, unless with its
      margin it is over the limit on its own. */
  predicate StartsWith(plan: ChangePlan, r: Rect, margin: u16, fb: Rect, limit: nat) {
    var area := Expand(r, margin, fb).Area();
    && (plan.Degraded? <==> area > limit) && (plan.Degraded? ==> plan.area == area)
    && (plan.Crop? ==> plan.damage != [] && plan.damage[0] == r)
  }

  /** There is nothing to read exactly when nothing changed; and the plan gives up
      exactly when the first of the largest changes is over the limit with its margin,
      says how large that is, and lists that change first otherwise. */
  lemma GivesUpExactly(plan: ChangePlan, live: seq<Rect>, fb: Rect, margin: u16, limit: nat)
    requires Planned(plan, live, fb, margin, limit)
    ensures plan.Nothing? <==> live == []
    ensures live != [] ==> exists i: nat :: FirstLargest(live, i) && StartsWith(plan, live[i], margin, fb, limit)
  {
    hide Greedily, LargestFirst, Expand, CropAround, Rect.Area, Sound, LeftOut;
    if live != [] {
      var i := LargestIsFirst(live);
      hide FirstLargest, BySize;
      assert StartsWith(plan, live[i], margin, fb, limit);
    }
  }

  /** A crop lies on the screen and within the limit, holds every listed change with its
      margin, and every change that is not listed would take it over the limit. */
  lemma CropHoldsAllItCan(plan: ChangePlan, live: seq<Rect>, fb: Rect, margin: u16, limit: nat)
    requires Planned(plan, live, fb, margin, limit) && plan.Crop?
    ensures plan.margin == margin && OnScreen(plan.rect, fb) && plan.rect.Area() <= limit
    ensures forall r :: r in plan.damage ==> r.Within(plan.rect) && Expand(r, margin, fb).Within(plan.rect)
    ensures exists left :: OverTheLimit(plan, left, live, fb, limit)
  {
    hide Greedily, LargestFirst, Expand, CropAround, Rect.Area, Union, OnScreen, Rect.Within, BySize;
    var left :| LeftOut(plan, left, live, fb, limit);
    assert |multiset(plan.damage) + multiset(left)| == |multiset(live)|;
    assert OverTheLimit(plan, left, live, fb, limit);
  }

  /** `left` is the changes that are not listed, and the smallest rectangle around the
      crop and any of them with its margin is over the limit. */
  ghost predicate OverTheLimit(plan: ChangePlan, left: seq<Rect>, live: seq<Rect>, fb: Rect, limit: nat)
    requires plan.Crop?
  {
    && |left| == plan.remaining && |plan.damage| + |left| == |live|
    && multiset(plan.damage) + multiset(left) == multiset(live)
    && forall r :: r in left ==> Union(plan.rect, Expand(r, plan.margin, fb)).Area() > limit
  }

  lemma WithinArea(a: Rect, b: Rect)
    requires a.Within(b)
    ensures a.Area() <= b.Area()
  {
    AreaGrows(a.width, a.height, b.width, b.height);
  }

  /** A rectangle the crop could not take, a larger crop cannot take either. */
  lemma StillTooMuch(crop: Rect, grown: Rect, r: Rect, margin: u16, fb: Rect, limit: nat)
    requires fb.Fits() && OnScreen(crop, fb) && OnScreen(grown, fb) && OnScreen(r, fb) && crop.Within(grown)
    requires !Affordable(crop, r, margin, fb, limit)
    ensures !Affordable(grown, r, margin, fb, limit)
  {
    ExpandExact(r, margin, fb, r.x, r.y);
    var e := Expand(r, margin, fb);
    UnionExact(grown, e, grown);
    UnionExact(crop, e, Union(grown, e));
    WithinArea(Union(crop, e), Union(grown, e));
  }

  /** Taking one more rectangle. */
  lemma Taken(crop: Rect, listed: seq<Rect>, left: seq<Rect>, r: Rect, margin: u16, fb: Rect, limit: nat)
    requires fb.Fits() && OnScreen(r, fb) && (forall l :: l in left ==> OnScreen(l, fb))
    requires Sound(crop, listed, margin, fb, limit) && Maximal(crop, left, margin, fb, limit)
    requires Affordable(crop, r, margin, fb, limit)
    ensures Sound(Union(crop, Expand(r, margin, fb)), listed + [r], margin, fb, limit)
    ensures Maximal(Union(crop, Expand(r, margin, fb)), left, margin, fb, limit)
  {
    ExpandExact(r, margin, fb, r.x, r.y);
    var e := Expand(r, margin, fb);
    var grown := Union(crop, e);
    UnionExact(crop, e, fb);
    forall l | l in left
      ensures !Affordable(grown, l, margin, fb, limit)
    {
      StillTooMuch(crop, grown, l, margin, fb, limit);
    }
  }

  /** The rectangle a `Change` read looks at: the largest change with its margin,
      grown by every other change, in order of size, that keeps it under the
      limit. */
  method PlanChangeCrop(rects: seq<Rect>, fb: Rect, margin: u16, limit: nat) returns (plan: ChangePlan)
    ensures Planned(plan, Live(rects, fb), fb, margin, limit)
  {
    hide Live, LargestFirst, Expand, Maximal, Sound, BySize;
    var live := Live(rects, fb);
    LiveOnScreen(rects, fb);
    if live == [] || fb.Area() == 0 {
      if live != [] {
        assert live[0] in live;
        WithinArea(live[0], fb);
        PositiveArea(live[0]);
      }
      return Nothing;
    }
    LargestFirstSorts(live);
    var sorted := LargestFirst(live);
    forall r | r in sorted
      ensures fb.Fits() && OnScreen(r, fb)
    {
      assert r in multiset(live);
      assert r in live;
    }
    var seed := Expand(sorted[0], margin, fb);
    assert sorted[0] in sorted;
    ExpandExact(sorted[0], margin, fb, sorted[0].x, sorted[0].y);
    if seed.Area() > limit {
      return Degraded(seed.Area());
    }
    ghost var left: seq<Rect>;
    plan, left := GrowCrop(sorted, seed, fb, margin, limit);
    assert LeftOut(plan, left, live, fb, limit);
  }

  /** There is one plan. */
  lemma OnePlan(a: ChangePlan, b: ChangePlan, live: seq<Rect>, fb: Rect, margin: u16, limit: nat)
    requires Planned(a, live, fb, margin, limit) && Planned(b, live, fb, margin, limit)
    ensures a == b
  {
    hide Sound, BySize, Maximal, Greedily, CropAround, LargestFirst, Expand;
    if a.Crop? && b.Crop? {
      var left :| LeftOut(a, left, live, fb, limit);
      var left2 :| LeftOut(b, left2, live, fb, limit);
      assert multiset(left) == multiset(live) - multiset(a.damage) == multiset(left2);
      assert |multiset(left)| == |left| && |multiset(left2)| == |left2|;
    }
  }

  lemma PositiveArea(r: Rect)
    requires !r.IsEmpty()
    ensures r.Area() > 0
  {
  }

  /** The loop that absorbs the other changes. */
  method GrowCrop(live: seq<Rect>, seed: Rect, fb: Rect, margin: u16, limit: nat)
      returns (plan: ChangePlan, ghost left: seq<Rect>)
    requires live != [] && BySize(live) && fb.Fits() && forall r :: r in live ==> OnScreen(r, fb)
    requires seed == Expand(live[0], margin, fb) && seed.Area() <= limit
    ensures plan.Crop? && plan.margin == margin && Sound(plan.rect, plan.damage, margin, fb, limit)
    ensures plan.damage != [] && plan.damage[0] == live[0] && BySize(plan.damage)
    ensures plan.damage == Greedily(live, margin, fb, limit) && plan.rect == CropAround(plan.damage, margin, fb)
    ensures LeftOut(plan, left, live, fb, limit)
  {
    hide Expand, Union, Rect.Area, SoFar, OnScreen, BySize;
    var crop, covered, remaining := seed, [live[0]], 0;
    left := [];
    StartSoFar(live, margin, fb, limit);
    for k := 1 to |live|
      invariant |left| == remaining && SoFar(crop, covered, left, live, k, margin, fb, limit)
    {
      NextSoFar(crop, covered, left, live, k, margin, fb, limit);
      var grown := Union(crop, Expand(live[k], margin, fb));
      if grown.Area() <= limit {
        crop := grown;
        covered := covered + [live[k]];
      } else {
        remaining := remaining + 1;
        left := left + [live[k]];
      }
    }
    plan := Crop(crop, covered, margin, remaining);
    EndSoFar(plan, left, live, fb, limit);
  }

  /** What holds of the crop, of the rectangles listed and of those left out, after
      the first `k` of `live`. */
  ghost predicate SoFar(
    crop: Rect, covered: seq<Rect>, left: seq<Rect>, live: seq<Rect>, k: nat, margin: u16, fb: Rect, limit: nat)
  {
    && fb.Fits() && (forall l :: l in left ==> OnScreen(l, fb))
    && covered != [] && live != [] && covered[0] == live[0]
    && SoFarBySize(covered, live, k) && SoFarGreedy(crop, covered, live, k, margin, fb, limit)
    && Shared(covered, left, live, k)
    && Sound(crop, covered, margin, fb, limit) && Maximal(crop, left, margin, fb, limit)
  }

  lemma StartSoFar(live: seq<Rect>, margin: u16, fb: Rect, limit: nat)
    requires live != [] && BySize(live) && fb.Fits() && OnScreen(live[0], fb)
    requires Expand(live[0], margin, fb).Area() <= limit
    ensures SoFar(Expand(live[0], margin, fb), [live[0]], [], live, 1, margin, fb, limit)
  {
    hide Expand, Maximal, Sound, SoFarBySize, Shared, SoFarGreedy;
    StartGreedy(live, margin, fb, limit);
    StartSize(live);
    StartShared(live);
    StartCrop(live[0], margin, fb, limit);
  }

  lemma NextSoFar(
    crop: Rect, covered: seq<Rect>, left: seq<Rect>, live: seq<Rect>, k: nat, margin: u16, fb: Rect, limit: nat)
    requires SoFar(crop, covered, left, live, k, margin, fb, limit)
    requires 0 < k < |live| && BySize(live) && OnScreen(live[k], fb)
    ensures var grown := Union(crop, Expand(live[k], margin, fb));
      if grown.Area() <= limit
      then SoFar(grown, covered + [live[k]], left, live, k + 1, margin, fb, limit)
      else SoFar(crop, covered, left + [live[k]], live, k + 1, margin, fb, limit)
  {
    hide Expand, Union, Rect.Area, OnScreen, Maximal, Sound, SoFarBySize, Shared, SoFarGreedy, BySize;
    NextSize(covered, live, k);
    NextShared(covered, left, live, k);
    NextGreedy(crop, covered, live, k, margin, fb, limit);
    if Affordable(crop, live[k], margin, fb, limit) {
      Taken(crop, covered, left, live[k], margin, fb, limit);
    } else {
      Refused(crop, left, live[k], margin, fb, limit);
    }
  }

  lemma EndSoFar(plan: ChangePlan, left: seq<Rect>, live: seq<Rect>, fb: Rect, limit: nat)
    requires plan.Crop? && |left| == plan.remaining
    requires SoFar(plan.rect, plan.damage, left, live, |live|, plan.margin, fb, limit)
    ensures Sound(plan.rect, plan.damage, plan.margin, fb, limit)
    ensures plan.damage != [] && live != [] && plan.damage[0] == live[0] && BySize(plan.damage)
    ensures plan.damage == Greedily(live, plan.margin, fb, limit)
    ensures plan.rect == CropAround(plan.damage, plan.margin, fb)
    ensures LeftOut(plan, left, live, fb, limit)
  {
    hide Maximal, Sound, SoFarBySize, Shared, SoFarGreedy, BySize, Greedily, CropAround;
    EndGreedy(plan.rect, plan.damage, live, plan.margin, fb, limit);
    EndShared(plan.damage, left, live);
    EndSize(plan.damage, live);
  }

  /** Listed largest first, and nothing still to come is larger. */
  predicate SoFarBySize(covered: seq<Rect>, live: seq<Rect>, k: nat) {
    && BySize(covered)
    && forall i, j :: 0 <= i < |covered| && k <= j < |live| ==> covered[i].Area() >= live[j].Area()
  }

  lemma StartSize(live: seq<Rect>)
    requires live != [] && BySize(live)
    ensures SoFarBySize([live[0]], live, 1)
  {
  }

  lemma NextSize(covered: seq<Rect>, live: seq<Rect>, k: nat)
    requires BySize(live) && SoFarBySize(covered, live, k) && k < |live|
    ensures SoFarBySize(covered + [live[k]], live, k + 1) && SoFarBySize(covered, live, k + 1)
  {
  }

  lemma EndSize(covered: seq<Rect>, live: seq<Rect>)
    requires SoFarBySize(covered, live, |live|)
    ensures BySize(covered)
  {
  }

  /** Of the first `k` rectangles the greedy ones are listed, and the crop is the
      one around them. */
  predicate SoFarGreedy(crop: Rect, covered: seq<Rect>, live: seq<Rect>, k: nat, margin: u16, fb: Rect, limit: nat) {
    k <= |live| && covered == Greedily(live[..k], margin, fb, limit) && crop == CropAround(covered, margin, fb)
  }

  lemma StartGreedy(live: seq<Rect>, margin: u16, fb: Rect, limit: nat)
    requires live != []
    ensures SoFarGreedy(Expand(live[0], margin, fb), [live[0]], live, 1, margin, fb, limit)
  {
    AroundOne(live[0], margin, fb);
    assert live[..1] == [live[0]];
  }

  lemma NextGreedy(crop: Rect, covered: seq<Rect>, live: seq<Rect>, k: nat, margin: u16, fb: Rect, limit: nat)
    requires SoFarGreedy(crop, covered, live, k, margin, fb, limit) && 0 < k < |live|
    ensures if Affordable(crop, live[k], margin, fb, limit)
      then SoFarGreedy(Union(crop, Expand(live[k], margin, fb)), covered + [live[k]], live, k + 1, margin, fb, limit)
      else SoFarGreedy(crop, covered, live, k + 1, margin, fb, limit)
  {
    hide Expand, CropAround, Affordable;
    AroundOneMore(covered, live[k], margin, fb);
    assert live[..k + 1][..k] == live[..k];
  }

  lemma EndGreedy(crop: Rect, covered: seq<Rect>, live: seq<Rect>, margin: u16, fb: Rect, limit: nat)
    requires SoFarGreedy(crop, covered, live, |live|, margin, fb, limit)
    ensures covered == Greedily(live, margin, fb, limit) && crop == CropAround(covered, margin, fb)
  {
    assert live[..|live|] == live;
  }

  /** The first `k` rectangles are either listed or left out. */
  ghost predicate Shared(covered: seq<Rect>, left: seq<Rect>, live: seq<Rect>, k: nat) {
    k <= |live| && multiset(covered) + multiset(left) == multiset(live[..k])
  }

  lemma StartShared(live: seq<Rect>)
    requires live != []
    ensures Shared([live[0]], [], live, 1)
  {
    assert live[..1] == [live[0]];
  }

  lemma NextShared(covered: seq<Rect>, left: seq<Rect>, live: seq<Rect>, k: nat)
    requires Shared(covered, left, live, k) && k < |live|
    ensures Shared(covered + [live[k]], left, live, k + 1) && Shared(covered, left + [live[k]], live, k + 1)
  {
    assert live[..k + 1] == live[..k] + [live[k]];
  }

  lemma EndShared(covered: seq<Rect>, left: seq<Rect>, live: seq<Rect>)
    requires Shared(covered, left, live, |live|)
    ensures multiset(covered) + multiset(left) == multiset(live)
  {
    assert live[..|live|] == live;
  }

  lemma StartCrop(r: Rect, margin: u16, fb: Rect, limit: nat)
    requires fb.Fits() && OnScreen(r, fb) && Expand(r, margin, fb).Area() <= limit
    ensures Sound(Expand(r, margin, fb), [r], margin, fb, limit)
    ensures Maximal(Expand(r, margin, fb), [], margin, fb, limit)
  {
    ExpandExact(r, margin, fb, r.x, r.y);
  }

  lemma Refused(crop: Rect, left: seq<Rect>, r: Rect, margin: u16, fb: Rect, limit: nat)
    requires Maximal(crop, left, margin, fb, limit) && !Affordable(crop, r, margin, fb, limit)
    ensures Maximal(crop, left + [r], margin, fb, limit)
  {
  }
}
