/** The way from a pixel of an image to a pixel of the screen and back
    (crates/agent-perception/src/transform.rs), over exact reals. */
module ImageSpaces {
  import opened Geometry
  import opened Wrappers

  datatype OutOfImage = OutOfImage(x: nat, y: nat)
  datatype OutsideRegion = OutsideRegion(point: Point)

  /** Half away from zero, as `f64::round` does. */
  function Round(x: real): int {
    if x >= 0.0 then (x + 0.5).Floor else -((0.5 - x).Floor)
  }

  function Times(a: real, s: real): real {
    a * s
  }

  function Over(a: real, s: real): real
    requires s > 0.0
  {
    a / s
  }

  function Offset(m: nat, s: real): int
    requires s > 0.0
  {
    Over(m as real + 0.5, s).Floor
  }

  /** Saturating, never wrapping. */
  function SourceOffset(m: nat, s: real): u16
    requires s > 0.0
  {
    var offset := Offset(m, s);
    if offset < 0 then 0 else if offset > U16_MAX then U16_MAX else offset
  }

  function Scaled(u: int, s: real): real {
    Times(u as real + 0.5, s) - 0.5
  }

  function OntoImage(u: nat, s: real, limit: nat): nat {
    var scaled := Max(Round(Scaled(u, s)), 0);
    Min(scaled, Max(limit - 1, 0))
  }

  /** The pixels of a region, scaled down to `width` by `height`. */
  datatype ImageSpace = ImageSpace(region: Rect, width: nat, height: nat, scale: real) {
    predicate Covers(p: Point) {
      region.Has(p.x, p.y)
    }

    /** The screen pixel in the middle of what one image pixel shows. */
    function ToFramebuffer(mx: nat, my: nat): Result<Point, OutOfImage>
      requires scale > 0.0
    {
      if mx >= width || my >= height then Err(OutOfImage(mx, my))
      else Ok(Point(Wrap(region.x + SourceOffset(mx, scale)), Wrap(region.y + SourceOffset(my, scale))))
    }

    /** The pixel of the image in which a screen pixel ended up. */
    function ToImage(p: Point): Result<(nat, nat), OutsideRegion> {
      if !Covers(p) then Err(OutsideRegion(p))
      else Ok((OntoImage(p.x - region.x, scale, width), OntoImage(p.y - region.y, scale, height)))
    }
  }

  /** A pixel is refused if and only if it is not one of the image, and a screen pixel
      if and only if it is not one of the region. */
  lemma RefusedExactly(space: ImageSpace, mx: nat, my: nat, p: Point)
    requires space.scale > 0.0
    ensures var r, there, back := space.region, space.ToFramebuffer(mx, my), space.ToImage(p);
      && (there.Ok? <==> mx < space.width && my < space.height)
      && (there.Err? ==> there.error == OutOfImage(mx, my))
      && (back.Ok? <==> r.x <= p.x < r.x + r.width && r.y <= p.y < r.y + r.height)
      && (back.Err? ==> back.error == OutsideRegion(p))
  {
  }

  // ---------------------------------------------------------------- one axis

  lemma TimesGrows(a: real, b: real, s: real)
    requires s > 0.0
    ensures a <= b <==> Times(a, s) <= Times(b, s)
  {
  }

  lemma TimesSum(a: real, b: real, s: real)
    ensures Times(a + b, s) == Times(a, s) + Times(b, s)
    ensures Times(1.0, s) == s && Times(0.5, s) == s / 2.0 && Times(0.0, s) == 0.0
  {
  }

  lemma OverTimes(a: real, s: real)
    requires s > 0.0
    ensures Times(Over(a, s), s) == a && (a > 0.0 ==> Over(a, s) > 0.0)
  {
  }

  /** The offset is the source pixel whose box holds the centre of pixel `m`. */
  lemma OffsetBox(m: nat, s: real)
    requires s > 0.0
    ensures Offset(m, s) >= 0
    ensures Times(Offset(m, s) as real, s) <= m as real + 0.5 < Times(Offset(m, s) as real, s) + s
  {
    hide Times, Over;
    var q := Over(m as real + 0.5, s);
    OverTimes(m as real + 0.5, s);
    var off := Offset(m, s) as real;
    assert off <= q < off + 1.0;
    TimesGrows(off, q, s);
    TimesGrows(off + 1.0, q, s);
    TimesSum(off, 1.0, s);
  }

  /** Scaling the centre of that source pixel lands on pixel `m` again. */
  lemma ThereAndBack(m: nat, s: real)
    requires 0.0 < s <= 1.0
    ensures Round(Scaled(Offset(m, s), s)) == m
  {
    hide Times, Offset;
    OffsetBox(m, s);
    var off := Offset(m, s);
    TimesSum(off as real, 0.5, s);
    if s == 1.0 {
      TimesOne(off as real);
    }
    NearPixel(m, s, Times(off as real, s), Scaled(off, s));
    RoundIs(Scaled(off, s), m);
  }

  lemma TimesOne(a: real)
    ensures Times(a, 1.0) == a
  {
  }

  lemma NearPixel(m: nat, s: real, p: real, r: real)
    requires 0.0 < s <= 1.0 && p <= m as real + 0.5 < p + s && r == p + s / 2.0 - 0.5
    requires s == 1.0 ==> p == p.Floor as real
    ensures m as real - 0.5 < r < m as real + 0.5
  {
  }

  lemma RoundIs(r: real, m: int)
    requires m as real - 0.5 < r < m as real + 0.5
    ensures Round(r) == m
  {
  }

  lemma OffsetWithin(m: nat, s: real, len: nat)
    requires s > 0.0
    ensures Offset(m, s) < len <==> m as real + 0.5 < Times(len as real, s)
  {
    hide Times, Offset;
    OffsetBox(m, s);
    var off := Offset(m, s);
    TimesGrows(off as real + 1.0, len as real, s);
    TimesSum(off as real, 1.0, s);
    TimesGrows(len as real, off as real, s);
  }

  /** The framebuffer coordinate of pixel `m` is inside the region's side exactly
      when nothing wraps or saturates and the centre of `m` lies in the scaled
      side. */
  predicate LandsInside(m: nat, s: real, origin: u16, len: u16)
    requires s > 0.0
  {
    m as real + 0.5 < Times(len as real, s) && origin + Offset(m, s) <= U16_MAX
  }

  lemma InsideExactly(m: nat, s: real, origin: u16, len: u16)
    requires s > 0.0
    ensures var v := Wrap(origin + SourceOffset(m, s));
            (origin <= v < origin + len <==> LandsInside(m, s, origin, len))
    ensures LandsInside(m, s, origin, len) ==> Wrap(origin + SourceOffset(m, s)) == origin + Offset(m, s)
  {
    hide Times, Offset;
    OffsetBox(m, s);
    OffsetWithin(m, s, len);
    var n := origin + SourceOffset(m, s);
    if n > U16_MAX {
      assert Wrap(n) == n - 0x1_0000;
    } else {
      assert Wrap(n) == n;
    }
  }

  lemma CentreScales(u: nat, s: real)
    requires s > 0.0
    ensures Scaled(u, s) == Times(u as real, s) + s / 2.0 - 0.5 && Times(u as real, s) >= 0.0
  {
    hide Times;
    TimesSum(u as real, 0.5, s);
    TimesGrows(0.0, u as real, s);
  }

  /** How far `back` is from `u`, measured on the image: `ahead` at most if past it,
      `behind` at most if short of it. */
  predicate Near(u: int, back: int, s: real, ahead: real, behind: real) {
    && Times(back as real, s) - Times(u as real, s) <= ahead
    && Times(u as real, s) - Times(back as real, s) <= behind
  }

  /** Going the other way is off by at most half a source box and half a pixel
      (both as they measure on the image); where the image runs out of pixels, by
      at most half a pixel and what the image is short of its scaled side. */
  lemma HalfABoxAway(u: u16, s: real, len: u16, limit: nat, short: real)
    requires 0.0 < s <= 1.0 && u < len && limit >= 1
    requires Times(len as real, s) - limit as real <= short && s / 2.0 <= short
    ensures Near(u, SourceOffset(OntoImage(u, s, limit), s), s, 0.5 + s / 2.0, 0.5 + short)
    ensures Round(Scaled(u, s)) < limit ==>
      Near(u, SourceOffset(OntoImage(u, s, limit), s), s, 0.5 + s / 2.0, 0.5 + s / 2.0)
  {
    hide Times, Offset;
    var m := OntoImage(u, s, limit);
    CentreScales(u, s);
    assert m as real - 0.5 <= Scaled(u, s);
    TimesGrows(u as real + 1.0, len as real, s);
    TimesSum(u as real, 1.0, s);
    OffsetBox(m, s);
    var off := Offset(m, s);
    var back := SourceOffset(m, s);
    if off > U16_MAX {
      TimesGrows(back as real, off as real, s);
      TimesGrows(u as real, back as real, s);
    } else {
      assert back == off;
    }
  }

  lemma RoundBelow(r: real, limit: nat)
    requires r > -0.5
    ensures Round(r) < limit <==> r < limit as real - 0.5
  {
  }

  /** No pixel of the side runs out of image if and only if the image is short of
      the scaled side by less than half a source box. */
  lemma NeverRunsOut(s: real, len: u16, limit: nat)
    requires 0.0 < s <= 1.0
    ensures (forall u: u16 :: u < len ==> Round(Scaled(u, s)) < limit) <==>
      Times(len as real, s) - limit as real < s / 2.0
  {
    hide Times, Scaled, Round;
    forall u: u16 | u < len
      ensures Round(Scaled(u, s)) < limit <==> Times(u as real, s) + s / 2.0 < limit as real
      ensures Times(u as real, s) + s <= Times(len as real, s)
    {
      CentreScales(u, s);
      RoundBelow(Scaled(u, s), limit);
      TimesGrows(u as real + 1.0, len as real, s);
      TimesSum(u as real, 1.0, s);
    }
    if len > 0 {
      var last: u16 := len - 1;
      TimesSum(last as real, 1.0, s);
      assert Times(last as real, s) == Times(len as real, s) - s;
      assert Round(Scaled(last, s)) < limit <==> Times(len as real, s) - limit as real < s / 2.0;
    } else {
      TimesSum(0.0, 0.0, s);
      assert Times(len as real, s) == 0.0;
    }
  }

  // ---------------------------------------------------------------- both axes

  /** A pixel of the image names the screen pixel that names it back, if and only
      if that screen pixel is inside the region; otherwise it is refused. */
  lemma CoordinateRoundTrip(space: ImageSpace, mx: nat, my: nat)
    requires 0.0 < space.scale <= 1.0 && mx < space.width && my < space.height
    ensures var p := space.ToFramebuffer(mx, my);
            && p.Ok?
            && (space.ToImage(p.value) == Ok((mx, my)) <==> space.Covers(p.value))
            && (space.ToImage(p.value).Err? <==> !space.Covers(p.value))
            && (space.Covers(p.value) <==>
                && LandsInside(mx, space.scale, space.region.x, space.region.width)
                && LandsInside(my, space.scale, space.region.y, space.region.height))
  {
    hide Times, Offset, Round, Scaled, LandsInside;
    InsideExactly(mx, space.scale, space.region.x, space.region.width);
    InsideExactly(my, space.scale, space.region.y, space.region.height);
    ThereAndBack(mx, space.scale);
    ThereAndBack(my, space.scale);
  }

  /** At scale 1 the way back is the identity, with no rounding. */
  lemma UnscaledIsExact(region: Rect, mx: nat, my: nat)
    requires region.Fits() && mx < region.width && my < region.height
    ensures ImageSpace(region, region.width, region.height, 1.0).ToFramebuffer(mx, my) ==
      Ok(Point(region.x + mx, region.y + my))
  {
    OffsetOne(mx);
    OffsetOne(my);
    hide Offset, Wrap;
    WrapSmall(region.x + mx);
    WrapSmall(region.y + my);
  }

  lemma OffsetOne(m: nat)
    ensures Offset(m, 1.0) == m
  {
    assert Over(m as real + 0.5, 1.0) == m as real + 0.5;
    hide Over;
  }
}
