/** The size and the scale of the image that a region is sent as
    (crates/agent-perception/src/encode.rs:139-179 and the output size in
    crates/remote-pixel/src/thumbnail.rs:8-24), and what that makes of the way
    from a screen pixel to the image and back. */
module ImageSizes {
  import opened Geometry
  import opened Grids
  import opened ImageSpaces
  import opened Wrappers

  const DEFAULT_LONG_EDGE := 1456

  datatype Size = Size(width: nat, height: nat)

  /** `n / d`, rounded to nearest, and at least 1. */
  function Rounded(n: nat, d: nat): nat
    requires d > 0
  {
    Max((n + d / 2) / d, 1)
  }

  /** The width is bounded first, by the long edge or by what the long edge leaves
      it, and the height follows from the width. */
  function Downscaled(width: nat, height: nat, longEdge: nat): Size {
    if width == 0 || height == 0 || longEdge == 0 then Size(0, 0)
    else if Max(width, height) <= longEdge then Size(width, height)
    else
      var most := if width >= height then longEdge else Rounded(width * longEdge, height);
      if width <= most then Size(width, height) else Size(most, Rounded(height * most, width))
  }

  /** The image of a region, with its one scale, the horizontal one. */
  function Encoded(region: Rect, longEdge: Option<nat>): ImageSpace {
    match longEdge
    case None => ImageSpace(region, region.width, region.height, 1.0)
    case Some(edge) =>
      var size := Downscaled(region.width, region.height, edge);
      if size.width == 0 || size.height == 0 then ImageSpace(region, 0, 0, 1.0)
      else ImageSpace(region, size.width, size.height, Over(size.width as real, region.width as real))
  }

  // ---------------------------------------------------------------- rounding

  lemma RoundedNear(n: nat, d: nat)
    requires d > 0
    ensures 2 * (n - d * Rounded(n, d)) <= d
    ensures Rounded(n, d) > 1 ==> 2 * (d * Rounded(n, d) - n) <= d
  {
    var q := (n + d / 2) / d;
    assert d * q <= n + d / 2 < d * q + d;
    if q < 1 {
      assert q == 0;
    }
  }

  /** Both edges shrink, and the height is the scaled height rounded. */
  lemma DownscaledIs(width: nat, height: nat, longEdge: nat)
    requires width > 0 && height > 0 && longEdge > 0
    ensures var size := Downscaled(width, height, longEdge);
      && 1 <= size.width <= width && 1 <= size.height
      && 2 * (height * size.width - width * size.height) <= width
  {
    var size := Downscaled(width, height, longEdge);
    if size == Size(width, height) {
      assert height * size.width == width * size.height;
    } else {
      RoundedNear(height * size.width, width);
    }
  }

  /** An image both of whose edges are within the long edge is sent as it is, and one
      that is no taller than wide otherwise fills the long edge. */
  lemma NoSmallerThanAsked(width: nat, height: nat, longEdge: nat)
    requires width > 0 && height > 0 && longEdge > 0
    ensures var size := Downscaled(width, height, longEdge);
      && (width <= longEdge && height <= longEdge ==> size == Size(width, height))
      && (width >= height && width > longEdge ==> size.width == longEdge)
  {
    hide Rounded;
  }

  lemma ScaleIs(w: nat, width: nat)
    requires 1 <= w <= width
    ensures 0.0 < Over(w as real, width as real) <= 1.0
    ensures Times(width as real, Over(w as real, width as real)) == w as real
  {
  }

  /** The image is short of the scaled height by at most half a pixel. */
  lemma ShortByHalf(width: nat, height: nat, w: nat, h: nat)
    requires 1 <= w <= width && 2 * (height * w - width * h) <= width
    ensures Times(height as real, Over(w as real, width as real)) - h as real <= 0.5
  {
    var s := Over(w as real, width as real);
    ScaleIs(w, width);
    hide Times, Over;
    Regroup(height as real, s, width as real);
    SameProduct(height, w);
    SameProduct(width, h);
    HalfShort(Times(height as real, s), h as real, width, height * w, width * h);
  }

  lemma HalfShort(t: real, h: real, width: nat, most: int, had: int)
    requires width > 0 && Times(t, width as real) == most as real && had as real == Times(h, width as real)
    requires 2 * (most - had) <= width
    ensures t - h <= 0.5
  {
    hide Times;
    TimesSum(t - h, h, width as real);
    Cancel(t - h, width as real);
  }

  lemma Regroup(a: real, s: real, n: real)
    ensures Times(Times(a, s), n) == Times(a, Times(n, s))
  {
  }

  lemma SameProduct(a: nat, b: nat)
    ensures (a * b) as real == Times(a as real, b as real) == Times(b as real, a as real)
  {
  }

  lemma Cancel(a: real, n: real)
    requires n > 0.0 && 2.0 * Times(a, n) <= n
    ensures a <= 0.5
  {
    hide Times;
    TimesSum(0.0, 0.0, n);
    TimesGrows(a, 0.5, n);
  }

  // ---------------------------------------------------------------- both ways

  /** Across, no pixel runs out of image and the way back stays inside the region. */
  lemma AcrossIsNear(region: Rect, u: u16, w: nat)
    requires region.Fits() && 1 <= w <= region.width && u < region.width
    ensures var s := Over(w as real, region.width as real);
      && 0.0 < s <= 1.0
      && OntoImage(u, s, w) < w
      && Near(u, SourceOffset(OntoImage(u, s, w), s), s, 0.5 + s / 2.0, 0.5 + s / 2.0)
      && SourceOffset(OntoImage(u, s, w), s) < region.width
  {
    hide Times, Offset, Over, OntoImage, Near;
    var s := Over(w as real, region.width as real);
    ScaleIs(w, region.width);
    NeverRunsOut(s, region.width, w);
    HalfABoxAway(u, s, region.width, w, s / 2.0);
    LastPixel(u, s, w);
    OffsetWithin(OntoImage(u, s, w), s, region.width);
    OffsetBox(OntoImage(u, s, w), s);
  }

  lemma LastPixel(u: nat, s: real, limit: nat)
    requires limit >= 1
    ensures OntoImage(u, s, limit) < limit
  {
  }

  /** Down, the image may be short by half a pixel of its own. */
  lemma DownIsNear(u: u16, s: real, height: u16, h: nat)
    requires 0.0 < s <= 1.0 && u < height && h >= 1 && Times(height as real, s) - h as real <= 0.5
    ensures OntoImage(u, s, h) < h
    ensures Near(u, SourceOffset(OntoImage(u, s, h), s), s, 0.5 + s / 2.0, 1.0)
  {
    hide Times, Offset, OntoImage, Near;
    HalfABoxAway(u, s, height, h, 0.5);
    LastPixel(u, s, h);
  }

  lemma ThereAndBackAre(space: ImageSpace, p: Point)
    requires space.scale > 0.0 && space.width >= 1 && space.height >= 1 && space.Covers(p)
    ensures var mx, my := OntoImage(p.x - space.region.x, space.scale, space.width),
                          OntoImage(p.y - space.region.y, space.scale, space.height);
      && mx < space.width && my < space.height
      && space.ToImage(p) == Ok((mx, my))
      && space.ToFramebuffer(mx, my) == Ok(Point(Wrap(space.region.x + SourceOffset(mx, space.scale)),
                                                 Wrap(space.region.y + SourceOffset(my, space.scale))))
  {
    hide Times, Over, SourceOffset, Round, Scaled, Wrap;
  }

  /** Pixel `m` of the image stands for a screen pixel near `p`: across, in the
      region and to within half a source box and half a pixel of the image; down,
      as far past `p`, and to within one pixel of the image short of it. */
  predicate StandsNear(space: ImageSpace, m: (nat, nat), p: Point)
    requires space.scale > 0.0
  {
    var s, region := space.scale, space.region;
    var x, y := SourceOffset(m.0, s), SourceOffset(m.1, s);
    && x < region.width && region.x + x <= U16_MAX
    && space.ToFramebuffer(m.0, m.1) == Ok(Point(region.x + x, Wrap(region.y + y)))
    && Near(p.x - region.x, x, s, 0.5 + s / 2.0, 0.5 + s / 2.0)
    && Near(p.y - region.y, y, s, 0.5 + s / 2.0, 1.0)
  }

  /** Of every image that is sent of a region, every screen pixel of the region has
      a pixel, and that pixel stands for a screen pixel near it. */
  lemma SentImagesAreNear(region: Rect, longEdge: Option<nat>, p: Point)
    requires region.Fits() && region.Has(p.x, p.y) && longEdge != Some(0)
    ensures var space := Encoded(region, longEdge);
      && 0.0 < space.scale <= 1.0
      && space.ToImage(p).Ok?
      && StandsNear(space, space.ToImage(p).value, p)
  {
    hide Times, Over, Offset, SourceOffset, OntoImage, Near, Encoded, Wrap;
    hide ImageSpace.ToImage, ImageSpace.ToFramebuffer;
    var space := Encoded(region, longEdge);
    SentSize(region, longEdge);
    ThereAndBackAre(space, p);
    AcrossIsNear(region, p.x - region.x, space.width);
    DownIsNear(p.y - region.y, space.scale, region.height, space.height);
    InRegion(region, SourceOffset(OntoImage(p.x - region.x, space.scale, space.width), space.scale));
  }

  lemma InRegion(region: Rect, x: u16)
    requires region.Fits() && x < region.width
    ensures region.x + x <= U16_MAX && Wrap(region.x + x) == region.x + x
  {
  }

  lemma SentSize(region: Rect, longEdge: Option<nat>)
    requires !region.IsEmpty() && longEdge != Some(0)
    ensures var space := Encoded(region, longEdge);
      && space.region == region
      && 1 <= space.width <= region.width && 1 <= space.height
      && space.scale == Over(space.width as real, region.width as real)
      && 0.0 < space.scale <= 1.0
      && Times(region.height as real, space.scale) - space.height as real <= 0.5
  {
    hide Downscaled;
    var space := Encoded(region, longEdge);
    if longEdge.Some? {
      DownscaledIs(region.width, region.height, longEdge.value);
    } else {
      OverOne(region.width as real);
    }
    ScaleIs(space.width, region.width);
    ShortByHalf(region.width, region.height, space.width, space.height);
  }

  lemma OverOne(a: real)
    requires a > 0.0
    ensures Over(a, a) == 1.0
  {
  }

  /** A 3440 by 1440 screen at the default long edge is an image of 1456 by 609.
      Its bottom row is the bottom row of the image, which stands for row 1437:
      further off than half a source box and half a pixel. */
  lemma BottomRowRunsOut()
    ensures var space := Encoded(Rect(0, 0, 3440, 1440), Some(DEFAULT_LONG_EDGE));
      && space == ImageSpace(Rect(0, 0, 3440, 1440), 1456, 609, Over(1456.0, 3440.0))
      && space.ToImage(Point(0, 1439)) == Ok((0, 608))
      && space.ToFramebuffer(0, 608) == Ok(Point(1, 1437))
      && !Near(1439, 1437, space.scale, 0.5 + space.scale / 2.0, 0.5 + space.scale / 2.0)
  {
    var s := Over(1456.0, 3440.0);
    assert Round(Scaled(1439, s)) == 609 && Round(Scaled(0, s)) == 0;
    assert Offset(608, s) == 1437 && Offset(0, s) == 1;
  }

  // ---------------------------------------------------------------- the long edge

  /** No edge of the image is longer than the long edge if and only if the region
      is no taller than wide, or its width was not rounded up by half a row or
      more of what that makes the image taller. */
  lemma LongEdgeExactly(width: nat, height: nat, longEdge: nat)
    requires width > 0 && height > 0 && longEdge > 0
    ensures var size := Downscaled(width, height, longEdge);
      (size.width <= longEdge && size.height <= longEdge) <==>
      width >= height || 2 * (height * size.width - width * longEdge) < width
  {
    hide Rounded;
    if Max(width, height) <= longEdge {
      MulMono(height, longEdge, width);
    } else if width >= height {
      MulMono(height, width, longEdge);
      RoundedAtMost(height * longEdge, width, longEdge);
    } else {
      var most := Rounded(width * longEdge, height);
      MulMono(width, height, longEdge);
      RoundedAtMost(width * longEdge, height, longEdge);
      if width <= most {
        Distributes(longEdge, height - longEdge, width);
        MulMono(1, height - longEdge, width);
      } else {
        RoundedAtMost(height * most, width, longEdge);
      }
    }
  }

  lemma RoundedAtMost(n: nat, d: nat, most: nat)
    requires d > 0 && most > 0
    ensures Rounded(n, d) <= most <==> 2 * (n - d * most) < d
  {
    Distributes(most, 1, d);
    if n + d / 2 < d * most + d {
      DivAtMost(n + d / 2, d, most);
    } else {
      DivAtLeast(n + d / 2, d, most + 1);
    }
  }

  /** A strip of 10 by 4000 at the default long edge is an image of 4 by 1600. */
  lemma LongEdgeExceeded()
    ensures Downscaled(10, 4000, DEFAULT_LONG_EDGE) == Size(4, 1600)
  {
  }
}
