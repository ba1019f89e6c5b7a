/** What one rectangle achieves for the mirror, pixel by pixel: when it covers a
    pixel, when it leaves it covered and when it takes its cover away, what it draws
    there, and how a repaint redeems a stale mirror
    (crates/agent-perception/src/mirror.rs:377-460, coverage.rs:28-33). */
module MirrorEffects {
  import opened Compositing
  import opened CoverageMarks
  import opened Geometry
  import opened MirrorTruth
  import opened OneTiling
  import opened Pictures
  import opened Reads
  import opened RegionCounts
  import opened StaleTilings
  import opened Wrappers

  predicate CoveredIn(s: MirrorState, x: nat, y: nat) {
    CoveredBy(s.marks, s.picture.width, s.picture.height, x, y)
  }

  /** Every pixel on the screen of a tile this rectangle reaches into is covered. */
  ghost predicate WholeAround(s: MirrorState, r: Rect) {
    forall u: nat, v: nat ::
      s.picture.InBounds(u, v) && Touches(r, s.picture.width, s.picture.height, u / TILE, v / TILE) ==>
        CoveredIn(s, u, v)
  }

  /** The payload tells what the rectangle now shows: a block with a pixel for each of
      its own, an image that was decoded, or a copy of what the mirror vouches for. */
  ghost predicate Arrived(s: MirrorState, d: DecodedRect) {
    match d.payload
    case Rgba(pixels) => |pixels| >= d.rect.width * d.rect.height
    case Jpeg(decoded) => decoded.Some?
    case CopyRect(srcX, srcY) => WholeAround(s, Rect(srcX, srcY, d.rect.width, d.rect.height))
    case H264(_) => false
  }

  /** Nothing was to be drawn. */
  predicate DrawsNothing(d: DecodedRect) {
    d.rect.width == 0 || d.rect.height == 0 || d.payload == H264(true)
  }

  /** The payload, once it arrived, reaches this pixel of its rectangle: an image may
      be smaller. What it reaches must not run past the last 16-bit coordinate. */
  predicate ReachesPixel(d: DecodedRect, x: nat, y: nat) {
    var r := d.rect;
    var w, h := r.width, r.height;
    if d.payload.Jpeg? && d.payload.decoded.Some? then
      var image := d.payload.decoded.value;
      && r.x <= x < r.x + w && x < r.x + image.width && r.y <= y < r.y + h && y < r.y + image.height
      && (r.x + w < 0x1_0000 || r.x + image.width < 0x1_0000) && (r.y + h < 0x1_0000 || r.y + image.height < 0x1_0000)
    else
      && r.x <= x < r.x + w && r.y <= y < r.y + h
      && r.x + w < 0x1_0000 && r.y + h < 0x1_0000
  }

  lemma AllWrittenIs(s: MirrorState, r: Rect)
    requires s.Ok()
    ensures AllWritten(s.SceneOf(r)) <==> WholeAround(s, r)
  {
    var w, h := s.picture.width, s.picture.height;
    if AllWritten(s.SceneOf(r)) {
      forall u: nat, v: nat | s.picture.InBounds(u, v) && Touches(r, w, h, u / TILE, v / TILE)
        ensures CoveredIn(s, u, v)
      {
        assert s.SceneOf(r).State(u / TILE, v / TILE) == Written;
        assert InTile(w, h, u / TILE, v / TILE, u, v);
      }
    }
    if WholeAround(s, r) {
      forall c: nat, t: nat | Touches(r, w, h, c, t)
        ensures s.SceneOf(r).State(c, t) == Written
      {
        forall x, y | InTile(w, h, c, t, x, y)
          ensures CoveredBy(s.marks, w, h, x, y)
        {
          assert CoveredIn(s, x, y);
        }
      }
    }
  }

  /** A pixel is covered after a rectangle if and only if nothing was to be drawn and
      it was; or the payload arrived and reaches it, or it was covered before; or the
      payload was lost, the rectangle reaches into no part of the pixel's tile, and it
      was covered before. */
  lemma CoversExactly(s: MirrorState, d: DecodedRect, x: nat, y: nat)
    requires s.Ok() && s.picture.InBounds(x, y)
    ensures CoveredIn(ApplyRect(s, d), x, y) <==>
      if DrawsNothing(d) then CoveredIn(s, x, y)
      else if Arrived(s, d) then ReachesPixel(d, x, y) || CoveredIn(s, x, y)
      else !Touches(d.rect, s.picture.width, s.picture.height, x / TILE, y / TILE) && CoveredIn(s, x, y)
  {
    var w, h := s.picture.width, s.picture.height;
    if DrawsNothing(d) {
      assert s.marks + [] == s.marks;
    } else {
      if d.payload.CopyRect? {
        AllWrittenIs(s, Rect(d.payload.srcX, d.payload.srcY, d.rect.width, d.rect.height));
      }
      hide AllWritten, WholeAround, Touches, CoveredBy, CompositedPicture;
      var mark := MarkFor(s, d)[0];
      assert MarkFor(s, d) == [mark];
      OneMoreMark(s.marks, mark, w, h, x, y);
    }
  }

  /** Each pixel of the tile that is on the screen is covered. */
  ghost predicate WholeTile(s: MirrorState, c: nat, r: nat) {
    forall x: nat, y: nat ::
      x < s.picture.width && y < s.picture.height && x / 16 == c && y / 16 == r ==> CoveredIn(s, x, y)
  }

  /** A tile is written exactly while it is whole. Otherwise it is stale once a
      rectangle that was lost has reached into it, and was never written until then. */
  lemma TileStates(s: MirrorState, c: nat, r: nat)
    requires s.Ok()
    ensures StateOf(s.marks, s.picture.width, s.picture.height, c, r) ==
      if WholeTile(s, c, r) then Written
      else if EverStale(s.marks, s.picture.width, s.picture.height, c, r) then Stale
      else NeverWritten
  {
    var w, h := s.picture.width, s.picture.height;
    hide CoveredBy, EverStale;
    if FullyCovered(s.marks, w, h, c, r) {
      forall x: nat, y: nat | x < w && y < h && x / 16 == c && y / 16 == r
        ensures CoveredIn(s, x, y)
      {
        assert InTile(w, h, c, r, x, y);
      }
    }
    if WholeTile(s, c, r) {
      forall x, y | InTile(w, h, c, r, x, y)
        ensures CoveredBy(s.marks, w, h, x, y)
      {
        assert CoveredIn(s, x, y);
      }
    }
  }

  lemma StaleOnceLost(s: MirrorState, d: DecodedRect, c: nat, r: nat)
    requires s.Ok()
    ensures var t, w, h := ApplyRect(s, d), s.picture.width, s.picture.height;
      EverStale(t.marks, w, h, c, r) <==>
        || EverStale(s.marks, w, h, c, r)
        || (!DrawsNothing(d) && !Arrived(s, d) && Touches(d.rect, w, h, c, r))
  {
    var w, h := s.picture.width, s.picture.height;
    if DrawsNothing(d) {
      assert s.marks + [] == s.marks;
    } else {
      if d.payload.CopyRect? {
        AllWrittenIs(s, Rect(d.payload.srcX, d.payload.srcY, d.rect.width, d.rect.height));
      }
      OneMoreStale(s.marks, MarkFor(s, d)[0], w, h, c, r);
      assert MarkFor(s, d) == [MarkFor(s, d)[0]];
    }
    hide AllWritten, WholeAround, Touches, CoveredBy, CompositedPicture, EverStale;
  }

  // ---------------------------------------------------------------- what is listed

  /** A pixel is in a listed rectangle with this reason. */
  predicate ListedFor(stale: seq<StaleRegion>, x: nat, y: nat, why: StaleReason) {
    exists k :: 0 <= k < |stale| && stale[k].rect.Has(x, y) && stale[k].why == why
  }

  /** The list that a read annotates its answer with, or is refused with, has at most
      256 rectangles. A pixel is in one as never painted if and only if its tile belongs
      to the region, is not whole and no lost rectangle ever reached into it, and as
      passed over if and only if one did. */
  lemma ListTells(s: MirrorState, region: Rect, policy: StalePolicy, stale: seq<StaleRegion>, x: nat, y: nat)
    requires s.Ok() && s.picture.InBounds(x, y)
    requires CoverageAnswer(s, region, policy, Ok(Partial(stale))) ||
             CoverageAnswer(s, region, policy, Err(StaleRegions(region, stale)))
    ensures var w, h, c, r := s.picture.width, s.picture.height, x / 16, y / 16;
      && |stale| <= 256
      && (ListedFor(stale, x, y, NeverPainted) <==>
            Touches(region, w, h, c, r) && !WholeTile(s, c, r) && !EverStale(s.marks, w, h, c, r))
      && (ListedFor(stale, x, y, PassedOver) <==>
            Touches(region, w, h, c, r) && !WholeTile(s, c, r) && EverStale(s.marks, w, h, c, r))
  {
    var scene := s.SceneOf(region);
    TileStates(s, x / 16, y / 16);
    hide AllWritten, InState, TouchedTiles, WholeTile, EverStale, Touches, StateOf;
    assert stale == StaleList(scene) && |stale| <= 256;
    if scene.Bad(x / 16, y / 16) {
      var k :| 0 <= k < |stale| && stale[k].rect.Has(x, y);
      assert ListedFor(stale, x, y, stale[k].why);
    }
  }

  /** The tiles of the screen that the region reaches into. */
  ghost function TilesOf(s: MirrorState, region: Rect): set<(nat, nat)> {
    set c: nat, r: nat | c < Tiles(s.picture.width) && r < Tiles(s.picture.height)
      && Touches(region, s.picture.width, s.picture.height, c, r) :: (c, r)
  }

  /** A mirror is said to be priming when no lost rectangle reached into any tile of the
      region that is not whole, with the number of the region's tiles and of those that are
      not whole; and a listing is refused for its length when the tiling has more than 256
      rectangles. */
  lemma PrimingTells(s: MirrorState, region: Rect, policy: StalePolicy, e: PerceptionError)
    requires s.Ok() && CoverageAnswer(s, region, policy, Err(e))
    ensures e.Priming? ==>
      && policy.Refuse? && e.region == region && e.tiles == |TilesOf(s, region)|
      && e.neverWritten == |set t | t in TilesOf(s, region) && !WholeTile(s, t.0, t.1)|
      && (forall t :: t in TilesOf(s, region) && !WholeTile(s, t.0, t.1) ==>
            !EverStale(s.marks, s.picture.width, s.picture.height, t.0, t.1))
    ensures e.TooManyRegions? ==> e.limit == 256 && |TilingOf(s.SceneOf(region))| > 256
    ensures e.Priming? || e.TooManyRegions? || e.StaleRegions?
  {
    var scene := s.SceneOf(region);
    hide WholeTile, EverStale, StateOf, Touches, StaleList;
    if e.Priming? {
      var bad := set t | t in TilesOf(s, region) && !WholeTile(s, t.0, t.1);
      assert TilesOf(s, region) == TouchedTiles(scene);
      forall t | t in TilesOf(s, region)
        ensures t !in InState(scene, Stale)
        ensures t in InState(scene, NeverWritten) <==> !WholeTile(s, t.0, t.1)
        ensures !WholeTile(s, t.0, t.1) ==> !EverStale(s.marks, s.picture.width, s.picture.height, t.0, t.1)
      {
        TileStates(s, t.0, t.1);
        assert InState(scene, Stale) == {};
      }
      assert bad == InState(scene, NeverWritten);
    }
  }

  // ---------------------------------------------------------------- what is drawn

  /** Outside the rectangle, and where nothing was to be drawn or could be decoded, the
      picture stands; a copy shows what was at its source before, as far as that is on
      the screen. */
  lemma DrawsExactly(s: MirrorState, d: DecodedRect, x: nat, y: nat)
    requires s.Ok() && s.picture.InBounds(x, y)
    ensures var r, shown := d.rect, ApplyRect(s, d).picture.At(x, y);
      && ((DrawsNothing(d) || d.payload.H264? || d.payload == Jpeg(None)) ==> shown == s.picture.At(x, y))
      && (!(r.x <= x < r.x + r.width && r.y <= y < r.y + r.height) ==> shown == s.picture.At(x, y))
      && (d.payload.CopyRect? && r.x <= x < r.x + r.width && r.y <= y < r.y + r.height ==>
            var u, v := d.payload.srcX + x - r.x, d.payload.srcY + y - r.y;
            shown == if s.picture.InBounds(u, v) then s.picture.At(u, v) else s.picture.At(x, y))
  {
    CompositedAt(s.picture, d, x, y);
    hide CompositedPicture, Blitted, Decompressed, Picture.At;
  }

  /** A row of a block is drawn, with its own pixels, if and only if its part on the
      screen arrived; pixel `i` of the block is the `i`-th in reading order. */
  lemma BlockDraws(s: MirrorState, rect: Rect, pixels: seq<Pixel>, x: nat, y: nat, i: nat)
    requires s.Ok() && s.picture.InBounds(x, y) && rect.Has(x, y)
    requires i == (y - rect.y) * rect.width + (x - rect.x)
    ensures var shown, rest := ApplyRect(s, DecodedRect(rect, Rgba(pixels))).picture.At(x, y),
        Min(rect.x + rect.width, s.picture.width) - x;
      && (i + rest <= |pixels| ==> shown == pixels[i])
      && (i + rest > |pixels| ==> shown == s.picture.At(x, y))
  {
    CompositedAt(s.picture, DecodedRect(rect, Rgba(pixels)), x, y);
    hide CompositedPicture, Picture.At;
  }

  /** An image is drawn from the corner of its rectangle as far as both reach. */
  lemma ImageDraws(s: MirrorState, rect: Rect, image: Decoded, x: nat, y: nat, i: nat)
    requires s.Ok() && s.picture.InBounds(x, y) && rect.Has(x, y)
    requires i == (y - rect.y) * image.width + (x - rect.x)
    ensures var shown := ApplyRect(s, DecodedRect(rect, Jpeg(Some(image)))).picture.At(x, y);
      if x - rect.x < image.width && y - rect.y < image.height then i < |image.pixels| && shown == image.pixels[i]
      else shown == s.picture.At(x, y)
  {
    CompositedAt(s.picture, DecodedRect(rect, Jpeg(Some(image))), x, y);
    if x - rect.x < image.width && y - rect.y < image.height {
      RowInImage(image, x - rect.x, y - rect.y);
    }
    hide CompositedPicture, Picture.At;
  }

  // ---------------------------------------------------------------- size

  /** Told the size it already has, a mirror keeps its picture and everything it
      vouches for; told another, it keeps the pixels both sizes have, shows opaque black
      at the others, and vouches for nothing. A fresh one is black and vouches for
      nothing. */
  lemma ResizesExactly(s: MirrorState, width: u16, height: u16, x: nat, y: nat)
    requires s.Ok() && x < width && y < height
    ensures var t := Resize(s, width, height);
      && (width == s.picture.width && height == s.picture.height ==>
            t.picture == s.picture && (CoveredIn(t, x, y) <==> CoveredIn(s, x, y)))
      && (width != s.picture.width || height != s.picture.height ==> !CoveredIn(t, x, y))
      && t.picture.At(x, y) == (if x < s.picture.width && y < s.picture.height then s.picture.At(x, y)
                                else OPAQUE_BLACK)
    ensures !CoveredIn(Fresh(width, height), x, y) && Fresh(width, height).picture.At(x, y) == OPAQUE_BLACK
    ensures forall c: nat, r: nat :: !EverStale(Fresh(width, height).marks, width, height, c, r)
  {
    PaintedAt(width, height, (_, _) => OPAQUE_BLACK, x, y);
    var p := s.picture;
    PaintedAt(width, height, (u, v) => if p.InBounds(u, v) then p.At(u, v) else OPAQUE_BLACK, x, y);
    hide Picture.At, Painted;
  }

  // ---------------------------------------------------------------- redemption

  /** Every rectangle of the update drew nothing or arrived. */
  ghost predicate NothingLost(s: MirrorState, rects: seq<DecodedRect>)
    requires s.Ok()
  {
    forall k :: 0 <= k < |rects| ==> DrawsNothing(rects[k]) || Arrived(ApplyAll(s, rects[..k]), rects[k])
  }

  /** Some rectangle of the update redraws the pixel. */
  predicate Redrawn(rects: seq<DecodedRect>, x: nat, y: nat) {
    exists k :: 0 <= k < |rects| && !DrawsNothing(rects[k]) && ReachesPixel(rects[k], x, y)
  }

  lemma {:induction false} CoveredAfterAll(s: MirrorState, rects: seq<DecodedRect>, x: nat, y: nat)
    requires s.Ok() && s.picture.InBounds(x, y) && NothingLost(s, rects)
    ensures CoveredIn(ApplyAll(s, rects), x, y) <==> CoveredIn(s, x, y) || Redrawn(rects, x, y)
    decreases |rects|
  {
    hide Arrived, DrawsNothing, ReachesPixel, CoveredBy, ApplyRect;
    if rects != [] {
      var n := |rects| - 1;
      forall k | 0 <= k < n
        ensures rects[..n][..k] == rects[..k]
      {
      }
      CoveredAfterAll(s, rects[..n], x, y);
      CoversExactly(ApplyAll(s, rects[..n]), rects[n], x, y);
      if Redrawn(rects[..n], x, y) {
        var k :| 0 <= k < n && !DrawsNothing(rects[..n][k]) && ReachesPixel(rects[..n][k], x, y);
        assert rects[k] == rects[..n][k];
      }
    }
  }

  /** A stale or priming mirror is redeemed by a repaint: after an update of which
      nothing was lost, a read of a region is complete if and only if every pixel on
      the screen of the region's tiles is redrawn by it or was covered already,
      whatever was lost before. */
  lemma RepaintRedeems(s: MirrorState, region: Rect, rects: seq<DecodedRect>, policy: StalePolicy,
                       result: Result<FrameCoverage, PerceptionError>)
    requires s.Ok() && NothingLost(s, rects) && CoverageAnswer(ApplyAll(s, rects), region, policy, result)
    ensures result == Ok(Complete) <==>
      forall x: nat, y: nat ::
        s.picture.InBounds(x, y) && Touches(region, s.picture.width, s.picture.height, x / TILE, y / TILE) ==>
          Redrawn(rects, x, y) || CoveredIn(s, x, y)
  {
    var t := ApplyAll(s, rects);
    AllWrittenIs(t, region);
    forall x: nat, y: nat | s.picture.InBounds(x, y)
      ensures CoveredIn(t, x, y) <==> Redrawn(rects, x, y) || CoveredIn(s, x, y)
    {
      CoveredAfterAll(s, rects, x, y);
    }
    hide Touches, CoveredBy, Redrawn, ApplyAll, AllWritten, TooManyToList, InState, TouchedTiles, StaleList;
  }
}
