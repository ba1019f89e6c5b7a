/** A mirror never lies about coverage (crates/agent-perception/src/lib.rs:45):
    whatever it vouches for is what the server shows, for every run of updates
    and resizes, and exactly when that holds of one rectangle. */
module MirrorTruth {
  import opened Compositing
  import opened CoverageMarks
  import opened Geometry
  import opened Pictures
  import opened RegionCounts
  import opened StaleTilings
  import opened Wrappers

  // ---------------------------------------------------------------- the server

  /** How the server's own screen may change when it sends this rectangle: not at
      all outside it, to what it sent where that arrives, and anyhow inside it
      where it does not: past the edge of an image smaller than its rectangle,
      from a source off the screen, or when nothing can be decoded. */
  ghost predicate Served(before: Picture, after: Picture, d: DecodedRect) {
    && before.Ok() && after.Ok() && before.width == after.width && before.height == after.height
    && forall x, y :: before.InBounds(x, y) ==> ServedPixel(before, after.At(x, y), d, x, y)
  }

  ghost predicate ServedPixel(before: Picture, after: Pixel, d: DecodedRect, x: int, y: int)
    requires before.Ok() && before.InBounds(x, y)
  {
    var r := d.rect;
    if !r.Has(x, y) then after == before.At(x, y)
    else
      var u, v := x - r.x, y - r.y;
      match d.payload
      case Rgba(pixels) =>
        RowInBlock(r, x, y);
        |pixels| >= r.width * r.height ==> after == pixels[v * r.width + u]
      case Jpeg(None) => true
      case Jpeg(Some(image)) =>
        if u < image.width && v < image.height then
          RowInImage(image, u, v);
          after == image.pixels[v * image.width + u]
        else true
      case CopyRect(srcX, srcY) => before.InBounds(srcX + u, srcY + v) ==> after == before.At(srcX + u, srcY + v)
      case H264(control) => control ==> after == before.At(x, y)
  }

  // ---------------------------------------------------------------- what is kept

  /** Every pixel the history covers is the server's. */
  ghost predicate Truthful(s: MirrorState, server: Picture) {
    && s.Ok() && server.Ok() && s.picture.width == server.width && s.picture.height == server.height
    && forall x: nat, y: nat :: server.InBounds(x, y) && CoveredBy(s.marks, server.width, server.height, x, y) ==>
         s.picture.At(x, y) == server.At(x, y)
  }

  /** The rectangle has a pixel on the screen. */
  predicate Shows(r: Rect, width: u16, height: u16) {
    !r.IsEmpty() && r.x < width && r.y < height
  }

  /** The image reaches as far as its rectangle is on the screen. */
  predicate Reaches(image: Decoded, r: Rect, width: u16, height: u16)
    requires r.x < width && r.y < height
  {
    Min(r.width, width - r.x) <= image.width && Min(r.height, height - r.y) <= image.height
  }

  /** What the mirror relies on the server for: a JPEG that reaches as far as its
      rectangle is on the screen, and a copy whose source is on the screen as far
      as its destination is (section 7.7.2 of RFC 6143). */
  predicate WellFormed(d: DecodedRect, width: u16, height: u16) {
    Shows(d.rect, width, height) ==>
      match d.payload
      case Jpeg(Some(image)) => Reaches(image, d.rect, width, height)
      case CopyRect(srcX, srcY) =>
        && srcX + Min(d.rect.width, width - d.rect.x) <= width
        && srcY + Min(d.rect.height, height - d.rect.y) <= height
      case _ => true
  }

  /** A pixel of a stale rectangle is no longer covered. */
  lemma StaleUncovers(s: MirrorState, r: Rect, x: nat, y: nat)
    requires s.Ok() && s.picture.InBounds(x, y)
    requires CoveredBy(s.marks + [StaleMark(r)], s.picture.width, s.picture.height, x, y)
    ensures !r.Has(x, y) && CoveredBy(s.marks, s.picture.width, s.picture.height, x, y)
  {
    OneMoreMark(s.marks, StaleMark(r), s.picture.width, s.picture.height, x, y);
    if r.Has(x, y) {
      WritesTouches(r, s.picture.width, s.picture.height, x, y);
    }
  }

  lemma WriteCovers(s: MirrorState, r: Rect, x: nat, y: nat)
    requires s.Ok() && s.picture.InBounds(x, y)
    requires CoveredBy(s.marks + [WriteMark(r)], s.picture.width, s.picture.height, x, y)
    ensures r.Has(x, y) || CoveredBy(s.marks, s.picture.width, s.picture.height, x, y)
  {
    OneMoreMark(s.marks, WriteMark(r), s.picture.width, s.picture.height, x, y);
  }

  /** A source that is written wherever it touches is covered at each pixel. */
  lemma SourceCovered(s: MirrorState, src: Rect, x: nat, y: nat)
    requires s.Ok() && s.picture.InBounds(x, y) && src.Has(x, y) && AllWritten(s.SceneOf(src))
    ensures CoveredBy(s.marks, s.picture.width, s.picture.height, x, y)
  {
    WritesTouches(src, s.picture.width, s.picture.height, x, y);
    assert s.SceneOf(src).State(x / TILE, y / TILE) == Written;
    assert InTile(s.picture.width, s.picture.height, x / TILE, y / TILE, x, y);
  }

  lemma BlockIsWhole(p: Picture, r: Rect, pixels: seq<Pixel>, x: int, y: int)
    requires p.Ok() && p.InBounds(x, y) && r.Has(x, y) && |pixels| >= r.width * r.height
    ensures 0 <= (y - r.y) * r.width + (x - r.x) < |pixels|
    ensures Blitted(p, r, pixels, x, y) == pixels[(y - r.y) * r.width + (x - r.x)]
  {
    RowInBlock(r, x, y);
  }

  /** A pixel of a rectangle that marks what it writes. */
  lemma PixelWritten(s: MirrorState, server: Picture, after: Pixel, d: DecodedRect, x: nat, y: nat)
    requires Truthful(s, server) && s.picture.InBounds(x, y) && d.rect.Has(x, y)
    requires ServedPixel(server, after, d, x, y) && WellFormed(d, server.width, server.height)
    requires MarkFor(s, d) != [] && MarkFor(s, d)[0].WriteMark?
    ensures Composited(s.picture, d, x, y) == after
  {
    assert s.picture.width == server.width && s.picture.height == server.height && server.Ok();
    hide Truthful, CoveredBy;
    var r := d.rect;
    match d.payload
    case Rgba(pixels) =>
      BlockIsWhole(s.picture, r, pixels, x, y);
    case Jpeg(Some(image)) =>
    case CopyRect(srcX, srcY) =>
      CopiedIsTrue(s, server, Rect(srcX, srcY, r.width, r.height), srcX + (x - r.x), srcY + (y - r.y));
  }

  /** A pixel of a source that is written wherever it touches is the server's. */
  lemma CopiedIsTrue(s: MirrorState, server: Picture, src: Rect, x: nat, y: nat)
    requires Truthful(s, server) && s.picture.InBounds(x, y) && src.Has(x, y) && AllWritten(s.SceneOf(src))
    ensures server.Ok() && server.InBounds(x, y) && s.picture.At(x, y) == server.At(x, y)
  {
    SourceCovered(s, src, x, y);
  }

  lemma WrittenPixel(s: MirrorState, server: Picture, after: Pixel, d: DecodedRect, x: nat, y: nat)
    requires Truthful(s, server) && s.picture.InBounds(x, y) && !d.rect.IsEmpty()
    requires ServedPixel(server, after, d, x, y) && WellFormed(d, server.width, server.height)
    requires CoveredBy(s.marks + MarkFor(s, d), server.width, server.height, x, y)
    requires MarkFor(s, d) != [] && MarkFor(s, d)[0].WriteMark?
    ensures Composited(s.picture, d, x, y) == after
  {
    if d.rect.Has(x, y) {
      PixelWritten(s, server, after, d, x, y);
    } else {
      WriteCovers(s, MarkFor(s, d)[0].rect, x, y);
    }
  }

  lemma TruthfulPixel(s: MirrorState, server: Picture, after: Pixel, d: DecodedRect, x: nat, y: nat)
    requires Truthful(s, server) && s.picture.InBounds(x, y)
    requires ServedPixel(server, after, d, x, y) && WellFormed(d, server.width, server.height)
    requires CoveredBy(s.marks + MarkFor(s, d), server.width, server.height, x, y)
    ensures Composited(s.picture, d, x, y) == after
  {
    if MarkFor(s, d) == [] {
      assert s.marks + MarkFor(s, d) == s.marks;
    } else if MarkFor(s, d)[0].StaleMark? {
      StaleUncovers(s, d.rect, x, y);
    } else {
      WrittenPixel(s, server, after, d, x, y);
    }
  }

  /** One rectangle keeps the mirror truthful. */
  lemma StaysTruthful(s: MirrorState, server: Picture, after: Picture, d: DecodedRect)
    requires Truthful(s, server) && Served(server, after, d) && WellFormed(d, server.width, server.height)
    ensures Truthful(ApplyRect(s, d), after)
  {
    var t := ApplyRect(s, d);
    forall x: nat, y: nat | after.InBounds(x, y) && CoveredBy(t.marks, after.width, after.height, x, y)
      ensures t.picture.At(x, y) == after.At(x, y)
    {
      CompositedAt(s.picture, d, x, y);
      TruthfulPixel(s, server, after.At(x, y), d, x, y);
    }
  }

  // ---------------------------------------------------------------- exactly when

  /** Whatever a truthful mirror holds, it is still truthful after this rectangle. */
  ghost predicate AlwaysKeepsTruth(d: DecodedRect, width: u16, height: u16) {
    forall s: MirrorState, server: Picture, after: Picture ::
      server.width == width && server.height == height && Truthful(s, server) && Served(server, after, d) ==>
        Truthful(ApplyRect(s, d), after)
  }

  /** A screen of one colour with every pixel covered. */
  ghost function Blank(width: u16, height: u16): (s: MirrorState)
    ensures s.Ok() && s.picture.width == width && s.picture.height == height
    ensures forall x, y :: s.picture.InBounds(x, y) ==> s.picture.At(x, y) == 0
    ensures forall x: nat, y: nat :: s.picture.InBounds(x, y) ==> CoveredBy(s.marks, width, height, x, y)
  {
    var s := MirrorState(Painted(width, height, (_, _) => 0), [WriteMark(Rect(0, 0, width, height))]);
    assert forall x, y :: s.picture.InBounds(x, y) ==> s.picture.At(x, y) == 0 by {
      forall x, y | s.picture.InBounds(x, y)
        ensures s.picture.At(x, y) == 0
      {
        PaintedAt(width, height, (_, _) => 0, x, y);
      }
    }
    s
  }

  /** The picture with one pixel of another colour. */
  ghost function Spotted(p: Picture, x: int, y: int, spot: Pixel): (q: Picture)
    requires p.Ok()
    ensures q.Ok() && q.width == p.width && q.height == p.height
    ensures forall u, v :: p.InBounds(u, v) ==> q.At(u, v) == if u == x && v == y then spot else p.At(u, v)
  {
    var f := (u: int, v: int) => if u == x && v == y then spot else if p.InBounds(u, v) then p.At(u, v) else 0;
    var q := Painted(p.width, p.height, f);
    assert forall u, v :: p.InBounds(u, v) ==> q.At(u, v) == f(u, v) by {
      forall u, v | p.InBounds(u, v)
        ensures q.At(u, v) == f(u, v)
      {
        PaintedAt(p.width, p.height, f, u, v);
      }
    }
    q
  }

  /** What the mirror makes of a rectangle the server's screen may always be. */
  lemma CompositedIsServed(p: Picture, d: DecodedRect, x: int, y: int)
    requires p.Ok() && p.InBounds(x, y)
    ensures ServedPixel(p, Composited(p, d, x, y), d, x, y)
  {
    if d.rect.Has(x, y) {
      match d.payload
      case Rgba(pixels) =>
        if |pixels| >= d.rect.width * d.rect.height {
          BlockIsWhole(p, d.rect, pixels, x, y);
        }
      case _ =>
    }
  }

  lemma SpotIsServed(p: Picture, d: DecodedRect, x: nat, y: nat, spot: Pixel)
    requires p.Ok() && p.InBounds(x, y) && ServedPixel(p, spot, d, x, y)
    ensures Served(p, Spotted(CompositedPicture(p, d), x, y, spot), d)
  {
    hide Composited, ServedPixel, CompositedPicture, Spotted, Picture.At;
    var after := Spotted(CompositedPicture(p, d), x, y, spot);
    forall u, v | p.InBounds(u, v)
      ensures ServedPixel(p, after.At(u, v), d, u, v)
    {
      CompositedAt(p, d, u, v);
      CompositedIsServed(p, d, u, v);
    }
  }

  /** What was covered is still covered after a rectangle that writes. */
  lemma StaysCovered(s: MirrorState, d: DecodedRect, x: nat, y: nat)
    requires s.Ok() && s.picture.InBounds(x, y)
    requires CoveredBy(s.marks, s.picture.width, s.picture.height, x, y)
    requires MarkFor(s, d) != [] && MarkFor(s, d)[0].WriteMark?
    ensures CoveredBy(ApplyRect(s, d).marks, s.picture.width, s.picture.height, x, y)
  {
    assert MarkFor(s, d) == [MarkFor(s, d)[0]];
    OneMoreMark(s.marks, MarkFor(s, d)[0], s.picture.width, s.picture.height, x, y);
  }

  /** On a covered screen of one colour, a server that may change one pixel the
      mirror does not is no longer told the truth about. */
  lemma SpotIsALie(d: DecodedRect, width: u16, height: u16, x: nat, y: nat)
    requires x < width && y < height && d.rect.Has(x, y)
    requires MarkFor(Blank(width, height), d) != [] && MarkFor(Blank(width, height), d)[0].WriteMark?
    requires forall spot :: ServedPixel(Blank(width, height).picture, spot, d, x, y)
    ensures !AlwaysKeepsTruth(d, width, height)
  {
    hide ServedPixel, Served, Blank, MarkFor, CompositedPicture, Spotted, CoveredBy, Picture.At;
    var s := Blank(width, height);
    var shown := CompositedPicture(s.picture, d);
    var spot := 1 - Min(shown.At(x, y), 1);
    var after := Spotted(shown, x, y, spot);
    SpotIsServed(s.picture, d, x, y, spot);
    StaysCovered(s, d, x, y);
    assert Truthful(s, s.picture);
    assert ApplyRect(s, d).picture.At(x, y) != after.At(x, y);
    assert !Truthful(ApplyRect(s, d), after);
  }

  lemma BlankIsWritten(width: u16, height: u16, src: Rect)
    ensures AllWritten(Blank(width, height).SceneOf(src))
  {
    var s := Blank(width, height);
    forall c: nat, r: nat | Touches(src, width, height, c, r)
      ensures s.SceneOf(src).State(c, r) == Written
    {
      assert FullyCovered(s.marks, width, height, c, r);
    }
  }

  lemma LiesWithoutIt(d: DecodedRect, width: u16, height: u16)
    requires !WellFormed(d, width, height)
    ensures !AlwaysKeepsTruth(d, width, height)
  {
    var r := d.rect;
    match d.payload
    case Jpeg(Some(image)) =>
      if image.width < Min(r.width, width - r.x) {
        SpotIsALie(d, width, height, r.x + image.width, r.y);
      } else {
        SpotIsALie(d, width, height, r.x, r.y + image.height);
      }
    case CopyRect(srcX, srcY) =>
      BlankIsWritten(width, height, Rect(srcX, srcY, r.width, r.height));
      SpotIsALie(d, width, height, r.x + Min(r.width, width - r.x) - 1, r.y + Min(r.height, height - r.y) - 1);
  }

  /** A rectangle keeps every mirror truthful if and only if it is well formed. */
  lemma TruthNeedsExactly(d: DecodedRect, width: u16, height: u16)
    ensures AlwaysKeepsTruth(d, width, height) <==> WellFormed(d, width, height)
  {
    if WellFormed(d, width, height) {
      forall s: MirrorState, server: Picture, after: Picture
        | server.width == width && server.height == height && Truthful(s, server) && Served(server, after, d)
        ensures Truthful(ApplyRect(s, d), after)
      {
        StaysTruthful(s, server, after, d);
      }
    } else {
      LiesWithoutIt(d, width, height);
    }
  }

  /** A JPEG of one pixel for a rectangle of two. */
  lemma SmallJpegLies()
    ensures !AlwaysKeepsTruth(DecodedRect(Rect(0, 0, 2, 1), Jpeg(Some(Image(1, 1, [0])))), 2, 1)
  {
    TruthNeedsExactly(DecodedRect(Rect(0, 0, 2, 1), Jpeg(Some(Image(1, 1, [0])))), 2, 1);
  }

  /** A copy from the first pixel off the screen. */
  lemma OffScreenCopyLies()
    ensures !AlwaysKeepsTruth(DecodedRect(Rect(0, 0, 1, 1), CopyRect(1, 0)), 1, 1)
  {
    TruthNeedsExactly(DecodedRect(Rect(0, 0, 1, 1), CopyRect(1, 0)), 1, 1);
  }

  // ---------------------------------------------------------------- whole runs

  /** What reaches the mirror, with what the server's screen is afterwards:
      after every rectangle of an update, or after a change of size. */
  datatype Event =
    | Update(rects: seq<DecodedRect>, screens: seq<Picture>)
    | Resized(width: u16, height: u16, screen: Picture)

  /** The server's screen after the first `n` rectangles. */
  function ScreenAfter(server: Picture, screens: seq<Picture>, n: nat): Picture
    requires n <= |screens|
  {
    if n == 0 then server else screens[n - 1]
  }

  ghost predicate EventOk(server: Picture, e: Event) {
    match e
    case Update(rects, screens) =>
      && |screens| == |rects|
      && forall k :: 0 <= k < |rects| ==>
           && Served(ScreenAfter(server, screens, k), screens[k], rects[k])
           && WellFormed(rects[k], server.width, server.height)
    case Resized(width, height, screen) =>
      && screen.Ok() && screen.width == width && screen.height == height
      && (width == server.width && height == server.height ==> screen == server)
  }

  function ServerAfter(server: Picture, e: Event): Picture {
    match e
    case Update(_, screens) => ScreenAfter(server, screens, |screens|)
    case Resized(_, _, screen) => screen
  }

  ghost function MirrorAfter(s: MirrorState, e: Event): (t: MirrorState)
    requires s.Ok()
    ensures t.Ok()
  {
    match e
    case Update(rects, _) => ApplyAll(s, rects)
    case Resized(width, height, _) => Resize(s, width, height)
  }

  ghost predicate RunOk(server: Picture, events: seq<Event>)
    decreases |events|
  {
    events == [] || (EventOk(server, events[0]) && RunOk(ServerAfter(server, events[0]), events[1..]))
  }

  function ServerEnd(server: Picture, events: seq<Event>): Picture
    decreases |events|
  {
    if events == [] then server else ServerEnd(ServerAfter(server, events[0]), events[1..])
  }

  ghost function MirrorEnd(s: MirrorState, events: seq<Event>): (t: MirrorState)
    requires s.Ok()
    ensures t.Ok()
    decreases |events|
  {
    if events == [] then s else MirrorEnd(MirrorAfter(s, events[0]), events[1..])
  }

  lemma TruthfulSizes(s: MirrorState, server: Picture)
    requires Truthful(s, server)
    ensures s.Ok() && server.Ok() && s.picture.width == server.width && s.picture.height == server.height
  {
  }

  lemma {:induction false} UpdateStaysTruthful(
    s: MirrorState, server: Picture, rects: seq<DecodedRect>, screens: seq<Picture>)
    requires Truthful(s, server) && EventOk(server, Update(rects, screens))
    ensures Truthful(ApplyAll(s, rects), ScreenAfter(server, screens, |screens|))
    decreases |rects|
  {
    hide Served, WellFormed, ApplyRect, Truthful;
    TruthfulSizes(s, server);
    if rects != [] {
      var n := |rects| - 1;
      forall k | 0 <= k < n
        ensures Served(ScreenAfter(server, screens[..n], k), screens[..n][k], rects[..n][k])
      {
        assert ScreenAfter(server, screens[..n], k) == ScreenAfter(server, screens, k);
      }
      UpdateStaysTruthful(s, server, rects[..n], screens[..n]);
      TruthfulSizes(ApplyAll(s, rects[..n]), ScreenAfter(server, screens, n));
      assert Served(ScreenAfter(server, screens, n), screens[n], rects[n]);
      StaysTruthful(ApplyAll(s, rects[..n]), ScreenAfter(server, screens, n), screens[n], rects[n]);
    }
  }

  /** A mirror never lies: from allocation on, whatever is sent and however the
      screen changes size, every pixel the coverage vouches for is the server's. */
  lemma {:induction false} MirrorNeverLies(s: MirrorState, server: Picture, events: seq<Event>)
    requires Truthful(s, server) && RunOk(server, events)
    ensures Truthful(MirrorEnd(s, events), ServerEnd(server, events))
    decreases |events|
  {
    if events != [] {
      match events[0] {
        case Update(rects, screens) => UpdateStaysTruthful(s, server, rects, screens);
        case Resized(width, height, screen) =>
      }
      MirrorNeverLies(MirrorAfter(s, events[0]), ServerAfter(server, events[0]), events[1..]);
    }
  }

  lemma AllocationIsTruthful(width: u16, height: u16, server: Picture)
    requires server.Ok() && server.width == width && server.height == height
    ensures Truthful(Fresh(width, height), server)
  {
  }

  // ---------------------------------------------------------------- what a read says

  /** What an answer says of its own trustworthiness. */
  datatype FrameCoverage = Complete | Partial(staleRegions: seq<StaleRegion>)

  /** What a coverage answer claims of the grid. */
  ghost predicate Vouches(s: MirrorState, region: Rect, coverage: FrameCoverage) {
    match coverage
    case Complete => AllWritten(s.SceneOf(region))
    case Partial(stale) =>
      !AllWritten(s.SceneOf(region)) && SoundPixels(s.SceneOf(region), stale) && WholePixels(s.SceneOf(region), stale)
  }

  /** A read returned as complete shows the server's pixels; one returned as
      partial shows them everywhere outside its stale regions. */
  lemma ReadsAreTrue(s: MirrorState, server: Picture, region: Rect, coverage: FrameCoverage, x: nat, y: nat)
    requires Truthful(s, server) && Vouches(s, region, coverage)
    requires server.InBounds(x, y) && region.Has(x, y)
    requires coverage.Partial? ==> !Listed(coverage.staleRegions, x, y)
    ensures s.picture.At(x, y) == server.At(x, y)
  {
    var scene := s.SceneOf(region);
    WritesTouches(region, server.width, server.height, x, y);
    assert scene.State(x / TILE, y / TILE) == Written;
    assert InTile(server.width, server.height, x / TILE, y / TILE, x, y);
  }
}
