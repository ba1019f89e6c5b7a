/** The mirror of one session's screen (crates/agent-perception/src/mirror.rs:
    pixels in one flat buffer, the coverage grid and the changed cells beside
    them), proved to do what Compositing says. */
module Mirrors {
  import opened ChangedArea
  import opened ChangedCellGrid
  import opened Compositing
  import opened Coverages
  import opened CropPlanner
  import opened DamageLogs
  import opened Geometry
  import opened Grids
  import ImageSizes
  import opened MirrorTruth
  import opened OneTiling
  import opened Pictures
  import opened Reads
  import opened RegionCounts
  import opened Repainting
  import opened Wrappers

  class Mirror {
    var width: u16
    var height: u16
    var data: array<Pixel>
    const coverage: Coverage
    const changed: ChangedCells
    var generation: nat
    var lastRead: nat

    ghost predicate Valid()
      reads this, data, coverage, changed
      ensures Valid() ==> data.Length == width * height
    {
      && data.Length == width * height
      && coverage.Valid() && coverage.width == width && coverage.height == height
      && changed.Valid()
    }

    /** The scratch cells are sized for this picture. */
    ghost predicate Sized()
      reads this, changed
    {
      changed.width == width && changed.height == height
    }

    ghost function Pic(): (p: Picture)
      requires data.Length == width * height
      reads this, data
      ensures p.Ok()
    {
      PictureOf(data, width, height)
    }

    ghost function State(): (s: MirrorState)
      requires Valid()
      reads this, data, coverage, changed
      ensures s.Ok()
    {
      MirrorState(Pic(), coverage.marks)
    }

    constructor (width: u16, height: u16, generation: nat, now: nat)
      ensures Valid() && State() == Fresh(width, height) && this.generation == generation
      ensures fresh(data) && fresh(coverage) && fresh(changed) && lastRead == now
    {
      lastRead := now;
      this.width := width;
      this.height := height;
      this.generation := generation;
      data := new Pixel[width * height](_ => OPAQUE_BLACK);
      coverage := new Coverage(width, height);
      changed := new ChangedCells();
      new;
      BlackIsFresh(Pic());
    }

    /** Pixels of one row. */
    method GetRow(x: nat, y: nat, n: nat) returns (row: seq<Pixel>)
      requires Valid() && x + n <= width && y < height
      ensures row == RowOf(Pic(), x, y, n)
    {
      row := ReadRow(data, width, height, x, y, n);
    }

    /** One row replaced, and the cells in which it differs from before marked. */
    method PutRow(x: nat, y: nat, row: seq<Pixel>)
      requires Valid() && Sized() && x + |row| <= width && y < height
      modifies data, changed`cells
      ensures Valid() && Pic() == WithRow(old(Pic()), x, y, row)
      ensures changed.Marked() == old(changed.Marked()) + DifferingPictures(old(Pic()), Pic())
    {
      hide WithRow, RowOf, DifferingPictures, DifferingCells, Coverage.Valid, ChangedCells.Valid, ChangedCells.Marked;
      RowDiffers(Pic(), x, y, row);
      var held := GetRow(x, y, |row|);
      changed.CompareRow(x, y, held, row);
      OverwriteRow(data, width, height, x, y, row);
    }

    /** Copy a tightly packed block to `rect`, clipped. */
    method BlitRgba(rect: Rect, pixels: seq<Pixel>)
      requires Valid() && Sized()
      modifies data, changed`cells
      ensures Valid() && Pic() == CompositedPicture(old(Pic()), DecodedRect(rect, Rgba(pixels)))
      ensures changed.Marked() == old(changed.Marked()) + DifferingPictures(old(Pic()), Pic())
    {
      hide RowsDone, RowStart, CompositedPicture, DifferingPictures, IsRow, WrittenOnce;
      hide Picture.At, WithRow, RowOf, Coverage.Valid, ChangedCells.Valid, ChangedCells.Marked;
      ghost var was, marked, d := Pic(), changed.Marked(), DecodedRect(rect, Rgba(pixels));
      NothingDiffers(was);
      var x, y := rect.x, rect.y;
      if x >= width || y >= height {
        OffScreenBlock(was, rect, pixels);
        return;
      }
      NoRowsDone(was, d, y);
      var copyW := Min(rect.width, width - x);
      var copyH := Min(rect.height, height - y);
      var row := 0;
      while row < copyH
        invariant 0 <= row <= copyH && Valid() && Sized()
        invariant RowsDone(was, Pic(), d, y, y + row)
        invariant changed.Marked() == marked + DifferingPictures(was, Pic())
      {
        var src := RowStart(rect, row);
        if src + copyW > |pixels| {
          break;
        }
        ghost var now := Pic();
        BlockRow(was, rect, pixels, row);
        OneMoreRow(was, now, d, y, y + row, x, y + row, pixels[src..src + copyW]);
        PutRow(x, y + row, pixels[src..src + copyW]);
        DiffersInSteps(was, now, Pic());
        row := row + 1;
      }
      RestOfBlock(was, Pic(), rect, pixels, row);
      AllRowsDone(was, Pic(), d);
    }

    /** CopyRect in place: rows are visited away from the destination, and a row
        is read whole before it is written. */
    method CopyRectInPlace(src: Rect, dst: Rect)
      requires Valid() && Sized()
      modifies data, changed`cells
      ensures Valid() && Pic() == CompositedPicture(old(Pic()), DecodedRect(dst, CopyRect(src.x, src.y)))
      ensures changed.Marked() == old(changed.Marked()) + DifferingPictures(old(Pic()), Pic())
    {
      hide RowsDone, RowStart, CompositedPicture, DifferingPictures, IsRow, WrittenOnce;
      hide Picture.At, WithRow, RowOf, Coverage.Valid, ChangedCells.Valid, ChangedCells.Marked;
      ghost var was, marked := Pic(), changed.Marked();
      ghost var d := DecodedRect(dst, CopyRect(src.x, src.y));
      NothingDiffers(was);
      var sx, sy, dx, dy := src.x, src.y, dst.x, dst.y;
      if sx >= width || sy >= height || dx >= width || dy >= height {
        NothingToCopy(was, sx, sy, dst);
        return;
      }
      var w := Min(Min(dst.width, width - sx), width - dx);
      var h := Min(Min(dst.height, height - sy), height - dy);
      if w == 0 || h == 0 {
        NothingToCopy(was, sx, sy, dst);
        return;
      }
      NoRowsDone(was, d, dy);
      NoRowsDone(was, d, dy + h);
      if dy > sy {
        for row := h downto 0
          invariant Valid() && Sized()
          invariant RowsDone(was, Pic(), d, dy + row, dy + h)
          invariant changed.Marked() == marked + DifferingPictures(was, Pic())
        {
          CopyOneRow(was, marked, src, dst, w, h, row, dy + row + 1, dy + h);
        }
      } else {
        for row := 0 to h
          invariant Valid() && Sized()
          invariant RowsDone(was, Pic(), d, dy, dy + row)
          invariant changed.Marked() == marked + DifferingPictures(was, Pic())
        {
          CopyOneRow(was, marked, src, dst, w, h, row, dy, dy + row);
        }
      }
      RestOfCopy(was, Pic(), src.x, src.y, dst);
      AllRowsDone(was, Pic(), d);
    }

    /** One row of a copy, next to the rows already copied. */
    method CopyOneRow(ghost was: Picture, ghost marked: set<Cell>, src: Rect, dst: Rect, w: nat, h: nat, row: nat,
                      ghost lo: int, ghost hi: int)
      requires Valid() && Sized() && SameSize(was, Pic())
      requires was.InBounds(src.x, src.y) && was.InBounds(dst.x, dst.y)
      requires (w, h) == CopySize(was, src.x, src.y, dst) && row < h
      requires RowsDone(was, Pic(), DecodedRect(dst, CopyRect(src.x, src.y)), lo, hi) && lo <= hi
      requires (dst.y + row == hi || dst.y + row == lo - 1) && !(lo <= src.y + row < hi)
      requires changed.Marked() == marked + DifferingPictures(was, Pic())
      modifies data, changed`cells
      ensures Valid() && SameSize(was, Pic())
      ensures RowsDone(was, Pic(), DecodedRect(dst, CopyRect(src.x, src.y)),
                       if dst.y + row == hi then lo else dst.y + row, if dst.y + row == hi then hi + 1 else hi)
      ensures changed.Marked() == marked + DifferingPictures(was, Pic())
    {
      hide RowsDone, DifferingPictures, IsRow, WrittenOnce, WithRow, RowOf;
      hide Coverage.Valid, ChangedCells.Valid, ChangedCells.Marked;
      ghost var now := Pic();
      var line := GetRow(src.x, src.y + row, w);
      CopyRow(was, now, src.x, src.y, dst, row, lo, hi);
      OneMoreRow(was, now, DecodedRect(dst, CopyRect(src.x, src.y)), lo, hi, dst.x, dst.y + row, line);
      PutRow(dst.x, dst.y + row, line);
      DiffersInSteps(was, now, Pic());
    }

    /** A decoded JPEG: as one block where its lines are as long as the
        rectangle's rows, and line by line otherwise. */
    method BlitImage(r: Rect, image: Decoded)
      requires Valid() && Sized() && !r.IsEmpty()
      modifies data, changed`cells
      ensures Valid() && Pic() == CompositedPicture(old(Pic()), DecodedRect(r, Jpeg(Some(image))))
      ensures changed.Marked() == old(changed.Marked()) + DifferingPictures(old(Pic()), Pic())
    {
      hide RowsDone, CompositedPicture, Composited, DifferingPictures, WrittenOnce, LineOf;
      hide Coverage.Valid, ChangedCells.Valid, ChangedCells.Marked;
      ghost var was, marked, d := Pic(), changed.Marked(), DecodedRect(r, Jpeg(Some(image)));
      var w := Min(r.width, image.width);
      var h := Min(r.height, image.height);
      if image.width == w && w == r.width {
        ImageAsBlock(was, r, image);
        BlitRgba(Rect(r.x, r.y, w, h), image.pixels);
        return;
      }
      NoRowsDone(was, d, r.y);
      NothingDiffers(was);
      for v := 0 to h
        invariant Valid() && Sized()
        invariant RowsDone(was, Pic(), d, r.y, r.y + v)
        invariant changed.Marked() == marked + DifferingPictures(was, Pic())
      {
        ghost var now := Pic();
        SizeOfDone(was, now, d, r.y, r.y + v);
        ImageLine(was, now, r, image, v);
        BlitRgba(Rect(r.x, Min(r.y + v, 0xFFFF), w, 1), LineOf(r, image, v));
        DiffersInSteps(was, now, Pic());
      }
      RestOfImage(was, Pic(), r, image);
      AllRowsDone(was, Pic(), d);
    }

    /** One rectangle of an update. */
    method ApplyOne(d: DecodedRect)
      requires Valid() && Sized()
      modifies data, coverage, changed`cells
      ensures Valid() && State() == ApplyRect(old(State()), d)
      ensures changed.Marked() == old(changed.Marked()) + StepCells(old(State()), d)
    {
      hide CompositedPicture, DifferingPictures, Coverage.Valid, ChangedCells.Valid, ChangedCells.Marked;
      ghost var was := State();
      NothingDiffers(was.picture);
      var r := d.rect;
      if r.IsEmpty() {
        LeftAlone(was.picture, d);
        return;
      }
      match d.payload {
        case Rgba(pixels) =>
          var needed := r.width * r.height;
          BlitRgba(r, pixels);
          if |pixels| < needed {
            coverage.MarkStale(r);
            changed.MarkRect(r);
          } else {
            coverage.MarkWritten(r);
          }
        case Jpeg(Some(image)) =>
          BlitImage(r, image);
          coverage.MarkWritten(Rect(r.x, r.y, Min(r.width, image.width), Min(r.height, image.height)));
        case Jpeg(None) =>
          LeftAlone(was.picture, d);
          coverage.MarkStale(r);
          changed.MarkRect(r);
        case CopyRect(srcX, srcY) =>
          var src := Rect(srcX, srcY, r.width, r.height);
          CopyRectInPlace(src, r);
          coverage.MarkCopied(src, r);
        case H264(control) =>
          LeftAlone(was.picture, d);
          if !control {
            coverage.MarkStale(r);
            changed.MarkRect(r);
          }
      }
    }

    /** One update. The area counts at least every pixel that now differs. */
    method Apply(rects: seq<DecodedRect>) returns (area: nat)
      requires Valid()
      modifies data, coverage, changed
      ensures Valid() && State() == ApplyAll(old(State()), rects)
      ensures IsArea(area, UpdateCells(old(State()), rects), width, height)
      ensures |ChangedPixels(old(Pic()), Pic())| <= area <= width * height
      ensures area == 0 ==> Pic() == old(Pic())
    {
      hide ApplyRect, StepCells, Coverage.Valid, ChangedCells.Valid, ChangedCells.Marked;
      ghost var was := State();
      changed.Reset(width, height);
      for k := 0 to |rects|
        invariant Valid() && Sized() && State() == ApplyAll(was, rects[..k])
        invariant changed.Marked() == UpdateCells(was, rects[..k])
      {
        assert rects[..k + 1][..k] == rects[..k];
        ApplyOne(rects[k]);
      }
      assert rects[..|rects|] == rects;
      area := changed.Area();
      AreaNeverUnderReports(was, rects, area);
    }

    /** Another size: the overlap keeps its pixels and nothing stays covered. */
    method SetSize(width: u16, height: u16, generation: nat)
      requires Valid()
      modifies this, coverage
      ensures Valid() && State() == Resize(old(State()), width, height) && this.generation == generation
      ensures data == old(data) || fresh(data)
    {
      hide ResizedPicture, Coverage.Valid, ChangedCells.Valid;
      this.generation := generation;
      if width == this.width && height == this.height {
        return;
      }
      var fresher := CarryAcross(width, height);
      this.width := width;
      this.height := height;
      data := fresher;
      coverage.Reset(width, height);
    }

    /** A black buffer of the new size with the pixels that overlap. */
    method CarryAcross(width: u16, height: u16) returns (fresher: array<Pixel>)
      requires Valid()
      ensures fresh(fresher) && fresher.Length == width * height
      ensures PictureOf(fresher, width, height) == ResizedPicture(Pic(), width, height)
    {
      hide Valid, RowsKept, ResizedPicture;
      fresher := new Pixel[width * height](_ => OPAQUE_BLACK);
      AllBlack(Pic(), PictureOf(fresher, width, height));
      CarryRows(fresher, width, height);
      AllRowsKept(Pic(), PictureOf(fresher, width, height));
    }

    method CarryRows(fresher: array<Pixel>, width: u16, height: u16)
      requires Valid() && fresher.Length == width * height && fresher != data
      requires RowsKept(Pic(), PictureOf(fresher, width, height), 0)
      modifies fresher
      ensures RowsKept(Pic(), PictureOf(fresher, width, height), Min(this.height, height))
    {
      hide Valid, Picture.Ok, RowsKept, WithRow, RowOf;
      var copyW := Min(this.width, width);
      var copyH := Min(this.height, height);
      for y := 0 to copyH
        invariant RowsKept(Pic(), PictureOf(fresher, width, height), y)
      {
        KeepRow(Pic(), PictureOf(fresher, width, height), y, copyW);
        var row := GetRow(0, y, copyW);
        OverwriteRow(fresher, width, height, 0, y, row);
      }
    }

    /** Refuse or annotate, by the caller's policy. */
    method CoverageOf(region: Rect, policy: StalePolicy) returns (result: Result<FrameCoverage, PerceptionError>)
      requires Valid()
      ensures CoverageAnswer(State(), region, policy, result)
    {
      hide AllWritten, InState, TouchedTiles, TooManyToList, StaleList;
      hide Coverage.Valid, ChangedCells.Valid;
      ghost var scene := State().SceneOf(region);
      assert coverage.SceneOf(region) == scene;
      var state := coverage.StateOfRegion(region);
      if state.IsComplete() {
        return Ok(Complete);
      }
      var regions := coverage.StaleRegions(region);
      if regions.Err? {
        return Err(TooManyRegions(regions.error.limit));
      }
      match policy {
        case Annotate => return Ok(Partial(regions.value));
        case Refuse =>
          if state.stale == 0 {
            return Err(Priming(region, state.tiles, state.neverWritten));
          }
          return Err(StaleRegions(region, regions.value));
      }
    }

    function Bounds(): Rect
      reads `width, `height
    {
      Rect(0, 0, width, height)
    }

    /** Answer one read. `limit` is how many pixels a crop may have, and `encodes`
        whether the image encoder succeeds. */
    method ReadScreen(request: ReadRequest, damage: DamageLog, now: nat, limit: nat, encodes: bool)
        returns (result: Result<Read, PerceptionError>)
      requires Valid() && damage.Valid()
      modifies `lastRead, damage`readers
      ensures Valid() && damage.Valid() && State() == old(State())
      ensures ReadAnswer(State(), generation, old(damage.State()), request, limit, encodes, result)
      ensures damage.State() == LogAfter(old(damage.State()), request.kind, result)
      ensures lastRead == if result.Ok? && result.value.Shown? then now else old(lastRead)
    {
      hide Planned, Framed, FramedAnswer, FramedByPlan, IsCrop, CoverageAnswer, Live, Intersect, OnScreen;
      hide ImageSizes.Encoded;
      hide Coverage.Valid, ChangedCells.Valid, DamageLog.Valid;
      if request.fence.Some? && request.fence.value != generation {
        return Err(OldGeometry(request.fence.value, generation));
      }
      var bounds := Bounds();
      var framing := Framing(bounds, None, [], 0, false);
      var consume: Option<(nat, nat)> := None;
      match request.kind {
        case WholeFrame(longEdge) =>
          framing := Framing(bounds, Some(longEdge), [], 0, false);
        case Region(rect) =>
          var clipped := Intersect(rect, bounds);
          ClippedIsSame(rect, bounds);
          if clipped.IsEmpty() || clipped != rect {
            return Err(OutOfBounds(rect, width, height));
          }
          framing := Framing(clipped, None, [], 0, false);
        case Change(reader, margin) =>
          var delta := damage.Peek(reader);
          consume := Some((reader, delta.through));
          var plan := PlanChangeCrop(delta.rects, bounds, margin, limit);
          PlannedNothing(plan, Live(delta.rects, bounds), bounds, margin, limit);
          match plan {
            case Nothing =>
              damage.Advance(reader, delta.through);
              return Ok(Unchanged(generation));
            case Crop(rect, covered, _, left) =>
              framing := Framing(rect, None, covered, left, false);
            case Degraded(_) =>
              framing := Framing(bounds, Some(ImageSizes.DEFAULT_LONG_EDGE), delta.rects, 0, true);
          }
          PlanFrames(framing, plan, delta, request.kind, bounds, damage.State(), limit);
      }
      assert Framed(framing, request.kind, bounds, damage.State(), limit) by {
        FramesPlainly(framing, request.kind, bounds, damage.State(), limit);
      }
      var covered := CoverageOf(framing.region, request.stale);
      if covered.Err? {
        RefusedAnswer(State(), generation, request, framing, encodes, covered.error);
        return Err(covered.error);
      }
      var image := CropRgba(data, width, height, framing.region);
      if !encodes {
        NotEncoded(State(), generation, request, framing, covered.value);
        return Err(EncodeFailed);
      }
      lastRead := now;
      var space := ImageSizes.Encoded(framing.region, framing.longEdge);
      var frame := Observation(framing.region, space, image, covered.value, generation,
                               framing.damage, framing.remaining, framing.degraded);
      ShownAnswer(State(), generation, request, framing, frame);
      if consume.Some? {
        damage.Advance(consume.value.0, consume.value.1);
      }
      return Ok(Shown(frame));
    }
  }

  /** Copy a rectangle out of a flat buffer, tightly packed. */
  method CropRgba(src: array<Pixel>, width: u16, height: u16, rect: Rect) returns (image: Picture)
    requires src.Length == width * height
    ensures IsCrop(PictureOf(src, width, height), Intersect(rect, Rect(0, 0, width, height)), image)
  {
    hide Picture.Ok, CropRows, IsCrop, WithRow, RowOf;
    ghost var p := PictureOf(src, width, height);
    var r := Intersect(rect, Rect(0, 0, width, height));
    IntersectExact(rect, Rect(0, 0, width, height));
    var out := new Pixel[r.width * r.height](_ => 0);
    NoCropRows(p, r, PictureOf(out, r.width, r.height));
    CropInto(src, width, height, r, out);
    AllCropRows(p, r, PictureOf(out, r.width, r.height));
    image := Picture(r.width, r.height, out[..]);
  }

  method CropInto(src: array<Pixel>, width: u16, height: u16, r: Rect, out: array<Pixel>)
    requires src.Length == width * height && out.Length == r.width * r.height && src != out
    requires CropRows(PictureOf(src, width, height), r, PictureOf(out, r.width, r.height), 0)
    modifies out
    ensures CropRows(PictureOf(src, width, height), r, PictureOf(out, r.width, r.height), r.height)
  {
    hide Picture.Ok, WithRow, RowOf;
    for row := 0 to r.height
      invariant CropRows(PictureOf(src, width, height), r, PictureOf(out, r.width, r.height), row)
    {
      NextCropRow(PictureOf(src, width, height), r, PictureOf(out, r.width, r.height), row);
      var line := ReadRow(src, width, height, r.x, r.y + row, r.width);
      OverwriteRow(out, r.width, r.height, 0, row, line);
    }
  }

  method ReadRow(a: array<Pixel>, width: u16, height: u16, x: nat, y: nat, n: nat) returns (row: seq<Pixel>)
    requires a.Length == width * height && x + n <= width && y < height
    ensures row == RowOf(PictureOf(a, width, height), x, y, n)
  {
    RowFits(PictureOf(a, width, height), x, y, n);
    var s := y * width + x;
    row := a[s..s + n];
  }

  ghost function PictureOf(a: array<Pixel>, width: u16, height: u16): (p: Picture)
    requires a.Length == width * height
    reads a
    ensures p.Ok()
  {
    Picture(width, height, a[..])
  }

  /** One row of a flat buffer replaced. */
  method OverwriteRow(a: array<Pixel>, width: u16, height: u16, x: nat, y: nat, row: seq<Pixel>)
    requires a.Length == width * height && x + |row| <= width && y < height
    modifies a
    ensures PictureOf(a, width, height) == WithRow(old(PictureOf(a, width, height)), x, y, row)
  {
    ghost var was := PictureOf(a, width, height);
    RowFits(was, x, y, |row|);
    var d := y * width + x;
    forall k | 0 <= k < |row| {
      a[d + k] := row[k];
    }
    assert a[..] == was.pixels[..d] + row + was.pixels[d + |row|..];
  }

  lemma RestOfBlock(was: Picture, now: Picture, rect: Rect, pixels: seq<Pixel>, row: nat)
    requires was.Ok() && was.InBounds(rect.x, rect.y)
    requires RowsDone(was, now, DecodedRect(rect, Rgba(pixels)), rect.y, rect.y + row)
    requires row <= Min(rect.height, was.height - rect.y)
    requires row == Min(rect.height, was.height - rect.y) || RowStart(rect, row) + RowLength(was, rect) > |pixels|
    ensures RowsDone(was, now, DecodedRect(rect, Rgba(pixels)), 0, was.height)
  {
    var d := DecodedRect(rect, Rgba(pixels));
    forall x, y | was.InBounds(x, y) && !(rect.y <= y < rect.y + row)
      ensures Composited(was, d, x, y) == was.At(x, y)
    {
      if y >= rect.y + row && RowStart(rect, row) + RowLength(was, rect) > |pixels| {
        ShortBlock(was, rect, pixels, row, x, y);
      }
    }
    IdleRows(was, now, d, rect.y, rect.y + row, 0, was.height);
  }

  lemma RestOfCopy(was: Picture, now: Picture, srcX: u16, srcY: u16, dst: Rect)
    requires was.Ok() && was.InBounds(srcX, srcY) && was.InBounds(dst.x, dst.y)
    requires RowsDone(was, now, DecodedRect(dst, CopyRect(srcX, srcY)), dst.y, dst.y + CopySize(was, srcX, srcY, dst).1)
    ensures RowsDone(was, now, DecodedRect(dst, CopyRect(srcX, srcY)), 0, was.height)
  {
    var d := DecodedRect(dst, CopyRect(srcX, srcY));
    var h := CopySize(was, srcX, srcY, dst).1;
    forall x, y | was.InBounds(x, y) && !(dst.y <= y < dst.y + h)
      ensures Composited(was, d, x, y) == was.At(x, y)
    {
      OtherRowsStay(was, srcX, srcY, dst, x, y);
    }
    IdleRows(was, now, d, dst.y, dst.y + h, 0, was.height);
  }

  lemma RestOfImage(was: Picture, now: Picture, r: Rect, image: Decoded)
    requires RowsDone(was, now, DecodedRect(r, Jpeg(Some(image))), r.y, r.y + Filled(r, image).height)
    ensures RowsDone(was, now, DecodedRect(r, Jpeg(Some(image))), 0, was.height)
  {
  }

  lemma SizeOfDone(was: Picture, now: Picture, d: DecodedRect, lo: int, hi: int)
    requires RowsDone(was, now, d, lo, hi)
    ensures SameSize(was, now)
  {
  }

  /** Rectangles the mirror cannot draw leave the picture alone. */
  lemma LeftAlone(p: Picture, d: DecodedRect)
    requires p.Ok() && (d.rect.IsEmpty() || d.payload.H264? || (d.payload.Jpeg? && d.payload.decoded.None?))
    ensures CompositedPicture(p, d) == p
  {
    forall x, y | p.InBounds(x, y)
      ensures CompositedPicture(p, d).At(x, y) == p.At(x, y)
    {
      CompositedAt(p, d, x, y);
    }
    SamePixels(CompositedPicture(p, d), p);
  }

  /** The first `rows` rows of the overlap have been carried across. */
  ghost predicate RowsKept(was: Picture, now: Picture, rows: nat) {
    && was.Ok() && now.Ok()
    && forall x, y :: now.InBounds(x, y) ==>
         now.At(x, y) == if was.InBounds(x, y) && y < rows then was.At(x, y) else OPAQUE_BLACK
  }

  lemma AllBlack(was: Picture, now: Picture)
    requires was.Ok() && now.Ok() && forall i :: 0 <= i < |now.pixels| ==> now.pixels[i] == OPAQUE_BLACK
    ensures RowsKept(was, now, 0)
  {
    forall x, y | now.InBounds(x, y)
      ensures now.At(x, y) == OPAQUE_BLACK
    {
      IndexOfCell(x, y, now.width, now.height);
    }
  }

  lemma KeepRow(was: Picture, now: Picture, y: nat, n: nat)
    requires RowsKept(was, now, y) && y < was.height && y < now.height && n == Min(was.width, now.width)
    ensures RowsKept(was, WithRow(now, 0, y, RowOf(was, 0, y, n)), y + 1)
  {
    var next := WithRow(now, 0, y, RowOf(was, 0, y, n));
    forall px, py | now.InBounds(px, py)
      ensures next.At(px, py) == if was.InBounds(px, py) && py < y + 1 then was.At(px, py) else OPAQUE_BLACK
    {
      WithRowAt(now, 0, y, RowOf(was, 0, y, n), px, py);
      if py == y && px < n {
        RowOfAt(was, 0, y, n, px);
      }
    }
  }

  lemma AllRowsKept(was: Picture, now: Picture)
    requires RowsKept(was, now, Min(was.height, now.height))
    ensures now == ResizedPicture(was, now.width, now.height)
  {
    var f := (x, y) => if was.InBounds(x, y) then was.At(x, y) else OPAQUE_BLACK;
    forall x, y | now.InBounds(x, y)
      ensures now.At(x, y) == ResizedPicture(was, now.width, now.height).At(x, y)
    {
      PaintedAt(now.width, now.height, f, x, y);
    }
    SamePixels(now, ResizedPicture(was, now.width, now.height));
  }
}
