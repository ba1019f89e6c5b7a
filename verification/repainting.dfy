/** Painting a rectangle row by row: each row is written once, so doing the rows
    one after another is doing them all at once, and the cells marked on the way
    are the cells that differ at the end. */
module Repainting {
  import opened ChangedArea
  import opened ChangedCellGrid
  import opened Compositing
  import opened Geometry
  import opened Grids
  import opened Pictures
  import opened Wrappers

  predicate SameSize(p: Picture, q: Picture) {
    p.Ok() && q.Ok() && p.width == q.width && p.height == q.height
  }

  /** The cells in which two pictures differ. */
  ghost function DifferingPictures(p: Picture, q: Picture): set<Cell>
    requires SameSize(p, q)
  {
    set c | c in Span(0, 0, p.width, p.height) && p.At(c.0, c.1) != q.At(c.0, c.1) :: CellAt(c.0, c.1)
  }

  lemma NothingDiffers(p: Picture)
    requires p.Ok()
    ensures DifferingPictures(p, p) == {}
  {
  }

  /** No pixel is written twice. */
  ghost predicate WrittenOnce(p: Picture, q: Picture, r: Picture)
    requires SameSize(p, q) && SameSize(q, r)
  {
    forall x, y :: p.InBounds(x, y) ==> q.At(x, y) == p.At(x, y) || r.At(x, y) == q.At(x, y)
  }

  lemma DiffersInSteps(p: Picture, q: Picture, r: Picture)
    requires SameSize(p, q) && SameSize(q, r) && WrittenOnce(p, q, r)
    ensures DifferingPictures(p, r) == DifferingPictures(p, q) + DifferingPictures(q, r)
  {
    forall c | c in Span(0, 0, p.width, p.height)
      ensures p.At(c.0, c.1) != r.At(c.0, c.1) <==> p.At(c.0, c.1) != q.At(c.0, c.1) || q.At(c.0, c.1) != r.At(c.0, c.1)
    {
    }
    forall cell | cell in DifferingPictures(p, q) + DifferingPictures(q, r)
      ensures cell in DifferingPictures(p, r)
    {
      if cell in DifferingPictures(p, q) {
        var c :| c in Span(0, 0, p.width, p.height) && p.At(c.0, c.1) != q.At(c.0, c.1) && CellAt(c.0, c.1) == cell;
        assert p.At(c.0, c.1) != r.At(c.0, c.1);
      } else {
        var c :| c in Span(0, 0, p.width, p.height) && q.At(c.0, c.1) != r.At(c.0, c.1) && CellAt(c.0, c.1) == cell;
        assert p.At(c.0, c.1) != r.At(c.0, c.1);
      }
    }
  }

  /** A row that replaces another changes the cells in which they differ. */
  lemma RowDiffers(p: Picture, x: nat, y: nat, row: seq<Pixel>)
    requires p.Ok() && x + |row| <= p.width && y < p.height
    ensures DifferingPictures(p, WithRow(p, x, y, row)) == DifferingCells(x, y, RowOf(p, x, y, |row|), row)
  {
    hide Picture.At, WithRow, RowOf;
    var q, before := WithRow(p, x, y, row), RowOf(p, x, y, |row|);
    forall cell | cell in DifferingPictures(p, q)
      ensures cell in DifferingCells(x, y, before, row)
    {
      var c :| c in Span(0, 0, p.width, p.height) && p.At(c.0, c.1) != q.At(c.0, c.1) && CellAt(c.0, c.1) == cell;
      WithRowAt(p, x, y, row, c.0, c.1);
      RowOfAt(p, x, y, |row|, c.0 - x);
      assert before[c.0 - x] != row[c.0 - x];
    }
    forall cell | cell in DifferingCells(x, y, before, row)
      ensures cell in DifferingPictures(p, q)
    {
      var k :| 0 <= k < |row| && before[k] != row[k] && CellAt(x + k, y) == cell;
      WithRowAt(p, x, y, row, x + k, y);
      RowOfAt(p, x, y, |row|, k);
      assert (x + k, y) in Span(0, 0, p.width, p.height);
    }
  }

  // ---------------------------------------------------------------- rows so far

  /** Rows `lo` up to `hi` are as the rectangle leaves them, the others as they
      were. */
  ghost predicate RowsDone(was: Picture, now: Picture, d: DecodedRect, lo: int, hi: int) {
    && SameSize(was, now)
    && forall x, y :: was.InBounds(x, y) ==>
         now.At(x, y) == if lo <= y < hi then Composited(was, d, x, y) else was.At(x, y)
  }

  /** The row is the one the rectangle leaves at `y`, from column `x`. */
  ghost predicate IsRow(was: Picture, d: DecodedRect, x: nat, y: nat, row: seq<Pixel>)
    requires was.Ok() && x + |row| <= was.width && y < was.height
  {
    && (forall k :: 0 <= k < |row| ==> row[k] == Composited(was, d, x + k, y))
    && (forall px :: 0 <= px < was.width && !(x <= px < x + |row|) ==> Composited(was, d, px, y) == was.At(px, y))
  }

  lemma NoRowsDone(was: Picture, d: DecodedRect, lo: int)
    requires was.Ok()
    ensures RowsDone(was, was, d, lo, lo)
  {
  }

  /** One more row, next to those done. */
  lemma OneMoreRow(was: Picture, now: Picture, d: DecodedRect, lo: int, hi: int, x: nat, y: nat, row: seq<Pixel>)
    requires RowsDone(was, now, d, lo, hi) && lo <= hi && (y == hi || y == lo - 1)
    requires x + |row| <= was.width && y < was.height && IsRow(was, d, x, y, row)
    ensures var next := WithRow(now, x, y, row);
            && RowsDone(was, next, d, if y == hi then lo else y, if y == hi then hi + 1 else hi)
            && WrittenOnce(was, now, next)
  {
    var next := WithRow(now, x, y, row);
    var lo2, hi2 := if y == hi then lo else y, if y == hi then hi + 1 else hi;
    forall px, py | was.InBounds(px, py)
      ensures next.At(px, py) == if lo2 <= py < hi2 then Composited(was, d, px, py) else was.At(px, py)
      ensures now.At(px, py) == was.At(px, py) || next.At(px, py) == now.At(px, py)
    {
      WithRowAt(now, x, y, row, px, py);
      if py == y && x <= px < x + |row| {
        assert row[px - x] == Composited(was, d, x + (px - x), y);
      }
    }
  }

  /** Rows the rectangle leaves alone are done already. */
  lemma IdleRows(was: Picture, now: Picture, d: DecodedRect, lo: int, hi: int, lo2: int, hi2: int)
    requires RowsDone(was, now, d, lo, hi) && lo2 <= lo <= hi <= hi2
    requires forall x, y :: was.InBounds(x, y) && lo2 <= y < hi2 && !(lo <= y < hi) ==>
      Composited(was, d, x, y) == was.At(x, y)
    ensures RowsDone(was, now, d, lo2, hi2)
  {
  }

  /** When every row is done the picture is the one the rectangle leaves. */
  lemma AllRowsDone(was: Picture, now: Picture, d: DecodedRect)
    requires RowsDone(was, now, d, 0, was.height)
    ensures now == CompositedPicture(was, d)
  {
    forall x, y | was.InBounds(x, y)
      ensures now.At(x, y) == CompositedPicture(was, d).At(x, y)
    {
      CompositedAt(was, d, x, y);
    }
    SamePixels(now, CompositedPicture(was, d));
  }

  // ---------------------------------------------------------------- blocks

  /** How many pixels of a row of `rect` are on the screen. */
  function RowLength(p: Picture, rect: Rect): nat
    requires rect.x < p.width
  {
    Min(rect.width, p.width - rect.x)
  }

  /** Where a row of a tightly packed block starts. */
  function RowStart(rect: Rect, row: nat): nat {
    row * rect.width
  }

  lemma BlockRow(was: Picture, rect: Rect, pixels: seq<Pixel>, row: nat)
    requires was.Ok() && rect.x < was.width && row < rect.height && rect.y + row < was.height
    requires RowStart(rect, row) + RowLength(was, rect) <= |pixels|
    ensures var src := RowStart(rect, row);
            IsRow(was, DecodedRect(rect, Rgba(pixels)), rect.x, rect.y + row, pixels[src..src + RowLength(was, rect)])
  {
  }

  lemma OffScreenBlock(was: Picture, rect: Rect, pixels: seq<Pixel>)
    requires was.Ok() && !was.InBounds(rect.x, rect.y)
    ensures CompositedPicture(was, DecodedRect(rect, Rgba(pixels))) == was
  {
    var d := DecodedRect(rect, Rgba(pixels));
    forall x, y | was.InBounds(x, y)
      ensures CompositedPicture(was, d).At(x, y) == was.At(x, y)
    {
      CompositedAt(was, d, x, y);
    }
    SamePixels(CompositedPicture(was, d), was);
  }

  lemma BlackIsFresh(p: Picture)
    requires p.Ok() && forall i :: 0 <= i < |p.pixels| ==> p.pixels[i] == OPAQUE_BLACK
    ensures p == Fresh(p.width, p.height).picture
  {
    assert p.pixels == Fresh(p.width, p.height).picture.pixels;
  }

  /** A row that is not complete leaves that row and every later one alone. */
  lemma ShortBlock(was: Picture, rect: Rect, pixels: seq<Pixel>, row: nat, x: int, y: int)
    requires was.Ok() && rect.x < was.width && was.InBounds(x, y) && y >= rect.y + row
    requires RowStart(rect, row) + RowLength(was, rect) > |pixels|
    ensures Composited(was, DecodedRect(rect, Rgba(pixels)), x, y) == was.At(x, y)
  {
    if rect.Has(x, y) {
      MulMono(row, y - rect.y, rect.width);
    }
  }

  // ---------------------------------------------------------------- images

  lemma ImageAsBlock(p: Picture, r: Rect, image: Decoded)
    requires p.Ok() && !r.IsEmpty() && image.width == Filled(r, image).width
    ensures CompositedPicture(p, DecodedRect(Filled(r, image), Rgba(image.pixels))) ==
      CompositedPicture(p, DecodedRect(r, Jpeg(Some(image))))
  {
    var block, jpeg := DecodedRect(Filled(r, image), Rgba(image.pixels)), DecodedRect(r, Jpeg(Some(image)));
    forall x, y | p.InBounds(x, y)
      ensures CompositedPicture(p, block).At(x, y) == CompositedPicture(p, jpeg).At(x, y)
    {
      CompositedAt(p, block, x, y);
      CompositedAt(p, jpeg, x, y);
      if Filled(r, image).Has(x, y) {
        RowInImage(image, x - r.x, y - r.y);
        RowInImage(image, image.width - 1, y - r.y);
      }
    }
    SamePixels(CompositedPicture(p, block), CompositedPicture(p, jpeg));
  }

  /** The part of line `v` of the image that its rectangle has room for. */
  function LineOf(r: Rect, image: Decoded, v: nat): (line: seq<Pixel>)
    requires v < Filled(r, image).height
    ensures |line| == Filled(r, image).width
  {
    LineFits(r, image, v);
    image.pixels[v * image.width..v * image.width + Filled(r, image).width]
  }

  lemma LineFits(r: Rect, image: Decoded, v: nat)
    requires v < Filled(r, image).height
    ensures 0 <= v * image.width <= v * image.width + Filled(r, image).width <= |image.pixels|
  {
    MulMono(v + 1, image.height, image.width);
    Distributes(v, 1, image.width);
  }

  lemma LineOfAt(p: Picture, r: Rect, image: Decoded, v: nat, x: int, y: int)
    requires p.Ok() && p.InBounds(x, y) && v < Filled(r, image).height
    requires y == r.y + v && r.x <= x < r.x + Filled(r, image).width
    ensures LineOf(r, image, v)[x - r.x] == Decompressed(p, r, image, x, y)
  {
    LineFits(r, image, v);
  }

  /** The one-row block that a line of an image is painted with. */
  function LineBlock(r: Rect, image: Decoded, v: nat): DecodedRect
    requires v < Filled(r, image).height
  {
    DecodedRect(Rect(r.x, Min(r.y + v, 0xFFFF), Filled(r, image).width, 1), Rgba(LineOf(r, image, v)))
  }

  /** Painting one line of an image wider or narrower than its rectangle. */
  lemma ImageLine(was: Picture, now: Picture, r: Rect, image: Decoded, v: nat)
    requires !r.IsEmpty() && v < Filled(r, image).height
    requires RowsDone(was, now, DecodedRect(r, Jpeg(Some(image))), r.y, r.y + v)
    ensures var next := CompositedPicture(now, LineBlock(r, image, v));
            && RowsDone(was, next, DecodedRect(r, Jpeg(Some(image))), r.y, r.y + v + 1)
            && WrittenOnce(was, now, next)
  {
    hide CompositedPicture, Composited, LineBlock;
    var d := DecodedRect(r, Jpeg(Some(image)));
    var next := CompositedPicture(now, LineBlock(r, image, v));
    forall x, y | was.InBounds(x, y)
      ensures next.At(x, y) == if r.y <= y < r.y + v + 1 then Composited(was, d, x, y) else was.At(x, y)
      ensures now.At(x, y) == was.At(x, y) || next.At(x, y) == now.At(x, y)
    {
      CompositedAt(now, LineBlock(r, image, v), x, y);
      LinePixel(was, now, r, image, v, x, y);
    }
  }

  lemma LinePixel(was: Picture, now: Picture, r: Rect, image: Decoded, v: nat, x: int, y: int)
    requires !r.IsEmpty() && v < Filled(r, image).height
    requires SameSize(was, now) && was.InBounds(x, y) && (y == r.y + v ==> now.At(x, y) == was.At(x, y))
    ensures y == r.y + v ==>
      Composited(now, LineBlock(r, image, v), x, y) == Composited(was, DecodedRect(r, Jpeg(Some(image))), x, y)
    ensures y != r.y + v ==> Composited(now, LineBlock(r, image, v), x, y) == now.At(x, y)
  {
    hide LineOf, Blitted, Decompressed;
    var block := LineBlock(r, image, v);
    if !block.rect.IsEmpty() {
      OneRowBlock(now, block.rect, block.payload.pixels, x, y);
    }
    if y == r.y + v {
      assert block.rect.Has(x, y) <==> Filled(r, image).Has(x, y);
      if Filled(r, image).Has(x, y) {
        LineOfAt(was, r, image, v, x, y);
      } else {
        OutsideImage(was, r, image, x, y);
      }
    }
  }

  lemma OneRowBlock(p: Picture, rect: Rect, pixels: seq<Pixel>, x: int, y: int)
    requires p.Ok() && p.InBounds(x, y) && rect.height == 1 && |pixels| == rect.width
    ensures Blitted(p, rect, pixels, x, y) == if rect.Has(x, y) then pixels[x - rect.x] else p.At(x, y)
  {
  }

  lemma OutsideImage(p: Picture, r: Rect, image: Decoded, x: int, y: int)
    requires p.Ok() && p.InBounds(x, y) && !Filled(r, image).Has(x, y)
    ensures Decompressed(p, r, image, x, y) == p.At(x, y)
  {
  }

  // ---------------------------------------------------------------- copies

  /** The size of a copy, as far as both ends are on the screen. */
  function CopySize(p: Picture, srcX: u16, srcY: u16, dst: Rect): (nat, nat)
    requires p.InBounds(srcX, srcY) && p.InBounds(dst.x, dst.y)
  {
    (Min(Min(dst.width, p.width - srcX), p.width - dst.x), Min(Min(dst.height, p.height - srcY), p.height - dst.y))
  }

  lemma NothingToCopy(p: Picture, srcX: u16, srcY: u16, dst: Rect)
    requires p.Ok()
    requires p.InBounds(srcX, srcY) && p.InBounds(dst.x, dst.y) ==>
      CopySize(p, srcX, srcY, dst).0 == 0 || CopySize(p, srcX, srcY, dst).1 == 0
    ensures CompositedPicture(p, DecodedRect(dst, CopyRect(srcX, srcY))) == p
  {
    var d := DecodedRect(dst, CopyRect(srcX, srcY));
    forall x, y | p.InBounds(x, y)
      ensures CompositedPicture(p, d).At(x, y) == p.At(x, y)
    {
      CompositedAt(p, d, x, y);
    }
    SamePixels(CompositedPicture(p, d), p);
  }

  /** The source row of a copy, while it still holds what it held, is the row the
      copy leaves at its destination. */
  lemma CopyRow(was: Picture, now: Picture, srcX: u16, srcY: u16, dst: Rect, row: nat, lo: int, hi: int)
    requires was.Ok() && was.InBounds(srcX, srcY) && was.InBounds(dst.x, dst.y)
    requires row < CopySize(was, srcX, srcY, dst).1
    requires RowsDone(was, now, DecodedRect(dst, CopyRect(srcX, srcY)), lo, hi) && !(lo <= srcY + row < hi)
    ensures IsRow(was, DecodedRect(dst, CopyRect(srcX, srcY)), dst.x, dst.y + row,
                  RowOf(now, srcX, srcY + row, CopySize(was, srcX, srcY, dst).0))
  {
    var w := CopySize(was, srcX, srcY, dst).0;
    var line := RowOf(now, srcX, srcY + row, w);
    forall k | 0 <= k < w
      ensures line[k] == was.At(srcX + k, srcY + row)
    {
      RowOfAt(now, srcX, srcY + row, w, k);
    }
  }

  lemma OtherRowsStay(was: Picture, srcX: u16, srcY: u16, dst: Rect, x: int, y: int)
    requires was.Ok() && was.InBounds(srcX, srcY) && was.InBounds(dst.x, dst.y) && was.InBounds(x, y)
    requires !(dst.y <= y < dst.y + CopySize(was, srcX, srcY, dst).1)
    ensures Composited(was, DecodedRect(dst, CopyRect(srcX, srcY)), x, y) == was.At(x, y)
  {
  }

  // ---------------------------------------------------------------- what changed

  /** The cells one rectangle counts as changed. */
  ghost function StepCells(s: MirrorState, d: DecodedRect): set<Cell>
    requires s.Ok()
  {
    DifferingPictures(s.picture, ApplyRect(s, d).picture) +
      if Unknowable(d) then CellsOf(d.rect, s.picture.width, s.picture.height) else {}
  }

  ghost function UpdateCells(s: MirrorState, rects: seq<DecodedRect>): set<Cell>
    requires s.Ok()
  {
    if rects == [] then {}
    else
      var before := rects[..|rects| - 1];
      UpdateCells(s, before) + StepCells(ApplyAll(s, before), rects[|rects| - 1])
  }

  lemma {:induction false} UpdateCellsInGrid(s: MirrorState, rects: seq<DecodedRect>)
    requires s.Ok()
    ensures InGrid(UpdateCells(s, rects), s.picture.width, s.picture.height)
  {
    if rects != [] {
      UpdateCellsInGrid(s, rects[..|rects| - 1]);
    }
  }

  /** A pixel that an update leaves different lies in a cell it counted. */
  lemma {:induction false} ChangeIsCounted(s: MirrorState, rects: seq<DecodedRect>, x: nat, y: nat)
    requires s.Ok() && s.picture.InBounds(x, y)
    requires ApplyAll(s, rects).picture.At(x, y) != s.picture.At(x, y)
    ensures CellAt(x, y) in UpdateCells(s, rects)
  {
    if rects != [] {
      var before, last := rects[..|rects| - 1], rects[|rects| - 1];
      var mid, end := ApplyAll(s, before), ApplyAll(s, rects);
      if mid.picture.At(x, y) != s.picture.At(x, y) {
        ChangeIsCounted(s, before, x, y);
      } else {
        assert (x, y) in Span(0, 0, s.picture.width, s.picture.height);
        assert CellAt(x, y) in DifferingPictures(mid.picture, end.picture);
      }
    }
  }

  ghost function ChangedPixels(p: Picture, q: Picture): set<(nat, nat)>
    requires SameSize(p, q)
  {
    set c | c in Span(0, 0, p.width, p.height) && p.At(c.0, c.1) != q.At(c.0, c.1)
  }

  /** `apply` never under-reports: its area is at least the number of pixels that
      now differ and at most the screen, and nothing means the picture is as it
      was. */
  lemma AreaNeverUnderReports(s: MirrorState, rects: seq<DecodedRect>, area: nat)
    requires s.Ok() && IsArea(area, UpdateCells(s, rects), s.picture.width, s.picture.height)
    ensures |ChangedPixels(s.picture, ApplyAll(s, rects).picture)| <= area <= s.picture.width * s.picture.height
    ensures area == 0 ==> ApplyAll(s, rects).picture == s.picture
  {
    var cells := UpdateCells(s, rects);
    var p, q := s.picture, ApplyAll(s, rects).picture;
    UpdateCellsInGrid(s, rects);
    AreaBounds(area, cells, p.width, p.height);
    forall c | c in ChangedPixels(p, q)
      ensures c in PixelsOf(cells, p.width, p.height)
    {
      ChangeIsCounted(s, rects, c.0, c.1);
    }
    SubsetCard(ChangedPixels(p, q), PixelsOf(cells, p.width, p.height));
    if area == 0 {
      forall x, y | p.InBounds(x, y)
        ensures p.At(x, y) == q.At(x, y)
      {
        assert (x, y) in Span(0, 0, p.width, p.height);
        assert (x, y) !in ChangedPixels(p, q);
      }
      SamePixels(p, q);
    }
  }

  /** A resend of what the mirror already holds counts for nothing. */
  lemma {:induction false} ResendCountsForNothing(s: MirrorState, rects: seq<DecodedRect>, area: nat)
    requires s.Ok() && IsArea(area, UpdateCells(s, rects), s.picture.width, s.picture.height)
    requires forall k :: 0 <= k < |rects| ==>
      !Unknowable(rects[k]) && CompositedPicture(s.picture, rects[k]) == s.picture
    ensures area == 0
  {
    ResendMarksNothing(s, rects);
  }

  lemma {:induction false} ResendMarksNothing(s: MirrorState, rects: seq<DecodedRect>)
    requires s.Ok()
    requires forall k :: 0 <= k < |rects| ==>
      !Unknowable(rects[k]) && CompositedPicture(s.picture, rects[k]) == s.picture
    ensures UpdateCells(s, rects) == {} && ApplyAll(s, rects).picture == s.picture
  {
    if rects != [] {
      var before := rects[..|rects| - 1];
      ResendMarksNothing(s, before);
      NothingDiffers(s.picture);
    }
  }
}
