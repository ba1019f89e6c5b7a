/** What the area of an update promises: the cells in which a pixel now differs
    (crates/agent-perception/src/mirror.rs:360-367), and exactly when it is that. */
module ReportedArea {
  import opened ChangedArea
  import opened ChangedCellGrid
  import opened Compositing
  import opened Geometry
  import opened Pictures
  import opened Repainting

  /** The cells in which a pixel differs from before the update. */
  ghost function CellsThatDiffer(s: MirrorState, rects: seq<DecodedRect>): set<Cell>
    requires s.Ok()
  {
    DifferingPictures(s.picture, ApplyAll(s, rects).picture)
  }

  /** Every cell of the box is one of these. */
  ghost predicate Filled(box: Box, cells: set<Cell>) {
    forall cx: nat, cy: nat :: box.left <= cx <= box.right && box.top <= cy <= box.bottom ==> (cx, cy) in cells
  }

  /** The cells are fewer than a fifth of the box around them, or all of it. */
  ghost predicate SparseOrFull(cells: set<Cell>) {
    cells == {} || exists box: Box :: box.Around(cells) && (|cells| * 5 < box.Cells() || Filled(box, cells))
  }

  lemma OneBox(a: Box, b: Box, cells: set<Cell>)
    requires a.Around(cells) && b.Around(cells)
    ensures a == b
  {
  }

  lemma SubsetIsAll(a: set<(nat, nat)>, b: set<(nat, nat)>)
    requires a <= b && |a| == |b|
    ensures a == b
  {
    assert b == a + (b - a);
  }

  lemma CellHasPixel(c: Cell, width: nat, height: nat)
    requires c.0 < Cells(width) && c.1 < Cells(height)
    ensures (c.0 * CHANGE_CELL, c.1 * CHANGE_CELL) in Span(0, 0, width, height)
    ensures CellAt(c.0 * CHANGE_CELL, c.1 * CHANGE_CELL) == c
  {
  }

  /** The pixels of these cells are those of the box exactly when the cells are. */
  lemma SamePixelsAsBox(box: Box, cells: set<Cell>, width: nat, height: nat)
    requires box.Around(cells) && InGrid(cells, width, height)
    ensures |PixelsOf(cells, width, height)| == |box.Pixels(width, height)| <==> Filled(box, cells)
  {
    var pixels, all := PixelsOf(cells, width, height), box.Pixels(width, height);
    if |pixels| == |all| {
      SubsetIsAll(pixels, all);
      forall cx: nat, cy: nat | box.left <= cx <= box.right && box.top <= cy <= box.bottom
        ensures (cx, cy) in cells
      {
        CellHasPixel((cx, cy), width, height);
        assert (cx * CHANGE_CELL, cy * CHANGE_CELL) in all;
      }
    }
    if Filled(box, cells) {
      assert pixels == all;
    }
  }

  /** The area is that of the cells themselves exactly when they are sparse in
      the box around them, or all of it. */
  lemma AreaOfCells(area: nat, cells: set<Cell>, width: nat, height: nat)
    requires IsArea(area, cells, width, height) && InGrid(cells, width, height)
    ensures area == |PixelsOf(cells, width, height)| <==> SparseOrFull(cells)
  {
    if cells == {} {
      assert PixelsOf(cells, width, height) == {};
    } else {
      var box: Box :| box.Around(cells) && area == AreaIn(box, cells, width, height);
      SamePixelsAsBox(box, cells, width, height);
      if SparseOrFull(cells) {
        var other: Box :| other.Around(cells) && (|cells| * 5 < other.Cells() || Filled(other, cells));
        OneBox(box, other, cells);
      }
    }
  }

  lemma PixelsOfBox(box: Box, width: nat, height: nat)
    ensures PixelsOf(Span(box.left, box.top, box.right + 1, box.bottom + 1), width, height) == box.Pixels(width, height)
  {
    var boxed := Span(box.left, box.top, box.right + 1, box.bottom + 1);
    forall p: (nat, nat)
      ensures p in PixelsOf(boxed, width, height) <==> p in box.Pixels(width, height)
    {
    }
  }

  lemma BoxCells(box: Box, cells: set<Cell>)
    requires cells != {} && box.Around(cells)
    ensures |Span(box.left, box.top, box.right + 1, box.bottom + 1)| == box.Cells()
  {
    SpanCard(box.left, box.top, box.right + 1, box.bottom + 1);
  }

  /** What the area is: nothing for no cell; the pixels of the cells when five times as
      many still do not make up the cells of the smallest box around them; and the
      pixels of all of the box's cells otherwise. */
  lemma AreaIs(area: nat, cells: set<Cell>, box: Box, width: nat, height: nat)
    requires IsArea(area, cells, width, height) && (cells != {} ==> box.Around(cells))
    ensures var boxed := Span(box.left, box.top, box.right + 1, box.bottom + 1);
      && (cells == {} ==> area == 0)
      && (cells != {} && 5 * |cells| < |boxed| ==> area == |PixelsOf(cells, width, height)|)
      && (cells != {} && 5 * |cells| >= |boxed| ==> area == |PixelsOf(boxed, width, height)|)
  {
    if cells != {} {
      hide PixelsOf, Span, Box.Pixels, Box.Cells;
      var other: Box :| other.Around(cells) && area == AreaIn(other, cells, width, height);
      OneBox(box, other, cells);
      hide Box.Around;
      BoxCells(box, cells);
      PixelsOfBox(box, width, height);
    }
  }

  /** More cells have more pixels. */
  lemma FewerCells(some: set<Cell>, all: set<Cell>, width: nat, height: nat)
    requires some <= all && InGrid(all, width, height)
    ensures |PixelsOf(some, width, height)| <= |PixelsOf(all, width, height)|
    ensures |PixelsOf(some, width, height)| == |PixelsOf(all, width, height)| <==> some == all
  {
    SubsetCard(PixelsOf(some, width, height), PixelsOf(all, width, height));
    if |PixelsOf(some, width, height)| == |PixelsOf(all, width, height)| {
      SubsetIsAll(PixelsOf(some, width, height), PixelsOf(all, width, height));
      forall c: Cell | c in all
        ensures c in some
      {
        CellHasPixel(c, width, height);
        assert (c.0 * CHANGE_CELL, c.1 * CHANGE_CELL) in PixelsOf(all, width, height);
      }
    }
  }

  lemma DifferingAreCounted(s: MirrorState, rects: seq<DecodedRect>)
    requires s.Ok()
    ensures CellsThatDiffer(s, rects) <= UpdateCells(s, rects)
  {
    var p, q := s.picture, ApplyAll(s, rects).picture;
    forall cell | cell in CellsThatDiffer(s, rects)
      ensures cell in UpdateCells(s, rects)
    {
      var c :| c in Span(0, 0, p.width, p.height) && p.At(c.0, c.1) != q.At(c.0, c.1) && CellAt(c.0, c.1) == cell;
      ChangeIsCounted(s, rects, c.0, c.1);
    }
  }

  /** The area is that of the cells in which a pixel now differs if and only if
      every counted cell is one of those, and they are sparse in the box around
      them or all of it. */
  lemma AreaReportsExactly(s: MirrorState, rects: seq<DecodedRect>, area: nat)
    requires s.Ok() && IsArea(area, UpdateCells(s, rects), s.picture.width, s.picture.height)
    ensures area == |PixelsOf(CellsThatDiffer(s, rects), s.picture.width, s.picture.height)| <==>
      UpdateCells(s, rects) == CellsThatDiffer(s, rects) && SparseOrFull(CellsThatDiffer(s, rects))
  {
    hide CellsThatDiffer, IsArea, PixelsOf;
    var width, height := s.picture.width, s.picture.height;
    UpdateCellsInGrid(s, rects);
    DifferingAreCounted(s, rects);
    FewerCells(CellsThatDiffer(s, rects), UpdateCells(s, rects), width, height);
    AreaBounds(area, UpdateCells(s, rects), width, height);
    AreaOfCells(area, UpdateCells(s, rects), width, height);
  }

  // ---------------------------------------------------------------- what is counted

  /** The rectangle holds the pixel and cannot be compared, being a short block, an
      image that does not decode, or video. */
  predicate HoldsUnseen(d: DecodedRect, x: nat, y: nat) {
    && d.rect.Has(x, y)
    && match d.payload
       case Rgba(pixels) => |pixels| < d.rect.width * d.rect.height
       case Jpeg(decoded) => decoded.None?
       case CopyRect(_, _) => false
       case H264(control) => !control
  }

  /** The picture after the first `n` rectangles. */
  ghost function PictureAfter(s: MirrorState, rects: seq<DecodedRect>, n: nat): (p: Picture)
    requires s.Ok() && n <= |rects|
    ensures p.Ok() && p.width == s.picture.width && p.height == s.picture.height
  {
    ApplyAll(s, rects[..n]).picture
  }

  /** Rectangle `k` makes the pixel count: it leaves it different, or holds it unseen. */
  ghost predicate MakesCount(s: MirrorState, rects: seq<DecodedRect>, k: nat, x: nat, y: nat)
    requires s.Ok()
  {
    && k < |rects| && s.picture.InBounds(x, y)
    && (|| PictureAfter(s, rects, k + 1).At(x, y) != PictureAfter(s, rects, k).At(x, y)
        || HoldsUnseen(rects[k], x, y))
  }

  /** Rectangle `k` makes a pixel of this 64 by 64 cell count. */
  ghost predicate CountedBy(s: MirrorState, rects: seq<DecodedRect>, k: nat, cell: Cell)
    requires s.Ok()
  {
    exists x: nat, y: nat :: MakesCount(s, rects, k, x, y) && x / 64 == cell.0 && y / 64 == cell.1
  }

  lemma DiffersSomewhere(p: Picture, q: Picture, cell: Cell) returns (x: nat, y: nat)
    requires SameSize(p, q) && cell in DifferingPictures(p, q)
    ensures p.InBounds(x, y) && p.At(x, y) != q.At(x, y) && x / 64 == cell.0 && y / 64 == cell.1
  {
    hide Picture.At;
    var c :| c in Span(0, 0, p.width, p.height) && p.At(c.0, c.1) != q.At(c.0, c.1) && CellAt(c.0, c.1) == cell;
    x, y := c.0, c.1;
  }

  lemma HeldSomewhere(r: Rect, width: nat, height: nat, cell: Cell) returns (x: nat, y: nat)
    requires cell in CellsOf(r, width, height)
    ensures x < width && y < height && r.Has(x, y) && x / 64 == cell.0 && y / 64 == cell.1
  {
    var c :| c in Span(0, 0, width, height) && r.Has(c.0, c.1) && CellAt(c.0, c.1) == cell;
    x, y := c.0, c.1;
  }

  lemma StepCellsAre(s: MirrorState, rects: seq<DecodedRect>, k: nat)
    requires s.Ok() && k < |rects|
    ensures StepCells(ApplyAll(s, rects[..k]), rects[k]) ==
      DifferingPictures(PictureAfter(s, rects, k), PictureAfter(s, rects, k + 1)) +
      (if Unknowable(rects[k]) then CellsOf(rects[k].rect, s.picture.width, s.picture.height) else {})
  {
    hide ApplyRect, DifferingPictures, CellsOf, Unknowable;
    assert rects[..k + 1][..k] == rects[..k];
  }

  lemma CountsForOne(s: MirrorState, rects: seq<DecodedRect>, k: nat, cell: Cell)
    requires s.Ok() && k < |rects| && cell in StepCells(ApplyAll(s, rects[..k]), rects[k])
    ensures CountedBy(s, rects, k, cell)
  {
    hide ApplyAll, StepCells, Picture.At, DifferingPictures, CellsOf, PictureAfter;
    StepCellsAre(s, rects, k);
    if cell in DifferingPictures(PictureAfter(s, rects, k), PictureAfter(s, rects, k + 1)) {
      var x, y := DiffersSomewhere(PictureAfter(s, rects, k), PictureAfter(s, rects, k + 1), cell);
      assert MakesCount(s, rects, k, x, y);
    } else {
      var x, y := HeldSomewhere(rects[k].rect, s.picture.width, s.picture.height, cell);
      assert MakesCount(s, rects, k, x, y);
    }
  }

  lemma OneCounts(s: MirrorState, rects: seq<DecodedRect>, k: nat, x: nat, y: nat)
    requires s.Ok() && MakesCount(s, rects, k, x, y)
    ensures CellAt(x, y) in StepCells(ApplyAll(s, rects[..k]), rects[k])
  {
    hide ApplyAll, StepCells, Picture.At, PictureAfter;
    StepCellsAre(s, rects, k);
    assert (x, y) in Span(0, 0, s.picture.width, s.picture.height);
  }

  lemma StepCountsExactly(s: MirrorState, rects: seq<DecodedRect>, k: nat, cell: Cell)
    requires s.Ok() && k < |rects|
    ensures cell in StepCells(ApplyAll(s, rects[..k]), rects[k]) <==> CountedBy(s, rects, k, cell)
  {
    hide StepCells, ApplyAll, MakesCount;
    if CountedBy(s, rects, k, cell) {
      var x: nat, y: nat :| MakesCount(s, rects, k, x, y) && x / 64 == cell.0 && y / 64 == cell.1;
      OneCounts(s, rects, k, x, y);
    }
    if cell in StepCells(ApplyAll(s, rects[..k]), rects[k]) {
      CountsForOne(s, rects, k, cell);
    }
  }

  lemma CountedBefore(s: MirrorState, rects: seq<DecodedRect>, n: nat, k: nat, cell: Cell)
    requires s.Ok() && k < n <= |rects|
    ensures CountedBy(s, rects[..n], k, cell) <==> CountedBy(s, rects, k, cell)
  {
    assert rects[..n][..k] == rects[..k] && rects[..n][..k + 1] == rects[..k + 1];
    forall x: nat, y: nat
      ensures MakesCount(s, rects[..n], k, x, y) <==> MakesCount(s, rects, k, x, y)
    {
    }
    hide MakesCount;
  }

  /** A cell is counted for an update if and only if one of its rectangles makes a
      pixel of the cell count. */
  lemma {:induction false} CountedExactly(s: MirrorState, rects: seq<DecodedRect>, cell: Cell)
    requires s.Ok()
    ensures cell in UpdateCells(s, rects) <==> exists k: nat :: k < |rects| && CountedBy(s, rects, k, cell)
    decreases |rects|
  {
    hide StepCells, CountedBy, ApplyAll;
    if rects != [] {
      var n := |rects| - 1;
      CountedExactly(s, rects[..n], cell);
      StepCountsExactly(s, rects, n, cell);
      forall k: nat | k < n
        ensures CountedBy(s, rects[..n], k, cell) <==> CountedBy(s, rects, k, cell)
      {
        CountedBefore(s, rects, n, k, cell);
      }
    }
  }

  // ---------------------------------------------------------------- for a caller

  /** Every rectangle can be compared, and no pixel belongs to two of them. */
  ghost predicate Comparable(rects: seq<DecodedRect>) {
    && (forall k :: 0 <= k < |rects| ==> !Unknowable(rects[k]))
    && (forall k, l, x, y :: 0 <= k < l < |rects| ==> !(rects[k].rect.Has(x, y) && rects[l].rect.Has(x, y)))
  }

  lemma OutsideStays(s: MirrorState, d: DecodedRect, x: int, y: int)
    requires s.Ok() && s.picture.InBounds(x, y) && !d.rect.Has(x, y)
    ensures ApplyRect(s, d).picture.At(x, y) == s.picture.At(x, y)
  {
    CompositedAt(s.picture, d, x, y);
  }

  /** A pixel of none of the rectangles is as it was. */
  lemma {:induction false} UntouchedStays(s: MirrorState, rects: seq<DecodedRect>, x: int, y: int)
    requires s.Ok() && s.picture.InBounds(x, y)
    requires forall k :: 0 <= k < |rects| ==> !rects[k].rect.Has(x, y)
    ensures ApplyAll(s, rects).picture.At(x, y) == s.picture.At(x, y)
  {
    if rects != [] {
      var before := rects[..|rects| - 1];
      UntouchedStays(s, before, x, y);
      OutsideStays(ApplyAll(s, before), rects[|rects| - 1], x, y);
    }
  }

  /** Of rectangles that can be compared and do not overlap, every counted cell
      holds a pixel that now differs. */
  lemma {:induction false} ComparableCountsExactly(s: MirrorState, rects: seq<DecodedRect>)
    requires s.Ok() && Comparable(rects)
    ensures UpdateCells(s, rects) == CellsThatDiffer(s, rects)
  {
    if rects == [] {
      NothingDiffers(s.picture);
    } else {
      var before, last := rects[..|rects| - 1], rects[|rects| - 1];
      var mid := ApplyAll(s, before);
      ComparableCountsExactly(s, before);
      LastWritesAnew(s, rects);
      DiffersInSteps(s.picture, mid.picture, ApplyRect(mid, last).picture);
    }
  }

  lemma LastWritesAnew(s: MirrorState, rects: seq<DecodedRect>)
    requires s.Ok() && rects != [] && Comparable(rects)
    ensures WrittenOnce(s.picture, ApplyAll(s, rects[..|rects| - 1]).picture, ApplyAll(s, rects).picture)
  {
    hide ApplyRect;
    var before, last := rects[..|rects| - 1], rects[|rects| - 1];
    var mid := ApplyAll(s, before);
    forall x, y | s.picture.InBounds(x, y)
      ensures mid.picture.At(x, y) == s.picture.At(x, y) ||
        ApplyRect(mid, last).picture.At(x, y) == mid.picture.At(x, y)
    {
      if last.rect.Has(x, y) {
        UntouchedStays(s, before, x, y);
      } else {
        OutsideStays(mid, last, x, y);
      }
    }
  }

  /** So for those the area is the promised one if and only if the cells that
      differ are sparse in the box around them, or all of it. */
  lemma ComparableAreaIsExact(s: MirrorState, rects: seq<DecodedRect>, area: nat)
    requires s.Ok() && IsArea(area, UpdateCells(s, rects), s.picture.width, s.picture.height) && Comparable(rects)
    ensures area == |PixelsOf(CellsThatDiffer(s, rects), s.picture.width, s.picture.height)| <==>
      SparseOrFull(CellsThatDiffer(s, rects))
  {
    ComparableCountsExactly(s, rects);
    AreaReportsExactly(s, rects, area);
  }

  function Dot(colour: Pixel): DecodedRect {
    DecodedRect(Rect(0, 0, 1, 1), Rgba([colour]))
  }

  lemma DotShows(s: MirrorState, colour: Pixel)
    requires s.Ok() && s.picture.width == 1 && s.picture.height == 1
    ensures ApplyRect(s, Dot(colour)).picture.At(0, 0) == colour
    ensures s.picture.At(0, 0) != colour ==> CellAt(0, 0) in StepCells(s, Dot(colour))
  {
    hide CompositedPicture, MarkFor;
    CompositedAt(s.picture, Dot(colour), 0, 0);
    assert (0, 0) in Span(0, 0, 1, 1);
  }

  /** A pixel painted and painted back: the picture is as it was, and the area of
      one pixel is reported. */
  lemma ChangedBackIsReported(area: nat)
    requires IsArea(area, UpdateCells(Fresh(1, 1), [Dot(7), Dot(OPAQUE_BLACK)]), 1, 1)
    ensures ApplyAll(Fresh(1, 1), [Dot(7), Dot(OPAQUE_BLACK)]).picture == Fresh(1, 1).picture
    ensures CellsThatDiffer(Fresh(1, 1), [Dot(7), Dot(OPAQUE_BLACK)]) == {}
    ensures area == 1
  {
    hide Fresh, ApplyRect, StepCells, DifferingPictures, IsArea, Dot;
    var s, rects := Fresh(1, 1), [Dot(7), Dot(OPAQUE_BLACK)];
    assert rects[..1] == [Dot(7)] && [Dot(7)][..0] == [];
    var mid := ApplyRect(s, Dot(7));
    FreshIsBlack(1, 1, 0, 0);
    DotShows(s, 7);
    DotShows(mid, OPAQUE_BLACK);
    assert ApplyAll(s, [Dot(7)]) == mid;
    SamePixels(ApplyRect(mid, Dot(OPAQUE_BLACK)).picture, s.picture);
    NothingDiffers(s.picture);
    assert StepCells(s, Dot(7)) <= UpdateCells(s, [Dot(7)]) <= UpdateCells(s, rects);
    UpdateCellsInGrid(s, rects);
    AreaBounds(area, UpdateCells(s, rects), 1, 1);
  }

  lemma FreshIsBlack(width: u16, height: u16, x: int, y: int)
    requires 0 <= x < width && 0 <= y < height
    ensures Fresh(width, height).picture.At(x, y) == OPAQUE_BLACK
  {
    PaintedAt(width, height, (_, _) => OPAQUE_BLACK, x, y);
  }
}
