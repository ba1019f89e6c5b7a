/** Counting the pixels of a grid of 64-pixel cells: what the area of an update
    is made of (crates/agent-perception/src/mirror.rs:210-253). */
module ChangedArea {
  import opened Geometry
  import opened Grids

  const CHANGE_CELL := 64

  type Cell = (nat, nat)

  function Cells(n: nat): nat {
    (n + CHANGE_CELL - 1) / CHANGE_CELL
  }

  function CellAt(x: nat, y: nat): Cell {
    (x / CHANGE_CELL, y / CHANGE_CELL)
  }

  /** The pixels from (x0, y0) up to, and without, (x1, y1). */
  ghost function Span(x0: nat, y0: nat, x1: nat, y1: nat): set<(nat, nat)> {
    set x: nat, y: nat | x0 <= x < x1 && y0 <= y < y1 :: (x, y)
  }

  lemma {:induction false} RowCard(x0: nat, x1: nat, y: nat)
    requires x0 <= x1
    ensures |Span(x0, y, x1, y + 1)| == x1 - x0
    decreases x1 - x0
  {
    if x0 == x1 {
      assert Span(x0, y, x1, y + 1) == {};
    } else {
      RowCard(x0, x1 - 1, y);
      assert Span(x0, y, x1, y + 1) == Span(x0, y, x1 - 1, y + 1) + {(x1 - 1, y)};
    }
  }

  lemma SpanEmpty(x0: nat, y: nat, x1: nat)
    ensures Span(x0, y, x1, y) == {}
  {
  }

  lemma SpanSplit(x0: nat, y0: nat, x1: nat, y1: nat)
    requires y0 < y1
    ensures Span(x0, y0, x1, y1) == Span(x0, y0, x1, y1 - 1) + Span(x0, y1 - 1, x1, y1)
    ensures Span(x0, y0, x1, y1 - 1) !! Span(x0, y1 - 1, x1, y1)
  {
  }

  lemma {:induction false} SpanCard(x0: nat, y0: nat, x1: nat, y1: nat)
    requires x0 <= x1 && y0 <= y1
    ensures |Span(x0, y0, x1, y1)| == (x1 - x0) * (y1 - y0)
    decreases y1 - y0
  {
    hide Span;
    if y0 == y1 {
      SpanEmpty(x0, y0, x1);
      assert Span(x0, y0, x1, y1) == {};
    } else {
      SpanCard(x0, y0, x1, y1 - 1);
      RowCard(x0, x1, y1 - 1);
      SpanSplit(x0, y0, x1, y1);
      Distributes(y1 - 1 - y0, 1, x1 - x0);
    }
  }

  /** The screen's pixels in these cells. */
  ghost function PixelsOf(cells: set<Cell>, width: nat, height: nat): set<(nat, nat)> {
    set p | p in Span(0, 0, width, height) && CellAt(p.0, p.1) in cells
  }

  /** The pixels of one cell that are on the screen, by its size. */
  function PixelsIn(cx: nat, cy: nat, width: nat, height: nat): nat
    requires cx < Cells(width) && cy < Cells(height)
  {
    var w: nat := Min(CHANGE_CELL, width - cx * CHANGE_CELL);
    var h: nat := Min(CHANGE_CELL, height - cy * CHANGE_CELL);
    w * h
  }

  lemma InCell(p: nat, cell: nat)
    ensures p / CHANGE_CELL == cell <==> cell * CHANGE_CELL <= p < cell * CHANGE_CELL + CHANGE_CELL
  {
  }

  lemma CellPixels(cell: Cell, width: nat, height: nat)
    requires cell.0 < Cells(width) && cell.1 < Cells(height)
    ensures |PixelsOf({cell}, width, height)| == PixelsIn(cell.0, cell.1, width, height)
  {
    var x, y := cell.0 * CHANGE_CELL, cell.1 * CHANGE_CELL;
    var x1, y1 := x + Min(CHANGE_CELL, width - x), y + Min(CHANGE_CELL, height - y);
    SpanCard(x, y, x1, y1);
    assert PixelsOf({cell}, width, height) == Span(x, y, x1, y1) by {
      forall p: (nat, nat)
        ensures p in PixelsOf({cell}, width, height) <==> p in Span(x, y, x1, y1)
      {
        InCell(p.0, cell.0);
        InCell(p.1, cell.1);
      }
    }
  }

  lemma OneMoreCell(cells: set<Cell>, cell: Cell, width: nat, height: nat)
    requires cell !in cells
    ensures |PixelsOf(cells + {cell}, width, height)| ==
      |PixelsOf(cells, width, height)| + |PixelsOf({cell}, width, height)|
  {
    assert PixelsOf(cells + {cell}, width, height) == PixelsOf(cells, width, height) + PixelsOf({cell}, width, height);
    assert PixelsOf(cells, width, height) !! PixelsOf({cell}, width, height);
  }

  datatype Box = Box(left: nat, top: nat, right: nat, bottom: nat) {
    /** The smallest box of cells around these. */
    ghost predicate Around(cells: set<Cell>) {
      && (forall c :: c in cells ==> left <= c.0 <= right && top <= c.1 <= bottom)
      && (exists c :: c in cells && c.0 == left) && (exists c :: c in cells && c.0 == right)
      && (exists c :: c in cells && c.1 == top) && (exists c :: c in cells && c.1 == bottom)
    }

    function Cells(): int {
      (right - left + 1) * (bottom - top + 1)
    }

    ghost function Pixels(width: nat, height: nat): set<(nat, nat)> {
      set p | p in Span(0, 0, width, height) &&
        left <= p.0 / CHANGE_CELL <= right && top <= p.1 / CHANGE_CELL <= bottom
    }
  }

  lemma InCells(p: nat, first: nat, last: nat)
    ensures first <= p / CHANGE_CELL <= last <==> first * CHANGE_CELL <= p < (last + 1) * CHANGE_CELL
  {
  }

  lemma BoxCard(box: Box, width: nat, height: nat)
    requires box.left <= box.right < Cells(width) && box.top <= box.bottom < Cells(height)
    ensures var w, h := Min((box.right + 1) * CHANGE_CELL, width) - box.left * CHANGE_CELL,
                        Min((box.bottom + 1) * CHANGE_CELL, height) - box.top * CHANGE_CELL;
            w >= 0 && h >= 0 && |box.Pixels(width, height)| == w * h
  {
    var x0, y0 := box.left * CHANGE_CELL, box.top * CHANGE_CELL;
    var x1, y1 := Min((box.right + 1) * CHANGE_CELL, width), Min((box.bottom + 1) * CHANGE_CELL, height);
    SpanCard(x0, y0, x1, y1);
    assert box.Pixels(width, height) == Span(x0, y0, x1, y1) by {
      forall p: (nat, nat)
        ensures p in box.Pixels(width, height) <==> p in Span(x0, y0, x1, y1)
      {
        InCells(p.0, box.left, box.right);
        InCells(p.1, box.top, box.bottom);
      }
    }
  }

  /** How much of the screen these cells are: their own pixels when they are
      sparse in the box around them, and the whole box otherwise. */
  ghost function AreaIn(box: Box, cells: set<Cell>, width: nat, height: nat): nat {
    if |cells| * 5 < box.Cells() then |PixelsOf(cells, width, height)| else |box.Pixels(width, height)|
  }

  ghost predicate IsArea(area: nat, cells: set<Cell>, width: nat, height: nat) {
    if cells == {} then area == 0
    else exists box: Box :: box.Around(cells) && area == AreaIn(box, cells, width, height)
  }

  lemma SubsetCard(a: set<(nat, nat)>, b: set<(nat, nat)>)
    requires a <= b
    ensures |a| <= |b|
  {
    assert b == a + (b - a);
  }

  predicate InGrid(cells: set<Cell>, width: nat, height: nat) {
    forall c :: c in cells ==> c.0 < Cells(width) && c.1 < Cells(height)
  }

  lemma AreaInBounds(box: Box, cells: set<Cell>, width: nat, height: nat)
    requires box.Around(cells)
    ensures |PixelsOf(cells, width, height)| <= |box.Pixels(width, height)| <= width * height
  {
    SpanCard(0, 0, width, height);
    SubsetCard(PixelsOf(cells, width, height), box.Pixels(width, height));
    SubsetCard(box.Pixels(width, height), Span(0, 0, width, height));
  }

  lemma MarkedHasPixels(cells: set<Cell>, width: nat, height: nat)
    requires cells != {} && InGrid(cells, width, height)
    ensures |PixelsOf(cells, width, height)| > 0
  {
    var c :| c in cells;
    var p: (nat, nat) := (c.0 * CHANGE_CELL, c.1 * CHANGE_CELL);
    assert p in Span(0, 0, width, height) && CellAt(p.0, p.1) == c;
    assert p in PixelsOf(cells, width, height);
  }

  /** The area is at least the pixels of every marked cell, at most the screen,
      and nothing only when nothing is marked. */
  lemma AreaBounds(area: nat, cells: set<Cell>, width: nat, height: nat)
    requires IsArea(area, cells, width, height) && InGrid(cells, width, height)
    ensures |PixelsOf(cells, width, height)| <= area <= width * height
    ensures area == 0 <==> cells == {}
  {
    if cells == {} {
      assert PixelsOf(cells, width, height) == {};
    } else {
      var box: Box :| box.Around(cells) && area == AreaIn(box, cells, width, height);
      AreaInBounds(box, cells, width, height);
      MarkedHasPixels(cells, width, height);
    }
  }
}
