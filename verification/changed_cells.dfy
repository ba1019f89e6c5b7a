/** Which 64-pixel cells an update changed
    (crates/agent-perception/src/mirror.rs:136-253). */
module ChangedCellGrid {
  import opened ChangedArea
  import opened Geometry
  import opened Grids
  import opened Pictures

  const USIZE_MAX := 0xFFFF_FFFF_FFFF_FFFF

  /** The cells of the rectangle's pixels that are on the screen. */
  ghost function CellsOf(rect: Rect, width: nat, height: nat): set<Cell> {
    set p | p in Span(0, 0, width, height) && rect.Has(p.0, p.1) :: CellAt(p.0, p.1)
  }

  /** The cells of one row in which `before` and `after` differ. */
  ghost function DifferingCells(x: nat, y: nat, before: seq<Pixel>, after: seq<Pixel>): set<Cell>
    requires |before| == |after|
  {
    set k | 0 <= k < |before| && before[k] != after[k] :: CellAt(x + k, y)
  }

  class ChangedCells {
    var width: nat
    var height: nat
    var columns: nat
    var cells: seq<bool>

    ghost predicate Valid()
      reads this
    {
      && width < 0x1_0000 && height < 0x1_0000
      && columns == Cells(width) && |cells| == columns * Cells(height)
    }

    ghost function Marked(): set<Cell>
      requires Valid()
      reads this
    {
      set c: Cell | c in Grid() && cells[IndexOf(c.0, c.1)]
    }

    ghost function Grid(): set<Cell>
      reads this
    {
      set cx: nat, cy: nat | cx < Cells(width) && cy < Cells(height) :: (cx, cy)
    }

    ghost function IndexOf(cx: nat, cy: nat): nat
      requires Valid() && cx < Cells(width) && cy < Cells(height)
      reads this
      ensures IndexOf(cx, cy) < |cells|
    {
      IndexOfCell(cx, cy, columns, Cells(height));
      cy * columns + cx
    }

    constructor ()
      ensures Valid() && width == 0 && height == 0 && Marked() == {}
    {
      width := 0;
      height := 0;
      columns := 0;
      cells := [];
    }

    /** A grid of this size with no cell marked. */
    method Reset(width: u16, height: u16)
      requires Valid()
      modifies this
      ensures Valid() && this.width == width && this.height == height && Marked() == {}
    {
      hide Marked;
      if this.width != width || this.height != height {
        columns := Cells(width);
        this.width := width;
        this.height := height;
        cells := seq(Cells(width) * Cells(height), _ => false);
      } else {
        cells := seq(|cells|, _ => false);
      }
      NoneMarked();
    }

    lemma NoneMarked()
      requires Valid() && forall i :: 0 <= i < |cells| ==> !cells[i]
      ensures Marked() == {}
    {
    }

    method Set(cx: nat, cy: nat)
      requires Valid() && cx < Cells(width) && cy < Cells(height)
      modifies `cells
      ensures Valid() && Marked() == old(Marked()) + {(cx, cy)}
    {
      IndexOfCell(cx, cy, columns, Cells(height));
      var i := cy * columns + cx;
      cells := cells[i := true];
      forall c: Cell | c in Grid()
        ensures IndexOf(c.0, c.1) == i <==> c == (cx, cy)
      {
        IndexOfCell(c.0, c.1, columns, Cells(height));
      }
    }

    /** Adds the cells of the rectangle's pixels on the screen, and no others. */
    method MarkRect(rect: Rect)
      requires Valid()
      modifies `cells
      ensures Valid() && Marked() == old(Marked()) + CellsOf(rect, width, height)
    {
      hide Marked, CellsOf, Grid;
      var x0, y0 := rect.x, rect.y;
      var x1 := Min(x0 + rect.width, width);
      var y1 := Min(y0 + rect.height, height);
      if x0 >= x1 || y0 >= y1 {
        OffScreen(rect, width, height);
        return;
      }
      CellsOfSpan(rect, width, height);
      NoCells(x0, y0, x1);
      for cy := y0 / CHANGE_CELL to (y1 - 1) / CHANGE_CELL + 1
        invariant Valid()
        invariant Marked() == old(Marked()) + CellSpan(x0, y0, x1, cy)
      {
        assert CellRow(x0, x0 / CHANGE_CELL, cy) == {};
        for cx := x0 / CHANGE_CELL to (x1 - 1) / CHANGE_CELL + 1
          invariant Valid()
          invariant Marked() == old(Marked()) + CellSpan(x0, y0, x1, cy) + CellRow(x0, cx, cy)
        {
          Set(cx, cy);
          NextCell(x0, cx, cy);
        }
        NextRow(x0, y0, x1, cy);
      }
    }

    /** Adds the cells in which the two rows have different pixels. */
    method CompareRow(x: nat, y: nat, before: seq<Pixel>, after: seq<Pixel>)
      requires Valid() && |before| == |after| && x + |before| <= width && y < height
      modifies `cells
      ensures Valid() && Marked() == old(Marked()) + DifferingCells(x, y, before, after)
    {
      hide Marked, DifferingCells;
      if before == after {
        NoneDiffers(x, y, before);
        return;
      }
      var end := x + |before|;
      var start := x;
      NoneDiffers(x, y, []);
      while start < end
        invariant Valid() && x <= start <= end
        invariant Marked() == old(Marked()) + DifferingCells(x, y, before[..start - x], after[..start - x])
      {
        var stop := Min((start / CHANGE_CELL + 1) * CHANGE_CELL, end);
        var a, b := start - x, stop - x;
        OneCellDiffers(x, y, before, after, a, b);
        CompareCell(start / CHANGE_CELL, y / CHANGE_CELL, before[a..b], after[a..b]);
        start := stop;
      }
      assert before[..|before|] == before && after[..|after|] == after;
    }

    /** Adds the cell when the stretches differ; a marked one stays marked. */
    method CompareCell(cx: nat, cy: nat, before: seq<Pixel>, after: seq<Pixel>)
      requires Valid() && cx < Cells(width) && cy < Cells(height)
      modifies `cells
      ensures Valid()
      ensures Marked() == old(Marked()) + (if before == after then {} else {(cx, cy)})
    {
      IndexOfCell(cx, cy, columns, Cells(height));
      var index := cy * columns + cx;
      if index < |cells| && !cells[index] {
        if before != after {
          Set(cx, cy);
        }
      } else {
        assert (cx, cy) in Grid() && cells[IndexOf(cx, cy)];
      }
    }

    /** The marked cells before this index. */
    ghost function Seen(k: nat): set<Cell>
      requires Valid()
      reads this
    {
      set c | c in Marked() && IndexOf(c.0, c.1) < k
    }

    lemma SeenNext(k: nat)
      requires Valid() && k < |cells|
      ensures columns > 0 && Col(k, columns) < Cells(width) && Row(k, columns) < Cells(height)
      ensures (Col(k, columns), Row(k, columns)) !in Seen(k)
      ensures Seen(k + 1) == if cells[k] then Seen(k) + {(Col(k, columns), Row(k, columns))} else Seen(k)
    {
      CellOfIndex(k, columns, Cells(height));
      var cell: Cell := (Col(k, columns), Row(k, columns));
      assert IndexOf(cell.0, cell.1) == k && cell in Grid();
      forall c: Cell | c in Grid() && IndexOf(c.0, c.1) == k
        ensures c == cell
      {
        IndexOfCell(c.0, c.1, columns, Cells(height));
      }
    }

    lemma SeenAll()
      requires Valid()
      ensures Seen(0) == {} && Seen(|cells|) == Marked() && InGrid(Marked(), width, height)
      ensures columns == 0 ==> Marked() == {}
    {
    }

    /** The pixels of the marked cells, or of the box around them. */
    method Area() returns (area: nat)
      requires Valid()
      ensures IsArea(area, Marked(), width, height)
    {
      hide Marked, Seen, PixelsIn, PixelsOf, Extremes, Cells, Col, Row;
      SeenAll();
      NoExtremes(width, height);
      if columns == 0 {
        return 0;
      }
      var marked, cellsArea := 0, 0;
      var left: nat, top: nat, right: nat, bottom: nat := USIZE_MAX, USIZE_MAX, 0, 0;
      for index := 0 to |cells|
        invariant marked == |Seen(index)| && cellsArea == |PixelsOf(Seen(index), width, height)|
        invariant Extremes(Seen(index), left, top, right, bottom)
      {
        SeenNext(index);
        if cells[index] {
          var cx, cy := Col(index, columns), Row(index, columns);
          OneMoreCell(Seen(index), (cx, cy), width, height);
          CellPixels((cx, cy), width, height);
          Widen(Seen(index), (cx, cy), width, height, left, top, right, bottom);
          marked := marked + 1;
          cellsArea := cellsArea + PixelsIn(cx, cy, width, height);
          left, top, right, bottom := Min(left, cx), Min(top, cy), Max(right, cx), Max(bottom, cy);
        }
      }
      ExtremesAre(Marked(), left, top, right, bottom);
      if marked == 0 {
        return 0;
      }
      area := BoxOrCells(Marked(), marked, cellsArea, Box(left, top, right, bottom), width, height);
    }
  }

  /** The running extremes of the cells seen so far. */
  ghost predicate Extremes(seen: set<Cell>, left: nat, top: nat, right: nat, bottom: nat) {
    if seen == {} then left == USIZE_MAX && top == USIZE_MAX && right == 0 && bottom == 0
    else Box(left, top, right, bottom).Around(seen)
  }

  lemma NoExtremes(width: nat, height: nat)
    ensures Extremes({}, USIZE_MAX, USIZE_MAX, 0, 0) && PixelsOf({}, width, height) == {}
  {
  }

  lemma ExtremesAre(seen: set<Cell>, left: nat, top: nat, right: nat, bottom: nat)
    requires Extremes(seen, left, top, right, bottom)
    ensures seen != {} ==> Box(left, top, right, bottom).Around(seen)
  {
  }

  lemma Widen(seen: set<Cell>, cell: Cell, width: nat, height: nat, left: nat, top: nat, right: nat, bottom: nat)
    requires Extremes(seen, left, top, right, bottom)
    requires cell.0 < Cells(width) && cell.1 < Cells(height) && width < 0x1_0000 && height < 0x1_0000
    ensures Extremes(seen + {cell}, Min(left, cell.0), Min(top, cell.1), Max(right, cell.0), Max(bottom, cell.1))
  {
    var more := seen + {cell};
    var box := Box(Min(left, cell.0), Min(top, cell.1), Max(right, cell.0), Max(bottom, cell.1));
    assert cell in more;
    if seen != {} {
      var l :| l in seen && l.0 == left;
      var r :| r in seen && r.0 == right;
      var t :| t in seen && t.1 == top;
      var b :| b in seen && b.1 == bottom;
      assert l in more && r in more && t in more && b in more;
    }
  }

  /** The larger of the two readings, the box only when a fifth of it is marked. */
  method BoxOrCells(ghost cells: set<Cell>, marked: nat, cellsArea: nat, box: Box, width: nat, height: nat)
      returns (area: nat)
    requires cells != {} && box.Around(cells) && InGrid(cells, width, height)
    requires marked == |cells| && cellsArea == |PixelsOf(cells, width, height)|
    ensures IsArea(area, cells, width, height)
  {
    assert box.left <= box.right < Cells(width) && box.top <= box.bottom < Cells(height) by {
      var r :| r in cells && r.0 == box.right;
      var b :| b in cells && b.1 == box.bottom;
    }
    BoxCard(box, width, height);
    AreaInBounds(box, cells, width, height);
    var boxCells := (box.right - box.left + 1) * (box.bottom - box.top + 1);
    if marked * 5 < boxCells {
      return cellsArea;
    }
    var boxWidth := Min((box.right + 1) * CHANGE_CELL, width) - box.left * CHANGE_CELL;
    var boxHeight := Min((box.bottom + 1) * CHANGE_CELL, height) - box.top * CHANGE_CELL;
    area := Max(cellsArea, boxWidth * boxHeight);
  }

  lemma NoneDiffers(x: nat, y: nat, row: seq<Pixel>)
    ensures DifferingCells(x, y, row, row) == {}
  {
  }

  /** The cells of rows `y0` to just above cell row `cy`. */
  ghost function CellSpan(x0: nat, y0: nat, x1: nat, cy: nat): set<Cell>
    requires x1 > 0
  {
    Span(x0 / CHANGE_CELL, y0 / CHANGE_CELL, (x1 - 1) / CHANGE_CELL + 1, cy)
  }

  ghost function CellRow(x0: nat, cx: nat, cy: nat): set<Cell> {
    Span(x0 / CHANGE_CELL, cy, cx, cy + 1)
  }

  lemma NoCells(x0: nat, y0: nat, x1: nat)
    requires x1 > 0
    ensures CellSpan(x0, y0, x1, y0 / CHANGE_CELL) == {}
  {
  }

  lemma NextCell(x0: nat, cx: nat, cy: nat)
    requires x0 / CHANGE_CELL <= cx
    ensures CellRow(x0, cx + 1, cy) == CellRow(x0, cx, cy) + {(cx, cy)}
  {
  }

  lemma NextRow(x0: nat, y0: nat, x1: nat, cy: nat)
    requires x1 > 0 && y0 / CHANGE_CELL <= cy
    ensures CellSpan(x0, y0, x1, cy + 1) ==
      CellSpan(x0, y0, x1, cy) + CellRow(x0, (x1 - 1) / CHANGE_CELL + 1, cy)
  {
  }

  lemma OffScreen(rect: Rect, width: nat, height: nat)
    requires rect.x >= Min(rect.x + rect.width, width) || rect.y >= Min(rect.y + rect.height, height)
    ensures CellsOf(rect, width, height) == {}
  {
  }

  lemma CellsOfSpan(rect: Rect, width: nat, height: nat)
    requires rect.x < Min(rect.x + rect.width, width) && rect.y < Min(rect.y + rect.height, height)
    ensures var x1, y1 := Min(rect.x + rect.width, width), Min(rect.y + rect.height, height);
            CellsOf(rect, width, height) == CellSpan(rect.x, rect.y, x1, (y1 - 1) / CHANGE_CELL + 1)
  {
    var x1, y1 := Min(rect.x + rect.width, width), Min(rect.y + rect.height, height);
    forall c: Cell | c in CellSpan(rect.x, rect.y, x1, (y1 - 1) / CHANGE_CELL + 1)
      ensures c in CellsOf(rect, width, height)
    {
      var p: (nat, nat) := (Max(rect.x, c.0 * CHANGE_CELL), Max(rect.y, c.1 * CHANGE_CELL));
      assert p in Span(0, 0, width, height) && rect.Has(p.0, p.1) && CellAt(p.0, p.1) == c;
    }
  }

  /** A stretch within one cell marks that cell, or nothing. */
  lemma OneCellDiffers(x: nat, y: nat, before: seq<Pixel>, after: seq<Pixel>, a: nat, b: nat)
    requires |before| == |after| && a < b <= |before|
    requires (x + a) / CHANGE_CELL == (x + b - 1) / CHANGE_CELL
    ensures DifferingCells(x, y, before[..b], after[..b]) ==
      DifferingCells(x, y, before[..a], after[..a]) +
      (if before[a..b] == after[a..b] then {} else {CellAt(x + a, y)})
  {
    if before[a..b] == after[a..b] {
      forall k | a <= k < b
        ensures before[k] == after[k]
      {
        assert before[k] == before[a..b][k - a] && after[k] == after[a..b][k - a];
      }
    } else {
      var k :| 0 <= k < b - a && before[a..b][k] != after[a..b][k];
      assert before[..b][a + k] != after[..b][a + k];
      assert CellAt(x + (a + k), y) in DifferingCells(x, y, before[..b], after[..b]);
    }
    assert forall k :: 0 <= k < b && k >= a && before[..b][k] != after[..b][k] ==> CellAt(x + k, y) == CellAt(x + a, y);
    forall k | 0 <= k < a && before[..a][k] != after[..a][k]
      ensures CellAt(x + k, y) in DifferingCells(x, y, before[..b], after[..b])
    {
      assert before[..b][k] != after[..b][k];
    }
  }
}
