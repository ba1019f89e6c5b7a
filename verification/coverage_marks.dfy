/** What a history of coverage marks says about every pixel and every tile:
    the meaning of the grid in crates/agent-perception/src/coverage.rs. */
module CoverageMarks {
  import opened Geometry

  const TILE := 16

  datatype TileState = NeverWritten | Written | Stale

  datatype Mark = WriteMark(rect: Rect) | StaleMark(rect: Rect)

  /** How many tiles span `n` pixels. */
  function Tiles(n: nat): nat {
    (n + TILE - 1) / TILE
  }

  /** The first tile with a pixel of the stretch, and the one past the last. */
  function Touched(start: u16, len: u16, limit: u16): (range: (nat, nat))
    ensures range.0 <= range.1 <= Tiles(limit)
  {
    if len == 0 || start >= limit then (0, 0)
    else
      var end := Min(Min(start + len, 0xFFFF), limit);
      (start / TILE, Tiles(end))
  }

  /** A tile is in the touched range exactly when it holds a touched pixel. */
  lemma TouchedExactly(start: u16, len: u16, limit: u16, t: nat)
    ensures Touched(start, len, limit).0 <= t < Touched(start, len, limit).1 <==>
      Max(start, t * TILE) < Min(Min(start + len, limit), t * TILE + TILE)
  {
  }

  lemma TouchedPixel(start: u16, len: u16, limit: u16, p: nat)
    requires start <= p < start + len && p < limit
    ensures Touched(start, len, limit).0 <= p / TILE < Touched(start, len, limit).1
  {
  }

  predicate Touches(rect: Rect, width: u16, height: u16, col: nat, row: nat) {
    && Touched(rect.x, rect.width, width).0 <= col < Touched(rect.x, rect.width, width).1
    && Touched(rect.y, rect.height, height).0 <= row < Touched(rect.y, rect.height, height).1
  }

  /** Pixels of this tile that are on the screen. */
  predicate InTile(width: u16, height: u16, col: nat, row: nat, x: nat, y: nat) {
    x < width && y < height && x / TILE == col && y / TILE == row
  }

  /** `rect` writes this pixel; one whose far edge wraps writes none. */
  predicate Writes(rect: Rect, x: nat, y: nat) {
    rect.Fits() && rect.Has(x, y)
  }

  /** Written since the last stale mark that touched the pixel's tile. */
  predicate CoveredBy(marks: seq<Mark>, width: u16, height: u16, x: nat, y: nat) {
    if marks == [] then false
    else
      var last, before := marks[|marks| - 1], marks[..|marks| - 1];
      match last
      case WriteMark(rect) => Writes(rect, x, y) || CoveredBy(before, width, height, x, y)
      case StaleMark(rect) =>
        !Touches(rect, width, height, x / TILE, y / TILE) && CoveredBy(before, width, height, x, y)
  }

  /** The `i`-th mark writes the pixel, and no stale mark after it touches the
      pixel's tile. */
  predicate SurvivingWrite(marks: seq<Mark>, width: u16, height: u16, x: nat, y: nat, i: nat) {
    && i < |marks|
    && marks[i].WriteMark? && Writes(marks[i].rect, x, y)
    && (forall j :: i < j < |marks| && marks[j].StaleMark? ==>
          !Touches(marks[j].rect, width, height, x / TILE, y / TILE))
  }

  /** The same, read off the history directly. */
  lemma {:induction false} CoveredMeans(marks: seq<Mark>, width: u16, height: u16, x: nat, y: nat)
    ensures CoveredBy(marks, width, height, x, y) <==>
      exists i: nat :: SurvivingWrite(marks, width, height, x, y, i)
  {
    if marks != [] {
      var n := |marks| - 1;
      var before := marks[..n];
      CoveredMeans(before, width, height, x, y);
      if CoveredBy(marks, width, height, x, y) {
        if marks[n].WriteMark? && Writes(marks[n].rect, x, y) {
          assert SurvivingWrite(marks, width, height, x, y, n);
        } else {
          var i: nat :| SurvivingWrite(before, width, height, x, y, i);
          assert SurvivingWrite(marks, width, height, x, y, i);
        }
      }
      forall i: nat | SurvivingWrite(marks, width, height, x, y, i)
        ensures CoveredBy(marks, width, height, x, y)
      {
        if i < n {
          assert SurvivingWrite(before, width, height, x, y, i);
        }
      }
    }
  }

  /** Every pixel of the tile that is on the screen is covered. */
  ghost predicate FullyCovered(marks: seq<Mark>, width: u16, height: u16, col: nat, row: nat) {
    forall x, y :: InTile(width, height, col, row, x, y) ==> CoveredBy(marks, width, height, x, y)
  }

  predicate EverStale(marks: seq<Mark>, width: u16, height: u16, col: nat, row: nat) {
    exists i :: 0 <= i < |marks| && marks[i].StaleMark? && Touches(marks[i].rect, width, height, col, row)
  }

  /** What a tile is worth after this history. */
  ghost function StateOf(marks: seq<Mark>, width: u16, height: u16, col: nat, row: nat): TileState {
    if FullyCovered(marks, width, height, col, row) then Written
    else if EverStale(marks, width, height, col, row) then Stale
    else NeverWritten
  }

  // ---------------------------------------------------------------- one more mark

  lemma OneMoreMark(marks: seq<Mark>, mark: Mark, width: u16, height: u16, x: nat, y: nat)
    ensures CoveredBy(marks + [mark], width, height, x, y) <==>
      if mark.WriteMark? then Writes(mark.rect, x, y) || CoveredBy(marks, width, height, x, y)
      else !Touches(mark.rect, width, height, x / TILE, y / TILE) && CoveredBy(marks, width, height, x, y)
  {
    assert (marks + [mark])[..|marks|] == marks;
  }

  lemma OneMoreStale(marks: seq<Mark>, mark: Mark, width: u16, height: u16, col: nat, row: nat)
    ensures EverStale(marks + [mark], width, height, col, row) <==>
      || EverStale(marks, width, height, col, row)
      || (mark.StaleMark? && Touches(mark.rect, width, height, col, row))
  {
    var more := marks + [mark];
    if EverStale(marks, width, height, col, row) {
      var i :| 0 <= i < |marks| && marks[i].StaleMark? && Touches(marks[i].rect, width, height, col, row);
      assert more[i].StaleMark? && Touches(more[i].rect, width, height, col, row);
    }
    if mark.StaleMark? && Touches(mark.rect, width, height, col, row) {
      assert more[|marks|].StaleMark?;
    }
  }

  /** A pixel a rectangle writes lies in a tile the rectangle touches. */
  lemma WritesTouches(rect: Rect, width: u16, height: u16, x: nat, y: nat)
    requires rect.Has(x, y) && x < width && y < height
    ensures Touches(rect, width, height, x / TILE, y / TILE)
  {
    TouchedPixel(rect.x, rect.width, width, x);
    TouchedPixel(rect.y, rect.height, height, y);
  }

  /** A mark leaves every tile it does not touch alone. */
  lemma UntouchedTile(marks: seq<Mark>, mark: Mark, width: u16, height: u16, col: nat, row: nat)
    requires !Touches(mark.rect, width, height, col, row)
    ensures forall x, y :: InTile(width, height, col, row, x, y) ==>
      (CoveredBy(marks + [mark], width, height, x, y) <==> CoveredBy(marks, width, height, x, y))
    ensures StateOf(marks + [mark], width, height, col, row) == StateOf(marks, width, height, col, row)
  {
    forall x, y | InTile(width, height, col, row, x, y)
      ensures CoveredBy(marks + [mark], width, height, x, y) <==> CoveredBy(marks, width, height, x, y)
    {
      OneMoreMark(marks, mark, width, height, x, y);
      if Writes(mark.rect, x, y) {
        WritesTouches(mark.rect, width, height, x, y);
      }
    }
    OneMoreStale(marks, mark, width, height, col, row);
  }
}
