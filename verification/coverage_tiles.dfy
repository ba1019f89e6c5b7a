/** One tile of the coverage grid: its state and bitmask refine what the history
    of marks says about its pixels, and every mark keeps that so. */
module CoverageTiles {
  import opened Bitmask
  import opened CoverageMarks
  import opened Geometry

  /** The tile's rectangle, as far as the screen goes. */
  function TileBounds(width: u16, height: u16, col: nat, row: nat): Rect
    requires col < Tiles(width) && row < Tiles(height)
  {
    Rect(col * TILE, row * TILE, Min(width - col * TILE, TILE), Min(height - row * TILE, TILE))
  }

  /** The bit of the pixel `u` columns and `v` rows into the tile. */
  predicate BitAt(mask: Mask, u: int, v: int)
    requires 0 <= u < TILE && 0 <= v < TILE
  {
    HasBit(mask, v * TILE + u)
  }

  predicate HasPixel(mask: Mask, x: nat, y: nat) {
    BitAt(mask, x % TILE, y % TILE)
  }

  /** The mask holds exactly the tile's covered pixels. */
  ghost predicate MaskOk(marks: seq<Mark>, width: u16, height: u16, mask: Mask, col: nat, row: nat) {
    forall x: nat, y: nat :: InTile(width, height, col, row, x, y) ==>
      (HasPixel(mask, x, y) <==> CoveredBy(marks, width, height, x, y))
  }

  ghost predicate TileOk(marks: seq<Mark>, width: u16, height: u16, state: TileState, mask: Mask, col: nat, row: nat) {
    && state == StateOf(marks, width, height, col, row)
    && (state != Written ==> MaskOk(marks, width, height, mask, col, row))
  }

  lemma BoundsArePixels(width: u16, height: u16, col: nat, row: nat, x: nat, y: nat)
    requires col < Tiles(width) && row < Tiles(height)
    ensures TileBounds(width, height, col, row).Has(x, y) <==> InTile(width, height, col, row, x, y)
  {
  }

  /** What a write mark adds to one tile is its overlap with the tile. */
  lemma PartIsWrites(rect: Rect, width: u16, height: u16, col: nat, row: nat, x: nat, y: nat)
    requires col < Tiles(width) && row < Tiles(height) && InTile(width, height, col, row, x, y)
    ensures Intersect(rect, TileBounds(width, height, col, row)).Has(x, y) <==> Writes(rect, x, y)
  {
    IntersectExact(rect, TileBounds(width, height, col, row));
    BoundsArePixels(width, height, col, row, x, y);
  }

  lemma FreshTileOk(width: u16, height: u16, col: nat, row: nat)
    requires col < Tiles(width) && row < Tiles(height)
    ensures TileOk([], width, height, NeverWritten, NO_BITS, col, row)
  {
    assert InTile(width, height, col, row, col * TILE, row * TILE);
    forall x: nat, y: nat | InTile(width, height, col, row, x, y)
      ensures !HasPixel(NO_BITS, x, y) && !CoveredBy([], width, height, x, y)
    {
      NoBitsIsEmpty((y % TILE) * TILE + x % TILE);
    }
  }

  /** A tile the mark does not touch stays as it was. */
  lemma OtherTileOk(marks: seq<Mark>, mark: Mark, width: u16, height: u16, state: TileState, mask: Mask,
                    col: nat, row: nat)
    requires TileOk(marks, width, height, state, mask, col, row)
    requires !Touches(mark.rect, width, height, col, row)
    ensures TileOk(marks + [mark], width, height, state, mask, col, row)
  {
    UntouchedTile(marks, mark, width, height, col, row);
  }

  lemma StaleTileOk(marks: seq<Mark>, rect: Rect, width: u16, height: u16, col: nat, row: nat)
    requires col < Tiles(width) && row < Tiles(height) && Touches(rect, width, height, col, row)
    ensures TileOk(marks + [StaleMark(rect)], width, height, Stale, NO_BITS, col, row)
  {
    var more := marks + [StaleMark(rect)];
    forall x: nat, y: nat | InTile(width, height, col, row, x, y)
      ensures !HasPixel(NO_BITS, x, y) && !CoveredBy(more, width, height, x, y)
    {
      NoBitsIsEmpty((y % TILE) * TILE + x % TILE);
      OneMoreMark(marks, StaleMark(rect), width, height, x, y);
    }
    assert InTile(width, height, col, row, col * TILE, row * TILE);
    OneMoreStale(marks, StaleMark(rect), width, height, col, row);
  }

  /** A written tile stays written. */
  lemma StillWritten(marks: seq<Mark>, rect: Rect, width: u16, height: u16, mask: Mask, col: nat, row: nat)
    requires TileOk(marks, width, height, Written, mask, col, row)
    ensures TileOk(marks + [WriteMark(rect)], width, height, Written, mask, col, row)
  {
    forall x: nat, y: nat | InTile(width, height, col, row, x, y)
      ensures CoveredBy(marks + [WriteMark(rect)], width, height, x, y)
    {
      OneMoreMark(marks, WriteMark(rect), width, height, x, y);
    }
  }

  /** A rectangle that covers the whole tile writes it. */
  lemma WholeTileOk(marks: seq<Mark>, rect: Rect, width: u16, height: u16, col: nat, row: nat)
    requires col < Tiles(width) && row < Tiles(height)
    requires Intersect(rect, TileBounds(width, height, col, row)) == TileBounds(width, height, col, row)
    ensures TileOk(marks + [WriteMark(rect)], width, height, Written, NO_BITS, col, row)
  {
    forall x: nat, y: nat | InTile(width, height, col, row, x, y)
      ensures CoveredBy(marks + [WriteMark(rect)], width, height, x, y)
    {
      BoundsArePixels(width, height, col, row, x, y);
      PartIsWrites(rect, width, height, col, row, x, y);
      OneMoreMark(marks, WriteMark(rect), width, height, x, y);
    }
  }

  /** The mask after adding the overlap. */
  ghost predicate PartAdded(width: u16, height: u16, before: Mask, after: Mask, part: Rect, col: nat, row: nat) {
    forall x: nat, y: nat :: InTile(width, height, col, row, x, y) ==>
      (HasPixel(after, x, y) <==> part.Has(x, y) || HasPixel(before, x, y))
  }

  ghost predicate AllBits(width: u16, height: u16, mask: Mask, col: nat, row: nat) {
    forall x: nat, y: nat :: InTile(width, height, col, row, x, y) ==> HasPixel(mask, x, y)
  }

  lemma PartTileOk(marks: seq<Mark>, rect: Rect, width: u16, height: u16, state: TileState,
                   before: Mask, after: Mask, col: nat, row: nat)
    requires col < Tiles(width) && row < Tiles(height)
    requires TileOk(marks, width, height, state, before, col, row) && state != Written
    requires PartAdded(width, height, before, after, Intersect(rect, TileBounds(width, height, col, row)), col, row)
    ensures AllBits(width, height, after, col, row) ==>
      TileOk(marks + [WriteMark(rect)], width, height, Written, NO_BITS, col, row)
    ensures !AllBits(width, height, after, col, row) ==>
      TileOk(marks + [WriteMark(rect)], width, height, state, after, col, row)
  {
    var more := marks + [WriteMark(rect)];
    forall x: nat, y: nat | InTile(width, height, col, row, x, y)
      ensures HasPixel(after, x, y) <==> CoveredBy(more, width, height, x, y)
    {
      PartIsWrites(rect, width, height, col, row, x, y);
      OneMoreMark(marks, WriteMark(rect), width, height, x, y);
    }
    assert MaskOk(more, width, height, after, col, row);
    OneMoreStale(marks, WriteMark(rect), width, height, col, row);
  }

  /** A rectangle whose far edge wraps overlaps nothing and adds nothing. */
  lemma NoPartTileOk(marks: seq<Mark>, rect: Rect, width: u16, height: u16, state: TileState, mask: Mask,
                     col: nat, row: nat)
    requires col < Tiles(width) && row < Tiles(height)
    requires TileOk(marks, width, height, state, mask, col, row) && state != Written
    requires Intersect(rect, TileBounds(width, height, col, row)).IsEmpty()
    ensures TileOk(marks + [WriteMark(rect)], width, height, state, mask, col, row)
  {
    PartTileOk(marks, rect, width, height, state, mask, mask, col, row);
  }

  lemma PixelInTile(width: u16, height: u16, col: nat, row: nat, x: nat, y: nat)
    requires col < Tiles(width) && row < Tiles(height) && InTile(width, height, col, row, x, y)
    ensures var tile := TileBounds(width, height, col, row);
            && tile.x + x % TILE == x && x % TILE < tile.width
            && tile.y + y % TILE == y && y % TILE < tile.height
  {
  }

  lemma PixelFromTile(width: u16, height: u16, col: nat, row: nat, u: nat, v: nat)
    requires col < Tiles(width) && row < Tiles(height)
    requires u < TileBounds(width, height, col, row).width && v < TileBounds(width, height, col, row).height
    ensures u < TILE && v < TILE
    ensures InTile(width, height, col, row, col * TILE + u, row * TILE + v)
    ensures (col * TILE + u) % TILE == u && (row * TILE + v) % TILE == v
  {
  }

  /** Every bit of the tile's mask is every pixel of the tile. */
  lemma BitsOfTile(width: u16, height: u16, mask: Mask, col: nat, row: nat)
    requires col < Tiles(width) && row < Tiles(height)
    ensures var tile := TileBounds(width, height, col, row);
            AllBits(width, height, mask, col, row) <==>
            forall u, v :: 0 <= u < tile.width && 0 <= v < tile.height ==> BitAt(mask, u, v)
  {
    hide BitAt;
    var tile := TileBounds(width, height, col, row);
    if AllBits(width, height, mask, col, row) {
      forall u, v | 0 <= u < tile.width && 0 <= v < tile.height
        ensures BitAt(mask, u, v)
      {
        PixelFromTile(width, height, col, row, u, v);
        assert HasPixel(mask, col * TILE + u, row * TILE + v);
      }
    }
    if forall u, v :: 0 <= u < tile.width && 0 <= v < tile.height ==> BitAt(mask, u, v) {
      forall x: nat, y: nat | InTile(width, height, col, row, x, y)
        ensures HasPixel(mask, x, y)
      {
        PixelInTile(width, height, col, row, x, y);
      }
    }
  }
}
