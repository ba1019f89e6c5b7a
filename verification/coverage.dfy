/** The coverage grid beside the mirror's pixels
    (crates/agent-perception/src/coverage.rs). The ghost field `marks` is the
    history since the last reset; `Valid` says every tile and every bit means
    what that history means. */
module Coverages {
  import opened Bitmask
  import opened CoverageMarks
  import opened CoverageTiles
  import opened Geometry
  import opened Grids
  import opened OneTiling
  import opened RegionCounts
  import opened StaleTilings
  import opened Wrappers

  datatype TooManyStaleRegions = TooManyStaleRegions(limit: nat)

  class Coverage {
    var width: u16
    var height: u16
    var cols: nat
    var tiles: seq<TileState>
    /** One bit per pixel composited so far, for tiles not yet written. */
    var partly: map<nat, Mask>
    ghost var marks: seq<Mark>

    function MaskAt(i: nat): Mask
      reads `partly
    {
      if i in partly then partly[i] else NO_BITS
    }

    ghost predicate TileAt(history: seq<Mark>, i: nat)
      requires cols > 0 && i < |tiles|
      reads `width, `height, `cols, `tiles, `partly
    {
      TileOk(history, width, height, tiles[i], MaskAt(i), Col(i, cols), Row(i, cols))
    }

    ghost predicate Shape()
      reads `width, `height, `cols, `tiles, `partly
    {
      && cols == Tiles(width)
      && |tiles| == cols * Tiles(height)
      && (|tiles| > 0 ==> cols > 0)
      && (forall i :: i in partly ==> i < |tiles| && tiles[i] != Written)
    }

    ghost predicate Valid()
      reads this
    {
      Shape() && forall i :: 0 <= i < |tiles| ==> TileAt(marks, i)
    }

    constructor (width: u16, height: u16)
      ensures Valid() && this.width == width && this.height == height && marks == []
    {
      this.width := width;
      this.height := height;
      cols := Tiles(width);
      tiles := seq(Tiles(width) * Tiles(height), _ => NeverWritten);
      partly := map[];
      marks := [];
      new;
      FreshIsValid();
    }

    /** A grid of this size with no history. */
    method Reset(width: u16, height: u16)
      modifies this
      ensures Valid() && this.width == width && this.height == height && marks == []
    {
      this.width := width;
      this.height := height;
      cols := Tiles(width);
      tiles := seq(Tiles(width) * Tiles(height), _ => NeverWritten);
      partly := map[];
      marks := [];
      FreshIsValid();
    }

    lemma FreshIsValid()
      requires cols == Tiles(width) && partly == map[] && marks == []
      requires tiles == seq(Tiles(width) * Tiles(height), _ => NeverWritten)
      ensures Valid()
    {
      forall i | 0 <= i < |tiles|
        ensures cols > 0 && TileAt(marks, i)
      {
        CellOfIndex(i, cols, Tiles(height));
        FreshTileOk(width, height, Col(i, cols), Row(i, cols));
      }
    }

    /** The mask of a tile united with one more part of it; `whole` when no pixel
        of the tile on the screen is missing. */
    method FillTile(i: nat, tile: Rect, part: Rect, ghost col: nat, ghost row: nat) returns (whole: bool)
      requires col < Tiles(width) && row < Tiles(height) && tile == TileBounds(width, height, col, row)
      requires part.IsEmpty() || part.Within(tile)
      modifies this`partly
      ensures part.IsEmpty() ==> !whole && partly == old(partly)
      ensures !part.IsEmpty() ==>
        && i in partly && partly == old(partly)[i := partly[i]]
        && PartAdded(width, height, old(MaskAt(i)), partly[i], part, col, row)
        && (whole <==> AllBits(width, height, partly[i], col, row))
    {
      if part.IsEmpty() {
        return false;
      }
      var mask := AddPart(MaskAt(i), tile, part);
      partly := partly[i := mask];
      forall x: nat, y: nat | InTile(width, height, col, row, x, y)
        ensures HasPixel(mask, x, y) <==> part.Has(x, y) || HasPixel(old(MaskAt(i)), x, y)
      {
        PixelInTile(width, height, col, row, x, y);
        assert part.Has(x, y) <==> part.Has(tile.x + x % TILE, tile.y + y % TILE);
      }
      whole := HasAll(mask, tile.width, tile.height);
      BitsOfTile(width, height, mask, col, row);
    }

    /** The history after one more mark. */
    static function Extended(history: seq<Mark>, rect: Rect, state: TileState): seq<Mark> {
      history + [if state == Written then WriteMark(rect) else StaleMark(rect)]
    }

    /** One write mark more. */
    method MarkWritten(rect: Rect)
      requires Valid()
      modifies this
      ensures Valid() && width == old(width) && height == old(height)
      ensures marks == old(marks) + [WriteMark(rect)]
    {
      Mark(rect, Written);
    }

    /** One stale mark more. */
    method MarkStale(rect: Rect)
      requires Valid()
      modifies this
      ensures Valid() && width == old(width) && height == old(height)
      ensures marks == old(marks) + [StaleMark(rect)]
    {
      Mark(rect, Stale);
    }

    method Mark(rect: Rect, state: TileState)
      requires Valid() && state != NeverWritten
      modifies this
      ensures Valid() && width == old(width) && height == old(height)
      ensures marks == Extended(old(marks), rect, state)
    {
      var (c0, c1) := Touched(rect.x, rect.width, width);
      var (r0, r1) := Touched(rect.y, rect.height, height);
      ghost var history := marks;
      StartMarking(rect, state, r0, c0);
      for row := r0 to r1
        invariant Shape() && width == old(width) && height == old(height) && marks == history
        invariant Marking(history, rect, state, row, c0)
      {
        for col := c0 to c1
          invariant Shape() && width == old(width) && height == old(height) && marks == history
          invariant Marking(history, rect, state, row, col)
        {
          MarkTile(rect, state, col, row);
        }
        NextRow(history, rect, state, row, c0, c1);
      }
      EndMarking(history, rect, state, r1, c0);
      marks := Extended(history, rect, state);
    }

    /** One turn of the loop. */
    method MarkTile(rect: Rect, state: TileState, col: nat, row: nat)
      requires Shape() && state != NeverWritten && Touches(rect, width, height, col, row)
      requires Marking(marks, rect, state, row, col)
      modifies this
      ensures Shape() && Marking(marks, rect, state, row, col + 1)
      ensures width == old(width) && height == old(height) && marks == old(marks)
    {
      hide TileOk, Touched;
      IndexOfCell(col, row, cols, Tiles(height));
      var i := Index(col, row);
      assert MarkingAt(marks, rect, state, row, col, i);
      var done := true;
      if state == Written {
        done := WriteTile(rect, col, row, i);
      } else {
        StaleTileOk(marks, rect, width, height, col, row);
      }
      if done {
        partly := partly - {i};
        tiles := tiles[i := state];
      }
      assert TileAt(Extended(marks, rect, state), i);
      ghost var next := col + 1;
      forall j | 0 <= j < |tiles|
        ensures MarkingAt(marks, rect, state, row, next, j)
      {
        CellOfIndex(j, cols, Tiles(height));
        if j != i {
          assert Reached(rect, j, row, next) == Reached(rect, j, row, col);
          assert old(MarkingAt(marks, rect, state, row, col, j));
          assert tiles[j] == old(tiles[j]) && MaskAt(j) == old(MaskAt(j));
        }
      }
    }

    /** A write reaches one tile: is the tile to become written now? */
    method WriteTile(rect: Rect, col: nat, row: nat, i: nat) returns (done: bool)
      requires Shape() && Touches(rect, width, height, col, row)
      requires i < |tiles| && Col(i, cols) == col && Row(i, cols) == row && TileAt(marks, i)
      modifies `partly
      ensures forall j :: j in partly ==> j < |tiles| && (tiles[j] != Written || done)
      ensures forall j: nat :: j != i ==> MaskAt(j) == old(MaskAt(j))
      ensures forall j :: j != i && j in partly ==> j in old(partly)
      ensures done ==> TileOk(marks + [WriteMark(rect)], width, height, Written, NO_BITS, col, row)
      ensures !done ==> TileOk(marks + [WriteMark(rect)], width, height, tiles[i], MaskAt(i), col, row)
    {
      hide TileOk, PartAdded, AllBits;
      if tiles[i] == Written {
        StillWritten(marks, rect, width, height, MaskAt(i), col, row);
        return false;
      }
      CellOfIndex(i, cols, Tiles(height));
      var tile := TileBounds(width, height, col, row);
      var part := Intersect(rect, tile);
      IntersectExact(rect, tile);
      ghost var before := MaskAt(i);
      if part == tile {
        WholeTileOk(marks, rect, width, height, col, row);
        return true;
      }
      done := FillTile(i, tile, part, col, row);
      if part.IsEmpty() {
        NoPartTileOk(marks, rect, width, height, tiles[i], before, col, row);
      } else {
        PartTileOk(marks, rect, width, height, tiles[i], before, MaskAt(i), col, row);
      }
    }

    lemma StartMarking(rect: Rect, state: TileState, r0: nat, c0: nat)
      requires Valid()
      requires r0 == Touched(rect.y, rect.height, height).0 && c0 == Touched(rect.x, rect.width, width).0
      ensures Marking(marks, rect, state, r0, c0)
    {
      forall i | 0 <= i < |tiles|
        ensures MarkingAt(marks, rect, state, r0, c0, i)
      {
        assert TileAt(marks, i);
        if !Touches(rect, width, height, Col(i, cols), Row(i, cols)) {
          OtherTileOk(marks, if state == Written then WriteMark(rect) else StaleMark(rect),
                      width, height, tiles[i], MaskAt(i), Col(i, cols), Row(i, cols));
        }
      }
    }

    /** The end of one row is the start of the next. */
    lemma NextRow(history: seq<Mark>, rect: Rect, state: TileState, row: nat, c0: nat, c1: nat)
      requires Shape() && (c0, c1) == Touched(rect.x, rect.width, width)
      requires Marking(history, rect, state, row, c1)
      ensures Marking(history, rect, state, row + 1, c0)
    {
      hide TileOk;
      var next := row + 1;
      forall i | 0 <= i < |tiles|
        ensures MarkingAt(history, rect, state, next, c0, i)
      {
        assert MarkingAt(history, rect, state, row, c1, i);
        assert Reached(rect, i, next, c0) == Reached(rect, i, row, c1);
      }
    }

    lemma EndMarking(history: seq<Mark>, rect: Rect, state: TileState, r1: nat, c0: nat)
      requires Shape() && r1 == Touched(rect.y, rect.height, height).1
      requires Marking(history, rect, state, r1, c0)
      ensures forall i :: 0 <= i < |tiles| ==> TileAt(Extended(history, rect, state), i)
    {
      hide TileOk;
      forall i | 0 <= i < |tiles|
        ensures TileAt(Extended(history, rect, state), i)
      {
        assert MarkingAt(history, rect, state, r1, c0, i);
        assert Reached(rect, i, r1, c0);
      }
    }

    /** The loop has reached this tile: every tile before it in the touched range
        accounts for the new mark. */
    ghost predicate Marking(history: seq<Mark>, rect: Rect, state: TileState, row: nat, col: nat)
      requires Shape()
      reads `width, `height, `cols, `tiles, `partly
    {
      forall i :: 0 <= i < |tiles| ==> MarkingAt(history, rect, state, row, col, i)
    }

    ghost predicate MarkingAt(history: seq<Mark>, rect: Rect, state: TileState, row: nat, col: nat, i: nat)
      requires Shape() && i < |tiles|
      reads `width, `height, `cols, `tiles, `partly
    {
      if Reached(rect, i, row, col) then TileAt(Extended(history, rect, state), i) else TileAt(history, i)
    }

    /** The tile is untouched, or before this one in row-major order. */
    ghost predicate Reached(rect: Rect, i: nat, row: nat, col: nat)
      requires cols > 0
      reads `width, `height, `cols
    {
      || !Touches(rect, width, height, Col(i, cols), Row(i, cols))
      || Row(i, cols) < row
      || (Row(i, cols) == row && Col(i, cols) < col)
    }

    // ---------------------------------------------------------------- reading the grid

    function Index(col: nat, row: nat): nat
      reads `cols
    {
      row * cols + col
    }

    lemma IndexUnfolds(col: nat, row: nat)
      ensures Index(col, row) == row * cols + col
    {
    }

    /** A tile's state is what the history says of it. */
    lemma TileMeans(col: nat, row: nat)
      requires Valid() && col < cols && row < Tiles(height)
      ensures Index(col, row) < |tiles| && tiles[Index(col, row)] == StateOf(marks, width, height, col, row)
    {
      IndexOfCell(col, row, cols, Tiles(height));
      assert TileAt(marks, row * cols + col);
    }

    ghost function SceneOf(region: Rect): Scene
      reads `marks, `width, `height
    {
      Scene(marks, width, height, region)
    }

    /** How many tiles the region touches, and how many of them are in each bad
        state. */
    method StateOfRegion(region: Rect) returns (out: RegionState)
      requires Valid()
      ensures out.tiles == |TouchedTiles(SceneOf(region))|
      ensures out.neverWritten == |InState(SceneOf(region), NeverWritten)|
      ensures out.stale == |InState(SceneOf(region), Stale)|
      ensures out.IsComplete() <==> AllWritten(SceneOf(region))
    {
      hide Index, TileAt, Passed, Counted;
      ghost var scene := SceneOf(region);
      var (c0, c1) := Touched(region.x, region.width, width);
      var (r0, r1) := Touched(region.y, region.height, height);
      out := RegionState(0, 0, 0);
      CountNothing(scene, r0, c0);
      for row := r0 to r1
        invariant Counted(scene, row, c0, out)
      {
        for col := c0 to c1
          invariant Counted(scene, row, col, out)
        {
          TileMeans(col, row);
          CountOne(scene, row, col, out);
          out := out.Add(tiles[Index(col, row)]);
        }
        CountedRow(scene, row, c0, c1, out);
      }
      CountedAll(scene, r1, c0, out);
    }

    /** A copy carries the staleness of its source with it. */
    method MarkCopied(src: Rect, dst: Rect)
      requires Valid()
      modifies this
      ensures Valid() && width == old(width) && height == old(height)
      ensures marks == old(marks) + [if old(AllWritten(SceneOf(src))) then WriteMark(dst) else StaleMark(dst)]
    {
      var state := StateOfRegion(src);
      if state.IsComplete() {
        MarkWritten(dst);
      } else {
        MarkStale(dst);
      }
    }

    /** No tile is in its first state. */
    method IsPrimed() returns (primed: bool)
      requires Valid()
      ensures primed <==> forall c: nat, r: nat :: c < Tiles(width) && r < Tiles(height) ==>
        StateOf(marks, width, height, c, r) != NeverWritten
    {
      hide Index, TileAt, StateOf;
      primed := NeverWritten !in tiles;
      if primed {
        forall c: nat, r: nat | c < Tiles(width) && r < Tiles(height)
          ensures StateOf(marks, width, height, c, r) != NeverWritten
        {
          TileMeans(c, r);
          assert tiles[Index(c, r)] in tiles;
        }
      } else {
        var i :| 0 <= i < |tiles| && tiles[i] == NeverWritten;
        CellOfIndex(i, cols, Tiles(height));
        assert Index(Col(i, cols), Row(i, cols)) == i by {
          IndexUnfolds(Col(i, cols), Row(i, cols));
        }
        TileMeans(Col(i, cols), Row(i, cols));
      }
    }

    /** The one tiling of the touched tiles that are not written, or a refusal
        exactly when that has more rectangles than the limit. */
    method StaleRegions(region: Rect) returns (result: Result<seq<StaleRegion>, TooManyStaleRegions>)
      requires Valid()
      ensures result.Err? <==> TooManyToList(SceneOf(region))
      ensures result.Ok? ==> result.value == StaleList(SceneOf(region))
      ensures result.Err? ==> result.error.limit == MAX_STALE_REGIONS
    {
      hide Index, TileAt, ListedUpTo, Tiling, StateOf;
      ghost var scene := SceneOf(region);
      var (c0, c1) := Touched(region.x, region.width, width);
      var (r0, r1) := Touched(region.y, region.height, height);
      var out: seq<StaleRegion> := [];
      ghost var blocks: seq<Block> := [];
      NoRowListed(scene, r0, c0);
      for row := r0 to r1
        invariant |blocks| == |out| <= MAX_STALE_REGIONS && ListedUpTo(scene, row, c0, out, blocks)
      {
        var col := c0;
        while col < c1
          invariant c0 <= col <= c1
          invariant |blocks| == |out| <= MAX_STALE_REGIONS && ListedUpTo(scene, row, col, out, blocks)
        {
          TileMeans(col, row);
          if tiles[Index(col, row)] == Written {
            WrittenSkipped(scene, row, col, out, blocks);
            col := col + 1;
            continue;
          }
          var full;
          col, out, full, blocks := ListRun(region, row, col, c1, out, blocks);
          if full {
            FullList(scene, row, col, blocks);
            return Err(TooManyStaleRegions(MAX_STALE_REGIONS));
          }
        }
        RowListed(scene, row, c0, c1, out, blocks);
      }
      WholeList(scene, r1, c0, out, blocks);
      return Ok(out);
    }

    /** One run listed: merged into the rectangle above it, or a new rectangle.
        `full` when there is no room for a new one. */
    method ListRun(region: Rect, row: nat, start: nat, c1: nat, out: seq<StaleRegion>, ghost blocks: seq<Block>)
        returns (col: nat, more: seq<StaleRegion>, full: bool, ghost after: seq<Block>)
      requires Valid() && start < c1 == Touched(region.x, region.width, width).1
      requires Touches(region, width, height, start, row)
      requires StateOf(marks, width, height, start, row) != Written
      requires |blocks| == |out| <= MAX_STALE_REGIONS && ListedUpTo(SceneOf(region), row, start, out, blocks)
      ensures start < col <= c1 && |after| == if full then MAX_STALE_REGIONS + 1 else |more|
      ensures full || |more| <= MAX_STALE_REGIONS
      ensures TiledUpTo(SceneOf(region), row, col, after) && Boundary(SceneOf(region), row, col)
      ensures full || ListedUpTo(SceneOf(region), row, col, more, after)
    {
      hide Index, TileAt, StateOf, TiledUpTo, Boundary, Block.Shown, BlockOk, ContinuesInPixels;
      ghost var scene := SceneOf(region);
      col := RunEnd(region, row, start, c1);
      TileMeans(start, row);
      var why := if tiles[Index(start, row)] == NeverWritten then NeverPainted else PassedOver;
      var stale := RunRect(row, start, col, why);
      ghost var run := Block(start, col, row, row + 1, why);
      after := WithRun(blocks, run);
      TilesOfRun(scene, row, start, col);
      RunOnList(scene, out, blocks, run);
      if |out| > 0 && ContinuesInPixels(out[|out| - 1], stale) {
        var n := |out| - 1;
        more := out[n := out[n].(rect := out[n].rect.(height := out[n].rect.height + stale.rect.height))];
        full := false;
      } else if |out| == MAX_STALE_REGIONS {
        more := out;
        full := true;
      } else {
        more := out + [stale];
        full := false;
      }
    }

    /** The rectangle of a run of tiles. */
    method RunRect(row: nat, start: nat, stop: nat, why: StaleReason) returns (stale: StaleRegion)
      requires Valid() && Block(start, stop, row, row + 1, why).Fits(width, height)
      ensures stale == Block(start, stop, row, row + 1, why).Shown(width, height)
    {
      var first := TileBounds(width, height, start, row);
      var last := TileBounds(width, height, stop - 1, row);
      stale := StaleRegion(Rect(first.x, first.y, last.x + last.width - first.x, first.height), why);
    }

    /** The end of the run of equal tiles that starts here. */
    method RunEnd(region: Rect, row: nat, start: nat, c1: nat) returns (col: nat)
      requires Valid() && start < c1 == Touched(region.x, region.width, width).1
      requires Touches(region, width, height, start, row)
      requires StateOf(marks, width, height, start, row) != Written
      ensures start < col <= c1
      ensures RunOfTiles(SceneOf(region), row, start, col)
    {
      hide Index, TileAt, StateOf;
      TileMeans(start, row);
      col := start;
      while col < c1 && tiles[Index(col, row)] == tiles[Index(start, row)]
        invariant start <= col <= c1
        invariant col == c1 || (Index(col, row) < |tiles| && tiles[Index(col, row)] == SceneOf(region).State(col, row))
        invariant col == start ==> col < c1
        invariant forall c: nat :: start <= c < col ==>
          SceneOf(region).State(c, row) == SceneOf(region).State(start, row)
      {
        col := col + 1;
        if col < c1 {
          TileMeans(col, row);
        }
      }
    }
  }

  method AddPart(before: Mask, tile: Rect, part: Rect) returns (mask: Mask)
    requires tile.width <= TILE && tile.height <= TILE && part.Within(tile)
    ensures forall x, y :: 0 <= x < TILE && 0 <= y < TILE ==>
      (BitAt(mask, x, y) <==> part.Has(tile.x + x, tile.y + y) || BitAt(before, x, y))
  {
    hide HasBit, WithBit;
    mask := before;
    for v := part.y - tile.y to part.y - tile.y + part.height
      invariant forall x, y :: 0 <= x < TILE && 0 <= y < TILE ==>
        (BitAt(mask, x, y) <==>
          (part.Has(tile.x + x, tile.y + y) && y < v) || BitAt(before, x, y))
    {
      for u := part.x - tile.x to part.x - tile.x + part.width
        invariant forall x, y :: 0 <= x < TILE && 0 <= y < TILE ==>
          (BitAt(mask, x, y) <==>
            (part.Has(tile.x + x, tile.y + y) && (y < v || (y == v && x < u))) || BitAt(before, x, y))
      {
        var bit := v * TILE + u;
        forall x, y | 0 <= x < TILE && 0 <= y < TILE
          ensures BitAt(WithBit(mask, bit), x, y) <==>
            (x == u && y == v) || BitAt(mask, x, y)
        {
          WithBitExact(mask, bit, y * TILE + x);
        }
        mask := WithBit(mask, bit);
      }
    }
  }

  method HasAll(mask: Mask, width: nat, height: nat) returns (all: bool)
    requires width <= TILE && height <= TILE
    ensures all <==> forall x, y :: 0 <= x < width && 0 <= y < height ==> BitAt(mask, x, y)
  {
    hide BitAt;
    all := true;
    for v := 0 to height
      invariant all <==> forall x, y :: 0 <= x < width && 0 <= y < v ==> BitAt(mask, x, y)
    {
      for u := 0 to width
        invariant all <==> forall x, y :: 0 <= x < width && 0 <= y < height && (y < v || (y == v && x < u)) ==>
          BitAt(mask, x, y)
      {
        all := all && BitAt(mask, u, v);
      }
    }
  }
}
