/** The untrustworthy part of a region as blocks of tiles: what merging runs of
    tiles along rows and downwards builds
    (crates/agent-perception/src/coverage.rs:330-391). */
module StaleTilings {
  import opened CoverageMarks
  import opened Geometry

  /** Nothing was ever painted there, or something went past it. */
  datatype StaleReason = NeverPainted | PassedOver

  datatype StaleRegion = StaleRegion(rect: Rect, why: StaleReason)

  const MAX_STALE_REGIONS := 256

  /** The screen, its history, and the region that is being described. */
  datatype Scene = Scene(marks: seq<Mark>, width: u16, height: u16, region: Rect) {
    ghost function State(col: nat, row: nat): TileState {
      StateOf(marks, width, height, col, row)
    }

    /** A tile of the region that the mirror cannot vouch for. */
    ghost predicate Bad(col: nat, row: nat) {
      Touches(region, width, height, col, row) && State(col, row) != Written
    }

    ghost function Reason(col: nat, row: nat): StaleReason {
      if State(col, row) == NeverWritten then NeverPainted else PassedOver
    }

    ghost predicate BadFor(col: nat, row: nat, why: StaleReason) {
      Bad(col, row) && Reason(col, row) == why
    }
  }

  /** A block of tiles with one reason. */
  datatype Block = Block(c0: nat, c1: nat, r0: nat, r1: nat, why: StaleReason) {
    predicate Holds(col: nat, row: nat) {
      c0 <= col < c1 && r0 <= row < r1
    }

    predicate Fits(width: u16, height: u16) {
      c0 < c1 <= Tiles(width) && r0 < r1 <= Tiles(height)
    }

    function Pixels(width: u16, height: u16): Rect
      requires Fits(width, height)
    {
      var right := Min(c1 * TILE, width);
      var bottom := Min(r1 * TILE, height);
      Rect(c0 * TILE, r0 * TILE, right - c0 * TILE, bottom - r0 * TILE)
    }

    function Shown(width: u16, height: u16): StaleRegion
      requires Fits(width, height)
    {
      StaleRegion(Pixels(width, height), why)
    }

    /** The scan leaves the last row of this block before it comes to `col` of
        `row`. */
    predicate EndsBefore(row: nat, col: nat) {
      r1 <= row || (r1 == row + 1 && c1 <= col)
    }
  }

  // ---------------------------------------------------------------- tilings

  /** Every row of the block is a maximal run of bad tiles of one reason. */
  ghost predicate BlockOk(scene: Scene, block: Block) {
    && block.Fits(scene.width, scene.height)
    && (forall c: nat, r: nat :: block.Holds(c, r) ==> scene.BadFor(c, r, block.why))
    && (forall r: nat :: block.r0 <= r < block.r1 ==> Maximal(scene, r, block.c0, block.c1, block.why))
  }

  /** The run cannot be continued to either side. */
  ghost predicate Maximal(scene: Scene, row: nat, start: nat, stop: nat, why: StaleReason) {
    && !(start > 0 && scene.BadFor(start - 1, row, why))
    && !scene.BadFor(stop, row, why)
  }

  /** A scan from the top, row by row, leaves each block before it comes to the next. */
  predicate InScanOrder(blocks: seq<Block>) {
    forall k, l :: 0 <= k < l < |blocks| ==> blocks[k].EndsBefore(blocks[l].r0, blocks[l].c0)
  }

  /** `next` continues `prev` downwards. */
  predicate Continues(prev: Block, next: Block) {
    prev.why == next.why && prev.c0 == next.c0 && prev.c1 == next.c1 && prev.r1 == next.r0
  }

  predicate NoneContinues(blocks: seq<Block>) {
    forall k :: 0 < k < |blocks| ==> !Continues(blocks[k - 1], blocks[k])
  }

  ghost predicate HeldBy(blocks: seq<Block>, c: nat, r: nat) {
    exists k :: 0 <= k < |blocks| && blocks[k].Holds(c, r)
  }

  /** The tiling of a scene: blocks of maximal runs in scan order that hold every
      bad tile, none a continuation of the one listed before it. */
  ghost predicate Tiling(scene: Scene, blocks: seq<Block>) {
    && (forall k :: 0 <= k < |blocks| ==> BlockOk(scene, blocks[k]))
    && InScanOrder(blocks)
    && NoneContinues(blocks)
    && (forall c: nat, r: nat :: scene.Bad(c, r) ==> HeldBy(blocks, c, r))
  }

  /** Blocks in scan order have no tile in common. */
  lemma Apart(blocks: seq<Block>, k: nat, l: nat, c: nat, r: nat)
    requires InScanOrder(blocks) && k < |blocks| && l < |blocks|
    requires blocks[k].Holds(c, r) && blocks[l].Holds(c, r)
    ensures k == l
  {
  }

  // ---------------------------------------------------------------- the scan

  /** Tiles the scan has passed: rows above, and this row up to `col`. */
  predicate Passed(c: nat, r: nat, row: nat, col: nat) {
    r < row || (r == row && c < col)
  }

  /** A tiling as far as the scan has come. */
  ghost predicate TiledUpTo(scene: Scene, row: nat, col: nat, blocks: seq<Block>) {
    && (forall k :: 0 <= k < |blocks| ==> BlockOk(scene, blocks[k]) && blocks[k].EndsBefore(row, col))
    && InScanOrder(blocks)
    && NoneContinues(blocks)
    && (forall c: nat, r: nat :: Passed(c, r, row, col) && scene.Bad(c, r) ==> HeldBy(blocks, c, r))
  }

  /** No run of bad tiles goes on from the tile just passed. */
  ghost predicate Boundary(scene: Scene, row: nat, col: nat) {
    forall why :: col > 0 && scene.BadFor(col - 1, row, why) ==> !scene.BadFor(col, row, why)
  }

  lemma NothingListed(scene: Scene, r0: nat, c0: nat)
    requires r0 == Touched(scene.region.y, scene.region.height, scene.height).0
    requires c0 == Touched(scene.region.x, scene.region.width, scene.width).0
    ensures TiledUpTo(scene, r0, c0, [])
  {
  }

  lemma RowStarts(scene: Scene, row: nat)
    ensures Boundary(scene, row, Touched(scene.region.x, scene.region.width, scene.width).0)
  {
  }

  /** Skipping a written tile. */
  lemma Skip(scene: Scene, row: nat, col: nat, blocks: seq<Block>)
    requires TiledUpTo(scene, row, col, blocks) && !scene.Bad(col, row)
    ensures TiledUpTo(scene, row, col + 1, blocks) && Boundary(scene, row, col + 1)
  {
  }

  /** The end of one row of the region is the start of the next. */
  lemma RowDone(scene: Scene, row: nat, c0: nat, c1: nat, blocks: seq<Block>)
    requires (c0, c1) == Touched(scene.region.x, scene.region.width, scene.width)
    requires TiledUpTo(scene, row, c1, blocks)
    ensures TiledUpTo(scene, row + 1, c0, blocks)
  {
  }

  lemma ScanDone(scene: Scene, row: nat, col: nat, blocks: seq<Block>)
    requires TiledUpTo(scene, row, col, blocks)
    requires row >= Touched(scene.region.y, scene.region.height, scene.height).1
    ensures Tiling(scene, blocks)
  {
  }

  /** A maximal run of bad tiles of one reason in one row, as a block. */
  ghost predicate IsRun(scene: Scene, run: Block) {
    run.r1 == run.r0 + 1 && BlockOk(scene, run)
  }

  /** From `start` up to `stop` the tiles of this row are in one state, and there
      the region or the state ends. */
  ghost predicate RunOfTiles(scene: Scene, row: nat, start: nat, stop: nat) {
    && (forall c: nat :: start <= c < stop ==> scene.State(c, row) == scene.State(start, row))
    && (|| stop == Touched(scene.region.x, scene.region.width, scene.width).1
        || scene.State(stop, row) != scene.State(start, row))
  }

  lemma TilesOfRun(scene: Scene, row: nat, start: nat, stop: nat)
    requires scene.Bad(start, row) && RunOfTiles(scene, row, start, stop)
    requires start < stop <= Touched(scene.region.x, scene.region.width, scene.width).1
    ensures !scene.BadFor(stop, row, scene.Reason(start, row))
    ensures forall c: nat :: start <= c < stop ==> scene.BadFor(c, row, scene.Reason(start, row))
  {
    hide StateOf;
    forall c: nat | start <= c < stop
      ensures scene.BadFor(c, row, scene.Reason(start, row))
    {
      assert scene.State(c, row) == scene.State(start, row);
    }
  }

  /** The list with one more run: grown downwards, or one block longer. */
  function WithRun(blocks: seq<Block>, run: Block): seq<Block> {
    var n := |blocks| - 1;
    if blocks != [] && Continues(blocks[n], run) then blocks[n := blocks[n].(r1 := run.r1)]
    else blocks + [run]
  }

  lemma GrownOk(scene: Scene, block: Block, run: Block)
    requires BlockOk(scene, block) && IsRun(scene, run) && Continues(block, run)
    ensures BlockOk(scene, block.(r1 := run.r1))
  {
    var grown := block.(r1 := run.r1);
    forall c: nat, r: nat | grown.Holds(c, r)
      ensures scene.BadFor(c, r, grown.why)
    {
      assert block.Holds(c, r) || run.Holds(c, r);
    }
    forall r: nat | grown.r0 <= r < grown.r1
      ensures Maximal(scene, r, grown.c0, grown.c1, grown.why)
    {
      assert r < block.r1 || r == run.r0;
    }
  }

  /** Listing a run keeps the tiling, as far as the end of the run. */
  lemma RunListed(scene: Scene, blocks: seq<Block>, run: Block)
    requires TiledUpTo(scene, run.r0, run.c0, blocks) && IsRun(scene, run)
    ensures TiledUpTo(scene, run.r0, run.c1, WithRun(blocks, run)) && Boundary(scene, run.r0, run.c1)
    ensures |WithRun(blocks, run)| >= |blocks|
  {
    hide Scene.Bad, Scene.Reason;
    var after := WithRun(blocks, run);
    if blocks != [] && Continues(blocks[|blocks| - 1], run) {
      GrownOk(scene, blocks[|blocks| - 1], run);
    }
    RunHeld(scene, blocks, run);
    assert Maximal(scene, run.r0, run.c0, run.c1, run.why);
    assert scene.BadFor(run.c1 - 1, run.r0, run.why) by {
      assert run.Holds(run.c1 - 1, run.r0);
    }
    RunEnds(scene, run.r0, run.c1, run.why);
  }

  lemma RunEnds(scene: Scene, row: nat, col: nat, why: StaleReason)
    requires col > 0 && scene.BadFor(col - 1, row, why) && !scene.BadFor(col, row, why)
    ensures Boundary(scene, row, col)
  {
  }

  /** Whatever was held is still held, and the run is too. */
  lemma RunHeld(scene: Scene, blocks: seq<Block>, run: Block)
    requires TiledUpTo(scene, run.r0, run.c0, blocks) && run.r1 == run.r0 + 1
    ensures forall c: nat, r: nat :: Passed(c, r, run.r0, run.c1) && scene.Bad(c, r) ==>
      HeldBy(WithRun(blocks, run), c, r)
  {
    var after := WithRun(blocks, run);
    forall c: nat, r: nat | Passed(c, r, run.r0, run.c1) && scene.Bad(c, r)
      ensures HeldBy(after, c, r)
    {
      if Passed(c, r, run.r0, run.c0) {
        assert HeldBy(blocks, c, r);
        var k :| 0 <= k < |blocks| && blocks[k].Holds(c, r);
        assert after[k].Holds(c, r);
      } else {
        assert after[|after| - 1].Holds(c, r);
      }
    }
  }

  // ---------------------------------------------------------------- in pixels

  /** The blocks as rectangles of the screen. */
  function Listing(blocks: seq<Block>, width: u16, height: u16): (out: seq<StaleRegion>)
    requires forall k :: 0 <= k < |blocks| ==> blocks[k].Fits(width, height)
    ensures |out| == |blocks|
    ensures forall k :: 0 <= k < |out| ==> out[k] == blocks[k].Shown(width, height)
  {
    seq(|blocks|, k requires 0 <= k < |blocks| => blocks[k].Shown(width, height))
  }

  /** `next` continues `prev` downwards, in pixels. */
  predicate ContinuesInPixels(prev: StaleRegion, next: StaleRegion) {
    && prev.why == next.why
    && prev.rect.x == next.rect.x
    && prev.rect.width == next.rect.width
    && prev.rect.y + prev.rect.height == next.rect.y
  }

  lemma ContinuesMeans(block: Block, run: Block, width: u16, height: u16)
    requires block.Fits(width, height) && run.Fits(width, height)
    ensures ContinuesInPixels(block.Shown(width, height), run.Shown(width, height)) <==> Continues(block, run)
  {
  }

  /** Growing a rectangle by the height of the run is showing the grown block. */
  lemma GrownShown(block: Block, run: Block, width: u16, height: u16)
    requires block.Fits(width, height) && run.Fits(width, height) && Continues(block, run)
    ensures var stale, more := block.Shown(width, height), run.Shown(width, height);
            && stale.rect.height + more.rect.height < 0x1_0000
            && block.(r1 := run.r1).Shown(width, height) ==
               stale.(rect := stale.rect.(height := stale.rect.height + more.rect.height))
  {
  }

  /** The list with one more run, in pixels. */
  function WithStale(out: seq<StaleRegion>, stale: StaleRegion): seq<StaleRegion>
    requires out != [] && ContinuesInPixels(out[|out| - 1], stale) ==>
      out[|out| - 1].rect.height + stale.rect.height < 0x1_0000
  {
    var n := |out| - 1;
    if out != [] && ContinuesInPixels(out[n], stale) then
      out[n := out[n].(rect := out[n].rect.(height := out[n].rect.height + stale.rect.height))]
    else out + [stale]
  }

  ghost predicate AllFit(blocks: seq<Block>, width: u16, height: u16) {
    forall k :: 0 <= k < |blocks| ==> blocks[k].Fits(width, height)
  }

  /** Listing a run in pixels is listing it in tiles. */
  lemma RunShown(blocks: seq<Block>, run: Block, width: u16, height: u16)
    requires AllFit(blocks, width, height) && run.Fits(width, height)
    requires AllFit(WithRun(blocks, run), width, height)
    ensures var out, stale := Listing(blocks, width, height), run.Shown(width, height);
      && (out != [] && ContinuesInPixels(out[|out| - 1], stale) ==>
            out[|out| - 1].rect.height + stale.rect.height < 0x1_0000)
      && WithStale(out, stale) == Listing(WithRun(blocks, run), width, height)
  {
    hide Block.Shown, Block.Fits, ContinuesInPixels;
    if blocks != [] {
      ContinuesMeans(blocks[|blocks| - 1], run, width, height);
      if Continues(blocks[|blocks| - 1], run) {
        GrownShown(blocks[|blocks| - 1], run, width, height);
      }
    }
  }

  /** The scan has come to `col` of `row` and has listed what it passed. */
  ghost predicate ListedUpTo(scene: Scene, row: nat, col: nat, out: seq<StaleRegion>, blocks: seq<Block>) {
    && TiledUpTo(scene, row, col, blocks) && Boundary(scene, row, col)
    && AllFit(blocks, scene.width, scene.height)
    && out == Listing(blocks, scene.width, scene.height)
  }

  /** What the list says, pixel by pixel. */
  ghost predicate SoundPixels(scene: Scene, out: seq<StaleRegion>) {
    && (forall k :: 0 <= k < |out| ==> !out[k].rect.IsEmpty())
    && (forall k, x: nat, y: nat :: 0 <= k < |out| && out[k].rect.Has(x, y) ==>
          x < scene.width && y < scene.height && scene.BadFor(x / TILE, y / TILE, out[k].why))
    && (forall k, l, x: nat, y: nat :: 0 <= k < l < |out| ==> !(out[k].rect.Has(x, y) && out[l].rect.Has(x, y)))
  }

  ghost predicate Listed(out: seq<StaleRegion>, x: nat, y: nat) {
    exists k :: 0 <= k < |out| && out[k].rect.Has(x, y)
  }

  ghost predicate WholePixels(scene: Scene, out: seq<StaleRegion>) {
    forall x: nat, y: nat :: x < scene.width && y < scene.height && scene.Bad(x / TILE, y / TILE) ==> Listed(out, x, y)
  }

  lemma BlockPixels(block: Block, width: u16, height: u16, x: nat, y: nat)
    requires block.Fits(width, height)
    ensures block.Pixels(width, height).Has(x, y) <==>
      x < width && y < height && block.Holds(x / TILE, y / TILE)
  {
  }

  /** A tiling, listed: disjoint rectangles of the screen that are exactly the bad
      tiles, each with the one reason of all its tiles. */
  lemma TilingInPixels(scene: Scene, blocks: seq<Block>)
    requires Tiling(scene, blocks)
    ensures SoundPixels(scene, Listing(blocks, scene.width, scene.height))
    ensures WholePixels(scene, Listing(blocks, scene.width, scene.height))
  {
    hide Maximal, Rect.Has, Scene.Bad, Scene.BadFor, Scene.Reason, NoneContinues;
    var out := Listing(blocks, scene.width, scene.height);
    forall k | 0 <= k < |out|
      ensures !out[k].rect.IsEmpty()
      ensures forall x: nat, y: nat :: out[k].rect.Has(x, y) ==>
        x < scene.width && y < scene.height && blocks[k].Holds(x / TILE, y / TILE)
        && scene.BadFor(x / TILE, y / TILE, out[k].why)
    {
      BlockInPixels(scene, blocks[k]);
    }
    forall k, l, x: nat, y: nat | 0 <= k < l < |out|
      ensures !(out[k].rect.Has(x, y) && out[l].rect.Has(x, y))
    {
      if out[k].rect.Has(x, y) && out[l].rect.Has(x, y) {
        Apart(blocks, k, l, x / TILE, y / TILE);
        assert false;
      }
    }
    forall x: nat, y: nat | x < scene.width && y < scene.height && scene.Bad(x / TILE, y / TILE)
      ensures Listed(out, x, y)
    {
      var k :| 0 <= k < |blocks| && blocks[k].Holds(x / TILE, y / TILE);
      BlockPixels(blocks[k], scene.width, scene.height, x, y);
    }
  }

  lemma BlockInPixels(scene: Scene, block: Block)
    requires BlockOk(scene, block)
    ensures var rect := block.Pixels(scene.width, scene.height);
      && !rect.IsEmpty()
      && forall x: nat, y: nat :: rect.Has(x, y) ==>
           x < scene.width && y < scene.height && block.Holds(x / TILE, y / TILE)
           && scene.BadFor(x / TILE, y / TILE, block.why)
  {
    forall x: nat, y: nat | block.Pixels(scene.width, scene.height).Has(x, y)
      ensures x < scene.width && y < scene.height && block.Holds(x / TILE, y / TILE)
    {
      BlockPixels(block, scene.width, scene.height, x, y);
    }
  }
}
