/** A scene has one tiling and only one, so a list of stale rectangles is
    determined by the history of the screen, and so is whether it is too long. */
module OneTiling {
  import opened CoverageMarks
  import opened Geometry
  import opened StaleTilings

  // ---------------------------------------------------------------- there is one

  /** The end of the run of tiles of one reason that goes on at `col`. */
  ghost function RunStop(scene: Scene, row: nat, col: nat, why: StaleReason): (stop: nat)
    requires col <= Tiles(scene.width)
    ensures col <= stop <= Tiles(scene.width) && !scene.BadFor(stop, row, why)
    ensures forall c: nat :: col <= c < stop ==> scene.BadFor(c, row, why)
    decreases Tiles(scene.width) - col
  {
    if scene.BadFor(col, row, why) then RunStop(scene, row, col + 1, why) else col
  }

  /** However far the scan has come, it can be finished, and never takes a block
      back. */
  lemma {:induction false} Finish(scene: Scene, row: nat, col: nat, blocks: seq<Block>) returns (all: seq<Block>)
    requires TiledUpTo(scene, row, col, blocks) && Boundary(scene, row, col)
    requires col <= Tiles(scene.width)
    requires Touched(scene.region.x, scene.region.width, scene.width).0 <= col
    ensures Tiling(scene, all) && |all| >= |blocks|
    decreases Tiles(scene.height) - row, Tiles(scene.width) - col
  {
    hide TiledUpTo, Tiling, Boundary, BlockOk, IsRun, WithRun;
    var (c0, c1) := Touched(scene.region.x, scene.region.width, scene.width);
    if row >= Touched(scene.region.y, scene.region.height, scene.height).1 {
      ScanDone(scene, row, col, blocks);
      all := blocks;
    } else if col >= c1 {
      PastTheRegion(scene, row, c1, col, blocks);
      RowDone(scene, row, c0, c1, blocks);
      RowStarts(scene, row + 1);
      all := Finish(scene, row + 1, c0, blocks);
    } else if !scene.Bad(col, row) {
      Skip(scene, row, col, blocks);
      all := Finish(scene, row, col + 1, blocks);
    } else {
      var why := scene.Reason(col, row);
      var run := Block(col, RunStop(scene, row, col, why), row, row + 1, why);
      RunIsOk(scene, run);
      RunListed(scene, blocks, run);
      all := Finish(scene, row, run.c1, WithRun(blocks, run));
    }
  }

  lemma PastTheRegion(scene: Scene, row: nat, c1: nat, col: nat, blocks: seq<Block>)
    requires c1 == Touched(scene.region.x, scene.region.width, scene.width).1 <= col
    requires TiledUpTo(scene, row, col, blocks)
    ensures TiledUpTo(scene, row, c1, blocks)
  {
    forall k | 0 <= k < |blocks|
      ensures blocks[k].EndsBefore(row, c1)
    {
      assert BlockOk(scene, blocks[k]);
      assert blocks[k].Holds(blocks[k].c1 - 1, blocks[k].r1 - 1);
    }
  }

  lemma RunIsOk(scene: Scene, run: Block)
    requires run.r1 == run.r0 + 1 && run.c0 < run.c1 <= Tiles(scene.width) && run.r0 < Tiles(scene.height)
    requires Boundary(scene, run.r0, run.c0) && !scene.BadFor(run.c1, run.r0, run.why)
    requires forall c: nat :: run.c0 <= c < run.c1 ==> scene.BadFor(c, run.r0, run.why)
    ensures IsRun(scene, run)
  {
    hide Scene.BadFor;
    assert scene.BadFor(run.c0, run.r0, run.why);
    assert Maximal(scene, run.r0, run.c0, run.c1, run.why);
  }

  lemma SomeTiling(scene: Scene)
    ensures exists blocks :: Tiling(scene, blocks)
  {
    var c0 := Touched(scene.region.x, scene.region.width, scene.width).0;
    var r0 := Touched(scene.region.y, scene.region.height, scene.height).0;
    NothingListed(scene, r0, c0);
    RowStarts(scene, r0);
    var blocks := Finish(scene, r0, c0, []);
  }

  // ---------------------------------------------------------------- merging

  /** A run of bad tiles of one reason that cannot be continued to either side. */
  ghost predicate MaximalRun(scene: Scene, row: nat, start: nat, stop: nat, why: StaleReason) {
    && start < stop && Maximal(scene, row, start, stop, why)
    && (forall c: nat :: start <= c < stop ==> scene.BadFor(c, row, why))
  }

  /** The same run in this row and in the next. */
  ghost predicate Stacked(scene: Scene, row: nat, start: nat, stop: nat, why: StaleReason) {
    MaximalRun(scene, row, start, stop, why) && MaximalRun(scene, row + 1, start, stop, why)
  }

  /** A bad tile the scan comes to between the two. */
  ghost predicate Between(scene: Scene, row: nat, start: nat, stop: nat, c: nat, r: nat) {
    scene.Bad(c, r) && ((r == row && stop <= c) || (r == row + 1 && c < start))
  }

  ghost predicate NothingBetween(scene: Scene, row: nat, start: nat, stop: nat) {
    forall c: nat, r: nat :: !Between(scene, row, start, stop, c, r)
  }

  /** Where a maximal run is, there is a row of a block. */
  lemma RunOfBlock(scene: Scene, block: Block, row: nat, start: nat, stop: nat, why: StaleReason)
    requires BlockOk(scene, block) && block.Holds(start, row)
    requires MaximalRun(scene, row, start, stop, why)
    ensures block.c0 == start && block.c1 == stop && block.why == why
  {
    hide Scene.Bad, Scene.Reason;
    assert scene.BadFor(start, row, block.why) && scene.BadFor(start, row, why);
    OneReason(scene, start, row, block.why, why);
    assert Maximal(scene, row, block.c0, block.c1, block.why);
    assert start == 0 || !block.Holds(start - 1, row);
    assert !block.Holds(stop, row);
  }

  lemma OneReason(scene: Scene, c: nat, r: nat, a: StaleReason, b: StaleReason)
    requires scene.BadFor(c, r, a) && scene.BadFor(c, r, b)
    ensures a == b
  {
  }

  /** The tile and the one below it are in one rectangle. */
  predicate MergedDown(blocks: seq<Block>, c: nat, r: nat) {
    exists k :: 0 <= k < |blocks| && blocks[k].Holds(c, r) && blocks[k].Holds(c, r + 1)
  }

  /** Two runs, one right above the other with the same extent and reason, are in
      one rectangle if and only if no bad tile lies between them in the scan. */
  lemma MergedExactly(scene: Scene, blocks: seq<Block>, row: nat, start: nat, stop: nat, why: StaleReason)
    requires Tiling(scene, blocks) && Stacked(scene, row, start, stop, why)
    ensures MergedDown(blocks, start, row) <==> NothingBetween(scene, row, start, stop)
  {
    hide Scene.Bad, Scene.Reason, Maximal;
    BadTile(scene, start, row, why);
    BadTile(scene, start, row + 1, why);
    var k :| 0 <= k < |blocks| && blocks[k].Holds(start, row);
    var l :| 0 <= l < |blocks| && blocks[l].Holds(start, row + 1);
    RunOfBlock(scene, blocks[k], row, start, stop, why);
    RunOfBlock(scene, blocks[l], row + 1, start, stop, why);
    hide InScanOrder, NoneContinues, NothingBetween, BlockOk;
    if k == l {
      InOneBlock(scene, blocks, k, row, start, stop);
    } else {
      OnlyHolder(blocks, k, start, row);
      SeparatedByOne(scene, blocks, k, l, row, start, stop);
    }
  }

  lemma OnlyHolder(blocks: seq<Block>, k: nat, c: nat, r: nat)
    requires InScanOrder(blocks) && k < |blocks| && blocks[k].Holds(c, r)
    ensures forall m :: 0 <= m < |blocks| && blocks[m].Holds(c, r) ==> m == k
  {
  }

  /** No bad tile lies between two rows of one block. */
  lemma InOneBlock(scene: Scene, blocks: seq<Block>, k: nat, row: nat, start: nat, stop: nat)
    requires Tiling(scene, blocks) && k < |blocks|
    requires blocks[k].c0 == start && blocks[k].c1 == stop
    requires blocks[k].Holds(start, row) && blocks[k].Holds(start, row + 1)
    ensures NothingBetween(scene, row, start, stop)
  {
    forall c: nat, r: nat | scene.Bad(c, r)
      ensures !Between(scene, row, start, stop, c, r)
    {
      var m :| 0 <= m < |blocks| && blocks[m].Holds(c, r);
      assert m < k ==> blocks[m].EndsBefore(blocks[k].r0, start);
      assert m > k ==> blocks[k].EndsBefore(blocks[m].r0, blocks[m].c0);
    }
  }

  lemma BadTile(scene: Scene, c: nat, r: nat, why: StaleReason)
    requires scene.BadFor(c, r, why)
    ensures scene.Bad(c, r)
  {
  }

  /** Between two blocks, one right above the other, another one is listed. */
  lemma SeparatedByOne(scene: Scene, blocks: seq<Block>, k: nat, l: nat, row: nat, start: nat, stop: nat)
    requires Tiling(scene, blocks) && k < |blocks| && l < |blocks| && k != l && start < stop
    requires blocks[k].Holds(start, row) && blocks[l].Holds(start, row + 1)
    requires blocks[k].why == blocks[l].why
    requires blocks[k].c0 == start == blocks[l].c0 && blocks[k].c1 == stop == blocks[l].c1
    ensures !NothingBetween(scene, row, start, stop)
  {
    hide Scene.Bad, Scene.Reason, Maximal;
    assert k < l;
    assert blocks[k].r1 == row + 1 == blocks[l].r0;
    assert l != k + 1;
    var m := blocks[k + 1];
    assert blocks[k].EndsBefore(m.r0, m.c0) && m.EndsBefore(row + 1, start);
    assert BlockOk(scene, m);
    assert m.Holds(m.c0, m.r0);
    BadTile(scene, m.c0, m.r0, m.why);
    assert Between(scene, row, start, stop, m.c0, m.r0);
  }

  // ---------------------------------------------------------------- only one

  /** The first tile of the `k`-th block of one tiling is not before that of the
      other's, when the blocks before are the same. */
  lemma FirstTile(scene: Scene, a: seq<Block>, b: seq<Block>, k: nat)
    requires Tiling(scene, a) && Tiling(scene, b) && k < |a| && k <= |b| && a[..k] == b[..k]
    ensures k < |b| && (b[k].r0 < a[k].r0 || (b[k].r0 == a[k].r0 && b[k].c0 <= a[k].c0))
  {
    hide Scene.Bad, Scene.Reason, Maximal, NoneContinues;
    var c, r := a[k].c0, a[k].r0;
    assert BlockOk(scene, a[k]);
    assert a[k].Holds(c, r);
    BadTile(scene, c, r, a[k].why);
    var j :| 0 <= j < |b| && b[j].Holds(c, r);
    assert forall i :: 0 <= i < k ==> a[..k][i] == a[i] && b[..k][i] == b[i];
    assert BlockOk(scene, b[k]);
    assert j == k || b[k].EndsBefore(b[j].r0, b[j].c0);
  }

  /** It is no taller either. */
  lemma NoTaller(scene: Scene, a: seq<Block>, b: seq<Block>, k: nat)
    requires Tiling(scene, a) && Tiling(scene, b) && k < |a| && k < |b|
    requires a[k].r0 == b[k].r0 && a[k].c0 == b[k].c0 && a[k].c1 == b[k].c1 && a[k].why == b[k].why
    ensures a[k].r1 <= b[k].r1
  {
    hide Scene.Bad, Scene.Reason, InScanOrder, NoneContinues;
    if a[k].r1 > b[k].r1 {
      var row := b[k].r1 - 1;
      assert BlockOk(scene, a[k]) && BlockOk(scene, b[k]);
      RowOfBlock(scene, a[k], row);
      RowOfBlock(scene, a[k], row + 1);
      assert a[k].Holds(a[k].c0, row) && a[k].Holds(a[k].c0, row + 1);
      MergedExactly(scene, a, row, a[k].c0, a[k].c1, a[k].why);
      MergedExactly(scene, b, row, a[k].c0, a[k].c1, a[k].why);
      OnlyHolder(a, k, a[k].c0, row);
      OnlyHolder(b, k, a[k].c0, row);
      assert false;
    }
  }

  lemma RowOfBlock(scene: Scene, block: Block, row: nat)
    requires BlockOk(scene, block) && block.r0 <= row < block.r1
    ensures MaximalRun(scene, row, block.c0, block.c1, block.why)
  {
    hide Scene.BadFor, Maximal;
    forall c: nat | block.c0 <= c < block.c1
      ensures scene.BadFor(c, row, block.why)
    {
      assert block.Holds(c, row);
    }
  }

  lemma SameBlock(scene: Scene, a: seq<Block>, b: seq<Block>, k: nat)
    requires Tiling(scene, a) && Tiling(scene, b) && k < |a| && k < |b| && a[..k] == b[..k]
    ensures a[k] == b[k]
  {
    FirstTile(scene, a, b, k);
    FirstTile(scene, b, a, k);
    hide Scene.BadFor, InScanOrder, NoneContinues;
    var c, r := a[k].c0, a[k].r0;
    assert BlockOk(scene, a[k]) && BlockOk(scene, b[k]);
    assert a[k].Holds(c, r) && b[k].Holds(c, r);
    RowOfBlock(scene, a[k], r);
    RunOfBlock(scene, b[k], r, c, a[k].c1, a[k].why);
    NoTaller(scene, a, b, k);
    NoTaller(scene, b, a, k);
  }

  lemma {:induction false} SameBlocks(scene: Scene, a: seq<Block>, b: seq<Block>, k: nat)
    requires Tiling(scene, a) && Tiling(scene, b) && k <= |a|
    ensures k <= |b| && a[..k] == b[..k]
    decreases k
  {
    hide Tiling;
    if k > 0 {
      SameBlocks(scene, a, b, k - 1);
      FirstTile(scene, a, b, k - 1);
      SameBlock(scene, a, b, k - 1);
      assert a[..k] == a[..k - 1] + [a[k - 1]];
      assert b[..k] == b[..k - 1] + [b[k - 1]];
    }
  }

  /** Two tilings of one scene are the same list of blocks. */
  lemma OnlyOneTiling(scene: Scene, a: seq<Block>, b: seq<Block>)
    requires Tiling(scene, a) && Tiling(scene, b)
    ensures a == b
  {
    SameBlocks(scene, a, b, |a|);
    SameBlocks(scene, b, a, |b|);
    assert a[..|a|] == a && b[..|b|] == b;
  }

  /** The tiling of a scene. */
  ghost function TilingOf(scene: Scene): (blocks: seq<Block>)
    ensures Tiling(scene, blocks)
  {
    SomeTiling(scene);
    var blocks :| Tiling(scene, blocks);
    blocks
  }

  /** What is listed of a scene. */
  ghost function StaleList(scene: Scene): (out: seq<StaleRegion>)
    ensures SoundPixels(scene, out) && WholePixels(scene, out)
  {
    TilingInPixels(scene, TilingOf(scene));
    Listing(TilingOf(scene), scene.width, scene.height)
  }

  /** The scene has more rectangles than are listed. */
  ghost predicate TooManyToList(scene: Scene) {
    |TilingOf(scene)| > MAX_STALE_REGIONS
  }

  /** A screen of three by two tiles whose middle column is painted. */
  ghost const TWO_COLUMNS := Scene([WriteMark(Rect(16, 0, 16, 32))], 48, 32, Rect(0, 0, 48, 32))

  lemma ColumnsAre(c: nat, r: nat)
    ensures TWO_COLUMNS.Bad(c, r) <==> (c == 0 || c == 2) && r < 2
    ensures TWO_COLUMNS.Bad(c, r) ==> TWO_COLUMNS.Reason(c, r) == NeverPainted
  {
    var s := TWO_COLUMNS;
    if c < 3 && r < 2 {
      assert InTile(s.width, s.height, c, r, c * TILE, r * TILE);
      assert s.marks[..0] == [];
      forall x: nat, y: nat
        ensures CoveredBy(s.marks, s.width, s.height, x, y) <==> 16 <= x < 32 && y < 32
      {
      }
    }
  }

  /** Its left column is two runs, one right above the other and alike, and is
      not merged. */
  lemma TwoColumnsAreNotMerged()
    ensures Stacked(TWO_COLUMNS, 0, 0, 1, NeverPainted)
    ensures !MergedDown(TilingOf(TWO_COLUMNS), 0, 0)
  {
    hide Scene.Bad, Scene.Reason;
    ColumnsAre(0, 0);
    ColumnsAre(0, 1);
    ColumnsAre(1, 0);
    ColumnsAre(1, 1);
    ColumnsAre(2, 0);
    MergedExactly(TWO_COLUMNS, TilingOf(TWO_COLUMNS), 0, 0, 1, NeverPainted);
    assert Between(TWO_COLUMNS, 0, 0, 1, 2, 0);
  }

  // ---------------------------------------------------------------- listing it

  lemma NoRowListed(scene: Scene, r0: nat, c0: nat)
    requires r0 == Touched(scene.region.y, scene.region.height, scene.height).0
    requires c0 == Touched(scene.region.x, scene.region.width, scene.width).0
    ensures ListedUpTo(scene, r0, c0, [], [])
  {
    NothingListed(scene, r0, c0);
    RowStarts(scene, r0);
  }

  lemma WrittenSkipped(scene: Scene, row: nat, col: nat, out: seq<StaleRegion>, blocks: seq<Block>)
    requires ListedUpTo(scene, row, col, out, blocks) && scene.State(col, row) == Written
    ensures ListedUpTo(scene, row, col + 1, out, blocks)
  {
    Skip(scene, row, col, blocks);
  }

  lemma RowListed(scene: Scene, row: nat, c0: nat, c1: nat, out: seq<StaleRegion>, blocks: seq<Block>)
    requires (c0, c1) == Touched(scene.region.x, scene.region.width, scene.width)
    requires ListedUpTo(scene, row, c1, out, blocks)
    ensures ListedUpTo(scene, row + 1, c0, out, blocks)
  {
    RowDone(scene, row, c0, c1, blocks);
    RowStarts(scene, row + 1);
  }

  lemma RunOnList(scene: Scene, out: seq<StaleRegion>, blocks: seq<Block>, run: Block)
    requires ListedUpTo(scene, run.r0, run.c0, out, blocks)
    requires run.r1 == run.r0 + 1 && run.c0 < run.c1 && run.Fits(scene.width, scene.height)
    requires !scene.BadFor(run.c1, run.r0, run.why)
    requires forall c: nat :: run.c0 <= c < run.c1 ==> scene.BadFor(c, run.r0, run.why)
    ensures var after := WithRun(blocks, run);
      && ListedUpTo(scene, run.r0, run.c1, Listing(after, scene.width, scene.height), after)
      && (out != [] && ContinuesInPixels(out[|out| - 1], run.Shown(scene.width, scene.height)) ==>
            out[|out| - 1].rect.height + run.Shown(scene.width, scene.height).rect.height < 0x1_0000)
      && WithStale(out, run.Shown(scene.width, scene.height)) == Listing(after, scene.width, scene.height)
  {
    hide WithRun, WithStale, Boundary, Scene.BadFor, Block.Shown;
    RunIsOk(scene, run);
    RunListed(scene, blocks, run);
    TiledFits(scene, run.r0, run.c1, WithRun(blocks, run));
    RunShown(blocks, run, scene.width, scene.height);
  }

  lemma TiledFits(scene: Scene, row: nat, col: nat, blocks: seq<Block>)
    requires TiledUpTo(scene, row, col, blocks)
    ensures AllFit(blocks, scene.width, scene.height)
  {
    forall k | 0 <= k < |blocks|
      ensures blocks[k].Fits(scene.width, scene.height)
    {
      assert BlockOk(scene, blocks[k]);
    }
  }

  /** A list that is too long before the scan is finished is too long after it. */
  lemma FullList(scene: Scene, row: nat, col: nat, blocks: seq<Block>)
    requires TiledUpTo(scene, row, col, blocks) && Boundary(scene, row, col)
    requires Touched(scene.region.x, scene.region.width, scene.width).0 <= col <= Tiles(scene.width)
    requires |blocks| > MAX_STALE_REGIONS
    ensures TooManyToList(scene)
  {
    var all := Finish(scene, row, col, blocks);
    OnlyOneTiling(scene, all, TilingOf(scene));
  }

  lemma WholeList(scene: Scene, row: nat, col: nat, out: seq<StaleRegion>, blocks: seq<Block>)
    requires ListedUpTo(scene, row, col, out, blocks) && |blocks| <= MAX_STALE_REGIONS
    requires row >= Touched(scene.region.y, scene.region.height, scene.height).1
    ensures out == StaleList(scene) && !TooManyToList(scene)
  {
    ScanDone(scene, row, col, blocks);
    OnlyOneTiling(scene, blocks, TilingOf(scene));
  }
}
