/** Counting the tiles of a region by state
    (crates/agent-perception/src/coverage.rs:312-328). */
module RegionCounts {
  import opened CoverageMarks
  import opened StaleTilings

  /** Counts of a region's tiles, by state. */
  datatype RegionState = RegionState(tiles: nat, neverWritten: nat, stale: nat) {
    predicate IsComplete() {
      neverWritten == 0 && stale == 0
    }

    function Add(state: TileState): RegionState {
      RegionState(tiles + 1, neverWritten + (if state == NeverWritten then 1 else 0),
                  stale + (if state == Stale then 1 else 0))
    }
  }

  ghost function TouchedTiles(scene: Scene): set<(nat, nat)> {
    set c: nat, r: nat | c < Tiles(scene.width) && r < Tiles(scene.height)
      && Touches(scene.region, scene.width, scene.height, c, r) :: (c, r)
  }

  /** The tiles of the region in this state. */
  ghost function InState(scene: Scene, state: TileState): set<(nat, nat)> {
    set t | t in TouchedTiles(scene) && scene.State(t.0, t.1) == state
  }

  ghost predicate AllWritten(scene: Scene) {
    forall c: nat, r: nat :: Touches(scene.region, scene.width, scene.height, c, r) ==> scene.State(c, r) == Written
  }

  /** The touched tiles the scan has passed. */
  ghost function PassedTiles(scene: Scene, row: nat, col: nat): set<(nat, nat)> {
    set t | t in TouchedTiles(scene) && Passed(t.0, t.1, row, col)
  }

  ghost predicate Counted(scene: Scene, row: nat, col: nat, out: RegionState) {
    var passed := PassedTiles(scene, row, col);
    && out.tiles == |passed|
    && out.neverWritten == |InState(scene, NeverWritten) * passed|
    && out.stale == |InState(scene, Stale) * passed|
  }

  lemma CountNothing(scene: Scene, r0: nat, c0: nat)
    requires r0 == Touched(scene.region.y, scene.region.height, scene.height).0
    requires c0 == Touched(scene.region.x, scene.region.width, scene.width).0
    ensures Counted(scene, r0, c0, RegionState(0, 0, 0))
  {
    assert PassedTiles(scene, r0, c0) == {};
  }

  lemma OneMore(s: set<(nat, nat)>, passed: set<(nat, nat)>, tile: (nat, nat))
    requires tile !in passed
    ensures |s * (passed + {tile})| == |s * passed| + (if tile in s then 1 else 0)
  {
    if tile in s {
      assert s * (passed + {tile}) == s * passed + {tile};
    } else {
      assert s * (passed + {tile}) == s * passed;
    }
  }

  lemma OnePassed(scene: Scene, row: nat, col: nat)
    requires Touches(scene.region, scene.width, scene.height, col, row)
    ensures PassedTiles(scene, row, col + 1) == PassedTiles(scene, row, col) + {(col, row)}
    ensures (col, row) in TouchedTiles(scene) && (col, row) !in PassedTiles(scene, row, col)
  {
    hide Touches;
    assert col < Tiles(scene.width) && row < Tiles(scene.height) by {
      TileOnScreen(scene, col, row);
    }
    forall t | t in TouchedTiles(scene)
      ensures Passed(t.0, t.1, row, col + 1) <==> Passed(t.0, t.1, row, col) || t == (col, row)
    {
    }
  }

  lemma TileOnScreen(scene: Scene, col: nat, row: nat)
    requires Touches(scene.region, scene.width, scene.height, col, row)
    ensures col < Tiles(scene.width) && row < Tiles(scene.height)
  {
  }

  lemma InStateMeans(scene: Scene, tile: (nat, nat), state: TileState)
    requires tile in TouchedTiles(scene)
    ensures tile in InState(scene, state) <==> scene.State(tile.0, tile.1) == state
  {
  }

  lemma CountOne(scene: Scene, row: nat, col: nat, out: RegionState)
    requires Counted(scene, row, col, out) && Touches(scene.region, scene.width, scene.height, col, row)
    ensures Counted(scene, row, col + 1, out.Add(scene.State(col, row)))
  {
    hide InState;
    var passed := PassedTiles(scene, row, col);
    var tile: (nat, nat) := (col, row);
    OnePassed(scene, row, col);
    assert (scene.State(col, row) == NeverWritten <==> tile in InState(scene, NeverWritten))
        && (scene.State(col, row) == Stale <==> tile in InState(scene, Stale)) by {
      InStateMeans(scene, tile, NeverWritten);
      InStateMeans(scene, tile, Stale);
    }
    OneMore(InState(scene, NeverWritten), passed, tile);
    OneMore(InState(scene, Stale), passed, tile);
  }

  lemma CountedRow(scene: Scene, row: nat, c0: nat, c1: nat, out: RegionState)
    requires (c0, c1) == Touched(scene.region.x, scene.region.width, scene.width)
    requires Counted(scene, row, c1, out)
    ensures Counted(scene, row + 1, c0, out)
  {
    assert PassedTiles(scene, row, c1) == PassedTiles(scene, row + 1, c0);
  }

  lemma CountedAll(scene: Scene, r1: nat, c0: nat, out: RegionState)
    requires r1 == Touched(scene.region.y, scene.region.height, scene.height).1
    requires Counted(scene, r1, c0, out)
    ensures out.tiles == |TouchedTiles(scene)|
    ensures out.neverWritten == |InState(scene, NeverWritten)| && out.stale == |InState(scene, Stale)|
    ensures out.IsComplete() <==> AllWritten(scene)
  {
    assert PassedTiles(scene, r1, c0) == TouchedTiles(scene);
    assert InState(scene, NeverWritten) * TouchedTiles(scene) == InState(scene, NeverWritten);
    assert InState(scene, Stale) * TouchedTiles(scene) == InState(scene, Stale);
    NoneMeansAll(scene);
  }

  lemma NoneMeansAll(scene: Scene)
    ensures AllWritten(scene) <==> InState(scene, NeverWritten) == {} && InState(scene, Stale) == {}
  {
    if InState(scene, NeverWritten) == {} && InState(scene, Stale) == {} {
      forall c: nat, r: nat | Touches(scene.region, scene.width, scene.height, c, r)
        ensures scene.State(c, r) == Written
      {
        assert (c, r) in TouchedTiles(scene);
        assert (c, r) !in InState(scene, NeverWritten) && (c, r) !in InState(scene, Stale);
      }
    }
  }
}
