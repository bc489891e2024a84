/**
 * The WorldGenerator component: the sliding window of tiles, the placement
 * cursor and the previous interactable as fields updated in place, and its
 * methods as the source writes them. Each method is proved to change the
 * fields exactly as the matching function of Streaming says.
 */
module WorldGeneration {
  import opened Wrappers
  import opened Vectors
  import opened Catalog
  import opened Streaming
  import opened Layout
  import opened Eviction

  class WorldGenerator {
    const environmentTiles: seq<WorldTile>    // m_worldEnvironmentTiles
    const interactableTiles: seq<WorldTile>   // m_worldInteractableTiles
    const startingTiles: nat                  // m_startingTiles
    const totalTiles: nat                     // m_totalTiles
    const tileSpacing: real                   // m_tileSpacing
    const tileDistance: real                  // m_tileDistance

    var nextTilePosition: Vec3                // m_nextTilePosition
    var currentTiles: seq<Tile>               // m_currentTiles, head first
    var previousInteractable: Option<nat>     // m_previousInteractable, as a catalog index

    function Settings(): Config
    {
      Config(environmentTiles, interactableTiles, startingTiles, totalTiles, tileSpacing, tileDistance)
    }

    function State(): Window
      reads this
    {
      Window(currentTiles, nextTilePosition, previousInteractable)
    }

    ghost predicate Valid()
      reads this
    {
      PreviousValid(Settings(), State())
    }

    /** The component as the scene loads it: no tiles yet, the cursor at Vector3.zero, no previous interactable. */
    constructor (environmentTiles: seq<WorldTile>, interactableTiles: seq<WorldTile>,
                 startingTiles: nat, totalTiles: nat, tileSpacing: real, tileDistance: real)
      ensures Settings() == Config(environmentTiles, interactableTiles, startingTiles, totalTiles, tileSpacing, tileDistance)
      ensures State() == Window([], Zero, None)
      ensures Valid()
    {
      this.environmentTiles := environmentTiles;
      this.interactableTiles := interactableTiles;
      this.startingTiles := startingTiles;
      this.totalTiles := totalTiles;
      this.tileSpacing := tileSpacing;
      this.tileDistance := tileDistance;
      nextTilePosition := Zero;
      currentTiles := [];
      previousInteractable := None;
    }

    /** NewTile: instantiate a random environment template at the cursor. */
    method NewTile(draw: nat) returns (r: Result<Tile, Fault>)
      ensures r.Failure? <==> |environmentTiles| == 0
      ensures r.Failure? ==> r.error == NoEnvironmentTiles
      ensures r.Success? ==>
        && r.value.template == Pick(draw, |environmentTiles|)
        && r.value.template < |environmentTiles|
        && r.value.size == environmentTiles[r.value.template].size
        && r.value.position == nextTilePosition
        && r.value.interactable.None?
      ensures draw < |environmentTiles| ==> r.Success? && r.value.template == draw
    {
      if |environmentTiles| == 0 {
        return Failure(NoEnvironmentTiles);
      }
      var index := Pick(draw, |environmentTiles|);
      r := Success(Tile(index, environmentTiles[index].size, nextTilePosition, None));
    }

    /**
     * NewInteractable: seed the walk with a random root if there is no
     * previous interactable, then instantiate a random successor of it at the
     * cursor; it becomes the previous interactable.
     */
    method NewInteractable(d: Draw) returns (r: Result<Interactable, Fault>)
      requires Valid()
      modifies this`previousInteractable
      ensures Valid()
      ensures var p := NextInteractable(interactableTiles, old(previousInteractable), d.root, d.successor);
        && previousInteractable == p.previous
        && (r.Success? <==> p.chosen.Success?)
        && (r.Success? ==> r.value == Interactable(p.chosen.value, nextTilePosition))
        && (r.Failure? ==> r.error == p.chosen.error)
    {
      if previousInteractable == None {
        if |interactableTiles| == 0 {
          return Failure(NoInteractableTiles);
        }
        previousInteractable := Some(Pick(d.root, |interactableTiles|));
      }
      var successors := interactableTiles[previousInteractable.value].nextTileIndex;
      if |successors| == 0 {
        return Failure(NoSuccessors);
      }
      var index := successors[Pick(d.successor, |successors|)];
      if !(0 <= index < |interactableTiles|) {
        return Failure(SuccessorOutOfRange(index));
      }
      previousInteractable := Some(index as nat);
      r := Success(Interactable(index as nat, nextTilePosition));
    }

    /** UpdateNextTilePosition: advance the cursor by a tile's size along the player's forward x and z. */
    method UpdateNextTilePosition(size: Vec3, forward: Vec3)
      modifies this`nextTilePosition
      ensures nextTilePosition == NextCursor(old(nextTilePosition), size, forward, tileDistance)
      ensures nextTilePosition.y == old(nextTilePosition.y)
    {
      var spacing := forward;
      nextTilePosition := Add(nextTilePosition, Scale(Vec3(size.x * spacing.x, 0.0, size.z * spacing.z), tileDistance));
    }

    /**
     * NextTile(destroy): optionally destroy the head, then spawn an
     * environment tile at the cursor with a chained interactable parented to
     * it, advance the cursor and enqueue the tile.
     */
    method NextTile(destroy: bool, forward: Vec3, d: Draw) returns (fault: Option<Fault>)
      requires Valid()
      modifies this
      ensures Valid()
      ensures var s := NextTileStep(Settings(), old(State()), destroy, forward, d);
        State() == s.window && fault == s.fault
      ensures fault.None? ==> |currentTiles| == |old(currentTiles)| + (if destroy then 0 else 1)
      ensures fault.None? && destroy ==> currentTiles[..|currentTiles| - 1] == old(currentTiles)[1..]
      ensures fault.None? && !destroy ==> currentTiles[..|currentTiles| - 1] == old(currentTiles)
    {
      if destroy {
        if currentTiles == [] {
          return Some(EmptyQueue);
        }
        currentTiles := currentTiles[1..];
      }
      var made := NewTile(d.environment);
      if made.Failure? {
        return Some(made.error);
      }
      var interactable := NewInteractable(d);
      if interactable.Failure? {
        return Some(interactable.error);
      }
      var tile := made.value.(interactable := Some(interactable.value));
      UpdateNextTilePosition(tile.size, forward);
      currentTiles := currentTiles + [tile];
      fault := None;
    }

    /** The body of InitialiseWorld's first loop: a blank tile at the cursor, then the cursor advances. */
    method StartingTile(forward: Vec3, draw: nat) returns (fault: Option<Fault>)
      requires Valid()
      modifies this`currentTiles, this`nextTilePosition
      ensures Valid()
      ensures var s := BlankTileStep(Settings(), old(State()), forward, draw);
        State() == s.window && fault == s.fault
    {
      var made := NewTile(draw);
      if made.Failure? {
        return Some(made.error);
      }
      UpdateNextTilePosition(made.value.size, forward);
      currentTiles := currentTiles + [made.value];
      fault := None;
    }

    /**
     * InitialiseWorld: a fresh queue, m_startingTiles blank tiles, then
     * m_totalTiles - m_startingTiles chained ones; a fault stops it.
     */
    method InitialiseWorld(forward: Vec3, draws: seq<Draw>) returns (fault: Option<Fault>)
      requires Valid()
      modifies this
      ensures Valid()
      ensures var s := InitialiseStep(Settings(), old(State()), forward, draws);
        State() == s.window && fault == s.fault
    {
      currentTiles := [];
      ghost var blank := FillBlank(Settings(), State(), forward, draws, 0);
      var i := 0;
      while i < startingTiles
        invariant 0 <= i <= startingTiles
        invariant Valid()
        invariant FillBlank(Settings(), State(), forward, draws, i) == blank
      {
        ghost var before := State();
        fault := StartingTile(forward, DrawAt(draws, i).environment);
        FillBlankStep(Settings(), before, forward, draws, i, State(), fault);
        if fault.Some? {
          return;
        }
        i := i + 1;
      }
      ghost var chained := FillChained(Settings(), State(), forward, draws, i);
      // The second loop counts with k as the source does; i goes on counting
      // the tiles spawned, which index the draw stream.
      var k := 0;
      while k < totalTiles - startingTiles
        invariant 0 <= k && i == startingTiles + k
        invariant Valid()
        invariant FillChained(Settings(), State(), forward, draws, i) == chained
      {
        ghost var before := State();
        fault := NextTile(false, forward, DrawAt(draws, i));
        FillChainedStep(Settings(), before, forward, draws, i, State(), fault);
        if fault.Some? {
          return;
        }
        k := k + 1;
        i := i + 1;
      }
      fault := None;
    }

    /**
     * CheckPlayerPosition: compare the player against the head tile on the
     * z chain, then on the x chain, streaming one tile per chain that fires.
     */
    method CheckPlayerPosition(player: Pose, alongZ: Draw, alongX: Draw) returns (fault: Option<Fault>)
      requires Valid()
      modifies this
      ensures Valid()
      ensures var s := CheckStep(Settings(), old(State()), player, alongZ, alongX);
        State() == s.window && fault == s.fault
      ensures fault.None? ==> |currentTiles| == |old(currentTiles)|
      ensures Streamed(Settings(), old(State())) && fault.None? ==> Streamed(Settings(), State())
    {
      ghost var w0 := State();
      CheckShifts(Settings(), w0, player, alongZ, alongX);
      if Streamed(Settings(), w0) {
        CheckStreamed(Settings(), w0, player, alongZ, alongX);
      }
      if currentTiles == [] {
        return Some(EmptyQueue);
      }
      var currentTilePos := currentTiles[0].position;

      var playerAngle := Dot(Forward, player.forward);
      if playerAngle > 0.9 {
        if player.position.z - tileSpacing > currentTilePos.z {
          fault := NextTile(true, player.forward, alongZ);
          if fault.Some? {
            return;
          }
        }
      } else if playerAngle < -0.9 {
        if player.position.z + tileSpacing < currentTilePos.z {
          fault := NextTile(true, player.forward, alongZ);
          if fault.Some? {
            return;
          }
        }
      }

      playerAngle := Dot(Forward, player.right);
      if playerAngle > 0.9 {
        if player.position.x + tileSpacing < currentTilePos.x {
          fault := NextTile(true, player.forward, alongX);
          if fault.Some? {
            return;
          }
        }
      } else if playerAngle < -0.9 {
        if player.position.x - tileSpacing > currentTilePos.x {
          fault := NextTile(true, player.forward, alongX);
          if fault.Some? {
            return;
          }
        }
      }
      fault := None;
    }
  }
}
