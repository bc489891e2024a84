# World generator: tile streaming, modelled in Dafny

This project models the tile-streaming world generator of an endless-runner
game (`WorldGenerator` in `Assets/Scripts/World/WorldGenerator.cs`) and proves
properties of the model.

The generator keeps a FIFO window of environment tiles in front of the
player.

- **Start** (`InitialiseWorld`): the generator lays `m_startingTiles` blank
  tiles, then `m_totalTiles - m_startingTiles` tiles that each carry an
  interactable.
- **Every frame** (`CheckPlayerPosition`): it compares the player with the
  head of the window, in two independent tests, one on z and one on x. For
  each test that fires, `NextTile` evicts the head and appends a new tile at
  the placement cursor `m_nextTilePosition`.
- **Cursor** (`UpdateNextTilePosition`): after each tile, the cursor moves by
  the tile's size, projected on the player's forward x and z and scaled by
  `m_tileDistance`.
- **Interactables** (`NewInteractable`): each one is drawn from the successor
  list (`nextTileIndex`) of the previous one. Before the first, a random root
  is chosen, and the first interactable is one of the root's successors.

The model has these modules:

- `Wrappers`: `Option` and `Result`.
- `Vectors`: `Vector3` over the reals.
- `Catalog`: the template lists, the random pick, the successor lookup, and
  `NewInteractable` as a function.
- `Streaming`: every operation as a function from the old state (a `Window`
  holding the tiles, the cursor and the previous interactable) to the new
  state and the fault raised, if any.
- `Layout`: what `InitialiseWorld` builds.
- `Eviction`: what `CheckPlayerPosition` does, tick after tick.
- `Progress`: the cursor moving strictly forward, at start and while streaming.
- `WorldGeneration`: the class `WorldGenerator`. Its fields are the
  component's fields, and its methods follow the source statement by
  statement. Each method is proved to change the fields exactly as the
  matching `Streaming` function says.

The generator's behaviour is modelled as follows:

- **Random draws.** `UnityEngine.Random.Range(0, n)` is `Catalog.Pick(draw, n)`. The caller supplies the draw: `draw % n`, and `0` when `n == 0`. Every value `Random.Range` can return comes from some draw.
  - `NextTile` takes one `Draw` holding the environment, root and successor draws.
  - `InitialiseWorld` takes a script of draws, `seq<Draw>`, where tile `i` uses entry `i`. A script that is too short draws zeros. Lemmas quantify over all scripts, so every sequence of random results is covered.
- **Exceptions.** The exceptions the code can raise become values of type `Fault`:
  - `Peek` or `Dequeue` on an empty queue.
  - Indexing an empty template list or an empty `nextTileIndex`.
  - A `nextTileIndex` entry that is not a catalog index.

  On a fault the model keeps the state the code has already changed. `NextTile(true)` has already dequeued the head. `NewInteractable` may already have stored the root as the previous interactable.
- **Previous interactable.** `m_previousInteractable` is held as a catalog index. The code stores a fresh `WorldTile` whose `nextTileIndex` is the catalog entry's list, so the successor walk is the same.
- **Where descriptions of the generator and the code disagree, the model follows the code:**
  - `InitialiseWorld` does not reset the cursor or the previous interactable.
  - The first interactable placed is a successor of the root, not the root itself.
  - The x test is an independent `if`, not an `else` of the z test, so for an arbitrary `Pose` both can fire and one tick streams two tiles. A rigid transform, whose forward and right are orthonormal, fires at most one (`Eviction.RigidPoseOneChain`).
  - The x test compares against the head position read before the z test streamed a tile.
  - `m_totalTiles < m_startingTiles` is not rejected: the second loop then runs zero times and the window holds `m_startingTiles` tiles (`Streaming.TileCount`).
  - A fault in the middle of `NextTile` leaves a window one tile short.
  - The cursor step keeps x and z both scaled by the player's forward x and z. Only y is left unchanged.

## Model

| member | source | states |
|---|---|---|
| Vectors.DotForward | Assets/Scripts/World/WorldGenerator.cs:74 | `Vector3.Dot(Vector3.forward, v)` is `v.z`, the quantity both facing tests compare with ±0.9 |
| Catalog.Pick | Assets/Scripts/World/WorldGenerator.cs:139 | `Random.Range(0, n)` yields an index below `n` when `n > 0` and `0` when `n == 0`; every in-range value is produced by some draw |
| Catalog.Choose | Assets/Scripts/World/WorldGenerator.cs:139-140 | indexing a list with `Random.Range(0, Count)` succeeds exactly when the list is non-empty, with an index in range, and raises otherwise |
| Catalog.SuccessorIndex | Assets/Scripts/World/WorldGenerator.cs:151-155 | the successor lookup faults on an empty list; when it succeeds the result is a catalog index that occurs in the predecessor's successor list; it succeeds exactly when the list is non-empty and the drawn entry is a catalog index |
| Catalog.SuccessorReachable | Assets/Scripts/World/WorldGenerator.cs:151-152 | every entry of a successor list that is a catalog index is chosen by some draw |
| Catalog.Predecessor | Assets/Scripts/World/WorldGenerator.cs:146-149 | the walk continues from the previous interactable when there is one; otherwise from a random root, which fails exactly when the interactable list is empty |
| Catalog.NextInteractable | Assets/Scripts/World/WorldGenerator.cs:144-160 | a placed interactable is drawn from the successor list of the previous one, or of the root when there was none, and becomes the previous interactable; on a fault the previous interactable is the root already stored, or unchanged; an empty catalog faults and leaves no previous interactable |
| Catalog.WellFormedNeverFaults | Assets/Scripts/World/WorldGenerator.cs:144-160 | when every list is non-empty and every successor entry is a catalog index, `NewInteractable` never raises, whatever the draws |
| Streaming.NextCursor | Assets/Scripts/World/WorldGenerator.cs:130-135 | the cursor's y is unchanged; its x and z grow by size.x·forward.x·distance and size.z·forward.z·distance |
| Streaming.BlankTileStep | Assets/Scripts/World/WorldGenerator.cs:51-56 | one iteration of the first loop raises exactly when there are no environment templates, and then changes nothing; otherwise it appends one blank tile of a valid template and its size at the old cursor, and advances the cursor by that tile, leaving the previous interactable alone |
| Streaming.NextTileStep | Assets/Scripts/World/WorldGenerator.cs:115-128 | NextTile keeps the previous interactable a catalog index |
| Streaming.NextTileSpawns | Assets/Scripts/World/WorldGenerator.cs:115-128 | NextTile(true) on an empty queue raises; on success the head is gone (when destroying), the other tiles keep their order, one new tile at the old cursor carries an interactable at its own position drawn from the previous interactable's (or the root's) successor list, the previous interactable is that template and the cursor has moved by the tile; on a fault the cursor is unchanged and the dequeue already done stays done |
| Streaming.NextTileNeverFaults | Assets/Scripts/World/WorldGenerator.cs:115-128 | with a well-formed catalog NextTile raises only when dequeuing from an empty queue |
| Streaming.TileCount | Assets/Scripts/World/WorldGenerator.cs:50-58 | the two loops spawn `m_totalTiles` tiles when `m_startingTiles <= m_totalTiles` and `m_startingTiles` otherwise |
| Streaming.FillBlank | Assets/Scripts/World/WorldGenerator.cs:50-55 | the first loop keeps the previous interactable a catalog index |
| Streaming.FillChained | Assets/Scripts/World/WorldGenerator.cs:57-60 | the second loop keeps the previous interactable a catalog index |
| Streaming.InitialiseStep | Assets/Scripts/World/WorldGenerator.cs:47-62 | InitialiseWorld keeps the previous interactable a catalog index |
| Streaming.Classify | Assets/Scripts/World/WorldGenerator.cs:76-105 | a dot product is classed positive exactly when it is strictly above 0.9, negative exactly when strictly below -0.9, and off otherwise (the `0.9f` tests of lines 76, 84, 96 and 105) |
| Streaming.ZChainFires | Assets/Scripts/World/WorldGenerator.cs:73-91 | the z test fires exactly when forward·(0,0,1) is beyond ±0.9 and the player is strictly more than the spacing past the head's z in that direction |
| Streaming.XChainFires | Assets/Scripts/World/WorldGenerator.cs:93-112 | the x test fires exactly when right·(0,0,1) is beyond ±0.9 and the player is strictly more than the spacing past the head's x in the travel direction (-x for right.z > 0.9, +x for right.z < -0.9) |
| Streaming.Advances | Assets/Scripts/World/WorldGenerator.cs:73-112 | one tick asks for at most two evict-and-append cycles, none exactly when neither test fires |
| Streaming.CheckStep | Assets/Scripts/World/WorldGenerator.cs:69-113 | a tick keeps the previous interactable a catalog index |
| Streaming.Run | Assets/Scripts/World/WorldGenerator.cs:64-67 | successive Update calls, each starting from the state the previous one left even when it raised (an exception escaping Update does not stop the next frame), keep the previous interactable a catalog index |
| Layout.FillBlankLaid | Assets/Scripts/World/WorldGenerator.cs:50-55 | the first loop, when it does not raise, leaves exactly `m_startingTiles` blank, valid tiles, each at the cursor the tiles before it left |
| Layout.ChainedStepLaid | Assets/Scripts/World/WorldGenerator.cs:57-60 | one NextTile(false) of the second loop extends the layout by one chained tile |
| Layout.FillChainedLaid | Assets/Scripts/World/WorldGenerator.cs:57-60 | the second loop, when it does not raise, fills the window up to the tile count, each tile chained to the one before |
| Layout.InitialiseLaysOut | Assets/Scripts/World/WorldGenerator.cs:47-62 | after InitialiseWorld without a fault the window holds `m_totalTiles` tiles (given `m_startingTiles <= m_totalTiles`); exactly the first `m_startingTiles` lack an interactable; each tile's interactable sits at the tile's position; each tile stands where the cursor was after the tiles before it; each chained interactable is a successor of the one before, the first of the old previous interactable or of a root; the cursor and previous interactable are those the walk leaves |
| Layout.FillBlankNeverFaults | Assets/Scripts/World/WorldGenerator.cs:50-55 | with an environment template the first loop never raises |
| Layout.FillChainedNeverFaults | Assets/Scripts/World/WorldGenerator.cs:57-60 | with a well-formed catalog the second loop never raises |
| Layout.InitialiseOutcome | Assets/Scripts/World/WorldGenerator.cs:47-62 | InitialiseWorld without a fault leaves as many tiles as its loops spawn, and with a well-formed catalog it never raises |
| Layout.InitialiseWellFormed | Assets/Scripts/World/WorldGenerator.cs:47-62 | with a well-formed catalog InitialiseWorld completes, with the full layout |
| Layout.InitialiseFaults | Assets/Scripts/World/WorldGenerator.cs:47-62 | with no environment templates InitialiseWorld raises on its first tile and leaves an empty queue; with environment but no interactable templates it lays the blank tiles and raises on the first chained one, with no previous interactable |
| Layout.CursorKeepsHeight | Assets/Scripts/World/WorldGenerator.cs:134 | the cursor's y never changes, whatever the facing |
| Layout.CursorAlongZ | Assets/Scripts/World/WorldGenerator.cs:130-135 | facing +z, k tiles of depth sz move the cursor by k·sz·distance along z and not at all along x |
| Layout.CursorAdvances | Assets/Scripts/World/WorldGenerator.cs:130-135 | with forward.z > 0, positive depths and a positive distance, the cursor strictly advances along z with every tile |
| Layout.LaidAlongZ | Assets/Scripts/World/WorldGenerator.cs:47-62 | the tiles InitialiseWorld lays while facing +z stand at strictly increasing z |
| Layout.TwoBlankOfFive | Assets/Scripts/World/WorldGenerator.cs:30-35 | with the default counts (2 and 5), one 10-deep environment template and one self-following interactable, InitialiseWorld from the origin facing +z yields five tiles, two blank then three carrying template 0 at their own positions, and the cursor at z = 50 |
| Eviction.EvictShifts | Assets/Scripts/World/WorldGenerator.cs:117-127 | NextTile(true) removes exactly the head and appends one tile carrying an interactable; the rest keep their order |
| Eviction.CheckShifts | Assets/Scripts/World/WorldGenerator.cs:69-113 | a tick raises on an empty queue and changes nothing; otherwise, when it does not raise, the window keeps its length and is shifted by the number of tests that fired on the head, and a tick where no test fires changes nothing |
| Eviction.StreamsPastSpacing | Assets/Scripts/World/WorldGenerator.cs:76-81 | facing +z with spacing 25 and the head at z 0, z 26 streams one tile and z 25 none (strict comparison); with the head at z 10, z 26.1 streams none |
| Eviction.OffAxisStalls | Assets/Scripts/World/WorldGenerator.cs:73-112 | when both dot products lie in [-0.9, 0.9] a tick does nothing |
| Eviction.RigidPoseOneChain | Assets/Scripts/World/WorldGenerator.cs:74-105 | for orthonormal forward and right vectors at most one of the two tests can pass, so one tick streams at most one tile |
| Eviction.LaidStreamed | Assets/Scripts/World/WorldGenerator.cs:47-62 | InitialiseWorld's layout satisfies the streaming invariant (valid tiles, each interactable followed by one of its successors, the previous interactable on the last tile) |
| Eviction.EvictStreamed | Assets/Scripts/World/WorldGenerator.cs:115-128 | NextTile(true) keeps the streaming invariant |
| Eviction.CheckStreamed | Assets/Scripts/World/WorldGenerator.cs:69-113 | a tick keeps the streaming invariant |
| Eviction.CheckNeverFaults | Assets/Scripts/World/WorldGenerator.cs:69-113 | with a well-formed catalog a tick on a non-empty window never raises |
| Eviction.RunKeepsWindow | Assets/Scripts/World/WorldGenerator.cs:64-67 | any sequence of Update calls on a non-empty window with a well-formed catalog never raises, keeps the window's length and invariant, and leaves the old window shifted by the tiles streamed |
| Eviction.CheckFaultLosesTile | Assets/Scripts/World/WorldGenerator.cs:69-128 | a tick never grows the window; one that raises either found the queue empty at Peek and changed nothing, or raised inside a NextTile after its dequeue and left the window one tile shorter |
| Eviction.RunNeverGrows | Assets/Scripts/World/WorldGenerator.cs:64-67 | whatever the catalog and however the ticks raise, Update calls never make the window longer |
| Eviction.EmptyRunStalls | Assets/Scripts/World/WorldGenerator.cs:64-71 | once the queue is empty, every later Update raises at Peek and changes nothing |
| Eviction.StreamingWindow | Assets/Scripts/World/WorldGenerator.cs:41-67 | Start followed by any number of Update calls, with a well-formed catalog: the window always holds `m_totalTiles` tiles (the larger count in general), it is the initial layout shifted by some k, its blank tiles are exactly the initial blank tiles not yet evicted by that shift, and every interactable is a successor of the one before it |
| Progress.NextCursorAdvances | Assets/Scripts/World/WorldGenerator.cs:130-135 | with positive tile sizes on x and z, a positive tile distance and a forward with an x-z part, one cursor step moves the cursor strictly along forward: (r.x-c.x)·forward.x + (r.z-c.z)·forward.z > 0 |
| Progress.BlankAhead | Assets/Scripts/World/WorldGenerator.cs:52-54 | a blank tile of the first loop stands at the cursor and the cursor moves strictly beyond it |
| Progress.NextTileAhead | Assets/Scripts/World/WorldGenerator.cs:115-128 | NextTile keeps the tiles in strictly increasing order along forward with the cursor beyond them; on success the cursor has moved strictly ahead, on a fault it has not moved |
| Progress.CheckAhead | Assets/Scripts/World/WorldGenerator.cs:69-113 | a tick facing forward keeps that order and never moves the cursor back |
| Progress.RunAhead | Assets/Scripts/World/WorldGenerator.cs:64-67 | any run of Update calls with one facing, faults included, keeps that order and never moves the cursor back |
| Progress.FillBlankAhead | Assets/Scripts/World/WorldGenerator.cs:50-55 | the first loop keeps the order along its facing |
| Progress.FillChainedAhead | Assets/Scripts/World/WorldGenerator.cs:57-60 | the second loop keeps the order along its facing |
| Progress.StreamingAhead | Assets/Scripts/World/WorldGenerator.cs:41-67 | Start and any number of Update calls with one facing, faults included: every tile of the window stands strictly further along forward than the one before it, the cursor beyond the last, and the cursor never falls behind where Start left it |
| WorldGeneration.WorldGenerator.constructor | Assets/Scripts/World/WorldGenerator.cs:25-38 | the component starts with no tiles, the cursor at `Vector3.zero` and no previous interactable |
| WorldGeneration.WorldGenerator.NewTile | Assets/Scripts/World/WorldGenerator.cs:137-142 | raises exactly when there are no environment templates; otherwise returns a blank tile of the drawn template, with that template's size, at the cursor |
| WorldGeneration.WorldGenerator.NewInteractable | Assets/Scripts/World/WorldGenerator.cs:144-160 | updates the previous interactable and returns the placed interactable at the cursor, or the fault, exactly as `Catalog.NextInteractable` |
| WorldGeneration.WorldGenerator.UpdateNextTilePosition | Assets/Scripts/World/WorldGenerator.cs:130-135 | moves the cursor to `Streaming.NextCursor` of the old one, keeping its height |
| WorldGeneration.WorldGenerator.NextTile | Assets/Scripts/World/WorldGenerator.cs:115-128 | changes the window exactly as `Streaming.NextTileStep`; without a fault the queue is one longer (or as long, when destroying) and keeps the old tiles (less the head) in order before the new one |
| WorldGeneration.WorldGenerator.StartingTile | Assets/Scripts/World/WorldGenerator.cs:52-54 | the body of InitialiseWorld's first loop changes the window exactly as `Streaming.BlankTileStep` |
| WorldGeneration.WorldGenerator.InitialiseWorld | Assets/Scripts/World/WorldGenerator.cs:47-62 | its two counting loops change the window exactly as `Streaming.InitialiseStep`, whose layout, length and faults the `Layout` lemmas state |
| WorldGeneration.WorldGenerator.CheckPlayerPosition | Assets/Scripts/World/WorldGenerator.cs:69-113 | changes the window exactly as `Streaming.CheckStep`; without a fault the queue keeps its length, and the streaming invariant is kept |

## Left out

- Unity object lifetime and the scene graph (`Instantiate`, `Destroy`, `SetParent`, the rotation a tile is spawned with, `GetComponent<MeshFilter>().mesh.bounds`): a tile is a record holding its template, the size of its template, its position and its interactable. When `NewInteractable` raises inside `NextTile`, the environment tile that `NewTile` has already instantiated (line 140) stays parented to the generator, never enqueued and never destroyed; the model does not represent that orphaned tile.
- `UnityEngine.Random.Range`: modelled only as `Catalog.Pick` over caller-supplied draws, not as a distribution.
- `m_playerTransform`: read as a `Pose` argument (position, forward, right). `TransformDirection(Vector3.forward)` is the pose's forward vector.
- Float rounding: `Vector3` and `float` arithmetic are modelled on the reals, and `0.9f` is the real 0.9.
- Fractional tile counts: `m_startingTiles` and `m_totalTiles` are `float` in the code; the model takes them as natural numbers.
- `Debug.Log` calls: no effect on the state.
- Unity's scheduling of `Start` and `Update`: modelled as `InitialiseWorld` followed by a sequence of ticks (`Streaming.Run`); an exception logged by the engine is modelled by the next tick starting from the state the faulting one left, and `Streaming.Run` reports the first fault. `CheckPlayerPosition` before `Start`, when the queue is still `null`, is not modelled.
- WorldGeneration.WorldGenerator.InitialiseWorld: its contract ties the new state to `Streaming.InitialiseStep`; the tile count, the layout and the no-fault guarantee are stated about that function by `Layout.InitialiseLaysOut`, `Layout.InitialiseOutcome` and `Layout.InitialiseFaults`, not repeated in the method's own `ensures`.
- The other scripts of the game (managers, user interface, player controller, camera) are not part of this model.
