/**
 * The streaming window as values: one function per operation of the world
 * generator, each from the old window to the new one. The class in
 * world_generator.dfy is proved to change its fields exactly as these say.
 */
module Streaming {
  import opened Wrappers
  import opened Vectors
  import opened Catalog

  /** The generator's serialized configuration. */
  datatype Config = Config(
    environment: seq<WorldTile>,   // m_worldEnvironmentTiles
    interactables: seq<WorldTile>, // m_worldInteractableTiles
    startingTiles: nat,            // m_startingTiles
    totalTiles: nat,               // m_totalTiles
    tileSpacing: real,             // m_tileSpacing
    tileDistance: real)            // m_tileDistance

  /** An interactable instance: its template index and world position. */
  datatype Interactable = Interactable(template: nat, position: Vec3)

  /**
   * An instantiated environment tile: its template index, the bounding size
   * of its mesh, its world position, and the interactable parented to it.
   */
  datatype Tile = Tile(template: nat, size: Vec3, position: Vec3, interactable: Option<Interactable>)

  /** The generator's mutable state: m_currentTiles (head first), m_nextTilePosition, m_previousInteractable as a catalog index. */
  datatype Window = Window(tiles: seq<Tile>, cursor: Vec3, previous: Option<nat>)

  /** The random draws one spawned tile consumes: environment template, root (first interactable only), successor. */
  datatype Draw = Draw(environment: nat, root: nat, successor: nat)

  /** The player's transform as the generator reads it. */
  datatype Pose = Pose(position: Vec3, forward: Vec3, right: Vec3)

  /** A window after an operation, and the fault it raised, if any. */
  datatype Step = Step(window: Window, fault: Option<Fault>)

  ghost predicate PreviousValid(c: Config, w: Window)
  {
    w.previous.Some? ==> w.previous.value < |c.interactables|
  }

  function Last(tiles: seq<Tile>): Tile
    requires tiles != []
  {
    tiles[|tiles| - 1]
  }

  /** UpdateNextTilePosition: the cursor moves by the tile's size projected on the player's forward x and z, times the tile distance. */
  function NextCursor(cursor: Vec3, size: Vec3, forward: Vec3, distance: real): (r: Vec3)
    ensures r.y == cursor.y
    ensures r.x - cursor.x == size.x * forward.x * distance
    ensures r.z - cursor.z == size.z * forward.z * distance
  {
    Add(cursor, Scale(Vec3(size.x * forward.x, 0.0, size.z * forward.z), distance))
  }

  /** The cursor after placing `tiles`, in order, from `start`. */
  function CursorAfter(start: Vec3, forward: Vec3, distance: real, tiles: seq<Tile>): Vec3
    decreases |tiles|
  {
    if tiles == [] then start
    else NextCursor(CursorAfter(start, forward, distance, tiles[..|tiles| - 1]), Last(tiles).size, forward, distance)
  }

  /** The tiles that stay after the optional dequeue of NextTile. */
  function Kept(tiles: seq<Tile>, destroy: bool): seq<Tile>
    requires destroy ==> tiles != []
  {
    if destroy then tiles[1..] else tiles
  }

  /** One blank tile of InitialiseWorld's first loop: NewTile, UpdateNextTilePosition, Enqueue. */
  function BlankTileStep(c: Config, w: Window, forward: Vec3, draw: nat): (s: Step)
    ensures s.fault.Some? <==> |c.environment| == 0
    ensures s.fault.Some? ==> s == Step(w, Some(NoEnvironmentTiles))
    ensures s.fault.None? ==>
      && s.window.tiles != [] && s.window.tiles[..|s.window.tiles| - 1] == w.tiles
      && var t := Last(s.window.tiles);
         && t.template < |c.environment| && t.size == c.environment[t.template].size
         && t.position == w.cursor && t.interactable.None?
         && s.window.cursor == NextCursor(w.cursor, t.size, forward, c.tileDistance)
         && s.window.previous == w.previous
  {
    match Choose(|c.environment|, draw, NoEnvironmentTiles)
    case Failure(e) => Step(w, Some(e))
    case Success(env) =>
      var tile := Tile(env, c.environment[env].size, w.cursor, None);
      Step(Window(w.tiles + [tile], NextCursor(w.cursor, tile.size, forward, c.tileDistance), w.previous), None)
  }

  /**
   * NextTile(destroy): optionally dequeue the head, instantiate an
   * environment tile at the cursor, parent a chained interactable to it,
   * advance the cursor, enqueue the tile. A fault leaves the work done so far.
   */
  function NextTileStep(c: Config, w: Window, destroy: bool, forward: Vec3, d: Draw): (s: Step)
    requires PreviousValid(c, w)
    ensures PreviousValid(c, s.window)
  {
    if destroy && w.tiles == [] then Step(w, Some(EmptyQueue))
    else
      var kept := Kept(w.tiles, destroy);
      match Choose(|c.environment|, d.environment, NoEnvironmentTiles)
      case Failure(e) => Step(w.(tiles := kept), Some(e))
      case Success(env) =>
        var pick := NextInteractable(c.interactables, w.previous, d.root, d.successor);
        match pick.chosen
        case Failure(e) => Step(w.(tiles := kept, previous := pick.previous), Some(e))
        case Success(i) =>
          var size := c.environment[env].size;
          var tile := Tile(env, size, w.cursor, Some(Interactable(i, w.cursor)));
          Step(Window(kept + [tile], NextCursor(w.cursor, size, forward, c.tileDistance), pick.previous), None)
  }

  /**
   * What NextTile does: on success the head is gone (when destroying), the
   * other tiles keep their order, and one tile stands at the back, placed at
   * the old cursor, with an interactable at its own position drawn from the
   * predecessor's successor list; the cursor has advanced by that tile.
   * A fault leaves the cursor where it was and the work done so far.
   */
  lemma NextTileSpawns(c: Config, w: Window, destroy: bool, forward: Vec3, d: Draw, s: Step)
    requires PreviousValid(c, w)
    requires s == NextTileStep(c, w, destroy, forward, d)
    ensures destroy && w.tiles == [] ==> s == Step(w, Some(EmptyQueue))
    ensures s.fault.Some? ==>
      && s.window.cursor == w.cursor
      && (s.fault == Some(EmptyQueue) || s.window.tiles == Kept(w.tiles, destroy))
    ensures s.fault == Some(NoEnvironmentTiles) ==> s.window.previous == w.previous
    ensures s.fault.Some? && s.fault != Some(EmptyQueue) && s.fault != Some(NoEnvironmentTiles) ==>
      s.window.previous == NextInteractable(c.interactables, w.previous, d.root, d.successor).previous
    ensures s.fault.None? ==>
      && (destroy ==> w.tiles != [])
      && s.window.tiles != [] && s.window.tiles[..|s.window.tiles| - 1] == Kept(w.tiles, destroy)
      && var t := Last(s.window.tiles);
         && t.template < |c.environment| && t.size == c.environment[t.template].size
         && t.position == w.cursor
         && t.interactable.Some? && t.interactable.value.position == t.position
         && t.interactable.value.template < |c.interactables|
         && s.window.previous == Some(t.interactable.value.template)
         && s.window.cursor == NextCursor(w.cursor, t.size, forward, c.tileDistance)
    ensures s.fault.None? && w.previous.Some? ==>
      Last(s.window.tiles).interactable.value.template as int in Successors(c.interactables, w.previous.value)
    ensures s.fault.None? && w.previous.None? ==>
      Last(s.window.tiles).interactable.value.template as int in Successors(c.interactables, Pick(d.root, |c.interactables|))
  {
  }

  /** With a well-formed catalog, NextTile faults only by dequeuing from an empty window. */
  lemma NextTileNeverFaults(c: Config, w: Window, destroy: bool, forward: Vec3, d: Draw)
    requires WellFormed(c.environment, c.interactables)
    requires PreviousValid(c, w)
    requires destroy ==> w.tiles != []
    ensures NextTileStep(c, w, destroy, forward, d).fault.None?
  {
    WellFormedNeverFaults(c.environment, c.interactables, w.previous, d.root, d.successor);
  }

  /** How many tiles InitialiseWorld's two loops spawn: m_startingTiles, then m_totalTiles - m_startingTiles when that is positive. */
  function TileCount(c: Config): (n: nat)
    ensures c.startingTiles <= c.totalTiles ==> n == c.totalTiles
    ensures c.totalTiles < c.startingTiles ==> n == c.startingTiles
  {
    c.startingTiles + (if c.totalTiles > c.startingTiles then c.totalTiles - c.startingTiles else 0)
  }

  /** The draws of tile i of a script; a script that runs out draws zeros. */
  function DrawAt(draws: seq<Draw>, i: nat): Draw
  {
    if i < |draws| then draws[i] else Draw(0, 0, 0)
  }

  /** InitialiseWorld's first loop from tile i on: blank tiles up to m_startingTiles; stops at the first fault. */
  function FillBlank(c: Config, w: Window, forward: Vec3, draws: seq<Draw>, i: nat): (s: Step)
    requires PreviousValid(c, w)
    ensures PreviousValid(c, s.window)
    decreases c.startingTiles - i
  {
    if i >= c.startingTiles then Step(w, None)
    else
      var s := BlankTileStep(c, w, forward, DrawAt(draws, i).environment);
      if s.fault.Some? then s else FillBlank(c, s.window, forward, draws, i + 1)
  }

  /**
   * InitialiseWorld's second loop from tile i on: NextTile(false) while
   * i < m_totalTiles (the loop runs m_totalTiles - m_startingTiles times from
   * i == m_startingTiles, and not at all when that is not positive).
   */
  function FillChained(c: Config, w: Window, forward: Vec3, draws: seq<Draw>, i: nat): (s: Step)
    requires PreviousValid(c, w)
    ensures PreviousValid(c, s.window)
    decreases c.totalTiles - i
  {
    if i >= c.totalTiles then Step(w, None)
    else
      var s := NextTileStep(c, w, false, forward, DrawAt(draws, i));
      if s.fault.Some? then s else FillChained(c, s.window, forward, draws, i + 1)
  }

  /**
   * InitialiseWorld: a fresh queue, then both loops; tile i takes DrawAt(draws, i).
   * The cursor and the previous interactable are not reset.
   */
  function InitialiseStep(c: Config, w: Window, forward: Vec3, draws: seq<Draw>): (s: Step)
    requires PreviousValid(c, w)
    ensures PreviousValid(c, s.window)
  {
    var blank := FillBlank(c, w.(tiles := []), forward, draws, 0);
    if blank.fault.Some? then blank else FillChained(c, blank.window, forward, draws, c.startingTiles)
  }

  /** A facing test of CheckPlayerPosition: the dot product against 0.9, strictly. */
  datatype Facing = Positive | Negative | Off

  function Classify(dot: real): (f: Facing)
    ensures f == Positive <==> dot > 0.9
    ensures f == Negative <==> dot < -0.9
    ensures f == Off <==> -0.9 <= dot <= 0.9
  {
    if dot > 0.9 then Positive else if dot < -0.9 then Negative else Off
  }

  /** +1, -1 or 0 for the direction along an axis that a facing stands for. */
  function Sign(f: Facing): real
  {
    match f
    case Positive => 1.0
    case Negative => -1.0
    case Off => 0.0
  }

  /**
   * The z chain of CheckPlayerPosition (forward · Vector3.forward): fires
   * when the player is more than the tile spacing past the head tile along
   * z, in the direction the player faces.
   */
  function ZChainFires(spacing: real, pose: Pose, head: Vec3): (r: bool)
    ensures r <==>
      var s := Sign(Classify(pose.forward.z));
      s != 0.0 && (pose.position.z - head.z) * s > spacing
  {
    DotForward(pose.forward);
    match Classify(Dot(Forward, pose.forward))
    case Positive => pose.position.z - spacing > head.z
    case Negative => pose.position.z + spacing < head.z
    case Off => false
  }

  /**
   * The x chain (right · Vector3.forward): right.z > 0.9 means the player
   * travels towards -x, right.z < -0.9 towards +x; fires when the player is
   * more than the tile spacing past the head tile in that direction.
   */
  function XChainFires(spacing: real, pose: Pose, head: Vec3): (r: bool)
    ensures r <==>
      var s := Sign(Classify(pose.right.z));
      s != 0.0 && (head.x - pose.position.x) * s > spacing
  {
    DotForward(pose.right);
    match Classify(Dot(Forward, pose.right))
    case Positive => pose.position.x + spacing < head.x
    case Negative => pose.position.x - spacing > head.x
    case Off => false
  }

  /** How many evict-and-append cycles one tick asks for: one per firing chain. */
  function Advances(spacing: real, pose: Pose, head: Vec3): (n: nat)
    ensures n <= 2
    ensures n == 0 <==> !ZChainFires(spacing, pose, head) && !XChainFires(spacing, pose, head)
  {
    (if ZChainFires(spacing, pose, head) then 1 else 0) + (if XChainFires(spacing, pose, head) then 1 else 0)
  }

  /**
   * CheckPlayerPosition: peek at the head, run the z chain, then the x chain
   * against the SAME head position (a copy taken before either chain), each
   * calling NextTile() at most once; a fault in the first stops the tick.
   */
  function CheckStep(c: Config, w: Window, pose: Pose, alongZ: Draw, alongX: Draw): (s: Step)
    requires PreviousValid(c, w)
    ensures PreviousValid(c, s.window)
  {
    if w.tiles == [] then Step(w, Some(EmptyQueue))
    else
      var head := w.tiles[0].position;
      var first := if ZChainFires(c.tileSpacing, pose, head) then NextTileStep(c, w, true, pose.forward, alongZ)
                   else Step(w, None);
      if first.fault.Some? || !XChainFires(c.tileSpacing, pose, head) then first
      else NextTileStep(c, first.window, true, pose.forward, alongX)
  }

  /** One Update call: the pose read that frame and the draws of the (at most two) spawned tiles. */
  datatype Tick = Tick(pose: Pose, alongZ: Draw, alongX: Draw)

  /**
   * Successive Update calls. An exception escaping Update does not stop the
   * engine: the next frame's tick starts from whatever state the faulting one
   * left. The reported fault is the first one raised, if any.
   */
  function Run(c: Config, w: Window, ticks: seq<Tick>): (s: Step)
    requires PreviousValid(c, w)
    ensures PreviousValid(c, s.window)
    decreases |ticks|
  {
    if ticks == [] then Step(w, None)
    else
      var s := CheckStep(c, w, ticks[0].pose, ticks[0].alongZ, ticks[0].alongX);
      var rest := Run(c, s.window, ticks[1..]);
      Step(rest.window, if s.fault.Some? then s.fault else rest.fault)
  }
}
