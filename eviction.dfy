/**
 * What CheckPlayerPosition does to the window, tick after tick: only the
 * head is compared, each firing chain evicts the head and appends one
 * chained tile, so the window keeps its length and its successor chain.
 */
module Eviction {
  import opened Wrappers
  import opened Vectors
  import opened Catalog
  import opened Streaming
  import opened Layout

  /**
   * `now` is `before` with its first k tiles evicted and k tiles appended, each
   * carrying an interactable (`now == (before + news)[k..]`).
   */
  ghost predicate ShiftedBy(before: seq<Tile>, now: seq<Tile>, k: nat)
  {
    && |now| == |before|
    && (forall j :: 0 <= j < |now| && j + k < |before| ==> now[j] == before[j + k])
    && (forall j :: 0 <= j < |now| && j + k >= |before| ==> now[j].interactable.Some?)
  }

  lemma ShiftCompose(a: seq<Tile>, b: seq<Tile>, c: seq<Tile>, k1: nat, k2: nat)
    requires ShiftedBy(a, b, k1) && ShiftedBy(b, c, k2)
    ensures ShiftedBy(a, c, k1 + k2)
  {
    forall j | 0 <= j < |c| && j + k1 + k2 < |a| ensures c[j] == a[j + k1 + k2] {
      assert c[j] == b[j + k2];
    }
    forall j | 0 <= j < |c| && j + k1 + k2 >= |a| ensures c[j].interactable.Some? {
      if j + k2 < |b| {
        assert c[j] == b[j + k2];
      }
    }
  }

  /** NextTile(true): exactly the head leaves, one chained tile joins at the back. */
  lemma EvictShifts(c: Config, w: Window, forward: Vec3, d: Draw, s: Step)
    requires PreviousValid(c, w)
    requires s == NextTileStep(c, w, true, forward, d)
    ensures s.fault.None? ==> ShiftedBy(w.tiles, s.window.tiles, 1)
  {
    NextTileSpawns(c, w, true, forward, d, s);
    if s.fault.None? {
      var now := s.window.tiles;
      forall j | 0 <= j < |now| && j + 1 < |w.tiles| ensures now[j] == w.tiles[j + 1] {
        assert now[j] == now[..|now| - 1][j];
      }
    }
  }

  /**
   * One tick, when it does not fault, evicts the first Advances(head) tiles
   * and appends as many chained ones: the decision reads only the head, the
   * length is kept, and a tick whose chains do not fire changes nothing.
   */
  lemma CheckShifts(c: Config, w: Window, pose: Pose, alongZ: Draw, alongX: Draw)
    requires PreviousValid(c, w)
    ensures var s := CheckStep(c, w, pose, alongZ, alongX);
      && (w.tiles == [] <==> s.fault == Some(EmptyQueue) && s.window == w)
      && (s.fault.None? ==>
            && |s.window.tiles| == |w.tiles|
            && ShiftedBy(w.tiles, s.window.tiles, Advances(c.tileSpacing, pose, w.tiles[0].position)))
      && (w.tiles != [] && Advances(c.tileSpacing, pose, w.tiles[0].position) == 0 ==> s == Step(w, None))
  {
    if w.tiles != [] {
      HeadShifts(c, w, pose, alongZ, alongX, CheckStep(c, w, pose, alongZ, alongX));
    }
  }

  /** CheckShifts on a non-empty window, for the step `s` the tick takes. */
  lemma HeadShifts(c: Config, w: Window, pose: Pose, alongZ: Draw, alongX: Draw, s: Step)
    requires PreviousValid(c, w) && w.tiles != []
    requires s == CheckStep(c, w, pose, alongZ, alongX)
    ensures s.fault != Some(EmptyQueue)
    ensures s.fault.None? ==> ShiftedBy(w.tiles, s.window.tiles, Advances(c.tileSpacing, pose, w.tiles[0].position))
    ensures Advances(c.tileSpacing, pose, w.tiles[0].position) == 0 ==> s == Step(w, None)
  {
    var head := w.tiles[0].position;
    var z, x := ZChainFires(c.tileSpacing, pose, head), XChainFires(c.tileSpacing, pose, head);
    var first := if z then NextTileStep(c, w, true, pose.forward, alongZ) else Step(w, None);
    var k1: nat := if z then 1 else 0;
    if z {
      EvictShifts(c, w, pose.forward, alongZ, first);
    }
    if first.fault.None? {
      assert ShiftedBy(w.tiles, first.window.tiles, k1);
      if x {
        EvictShifts(c, first.window, pose.forward, alongX, s);
        if s.fault.None? {
          ShiftCompose(w.tiles, first.window.tiles, s.window.tiles, k1, 1);
        }
      }
    }
  }

  /** Scenario: facing +z, 25 spacing, head at z 0: at z 26 one tile is streamed; with the next head at z 10, z 26.1 streams none. */
  lemma StreamsPastSpacing(p: Pose)
    requires p.forward == Forward && p.right == Vec3(1.0, 0.0, 0.0)
    ensures p.position.z == 26.0 ==> Advances(25.0, p, Zero) == 1
    ensures p.position.z == 26.1 ==> Advances(25.0, p, Vec3(0.0, 0.0, 10.0)) == 0
    ensures p.position.z == 25.0 ==> Advances(25.0, p, Zero) == 0
  {
  }

  /** When neither dot product leaves [-0.9, 0.9] the tick does nothing at all. */
  lemma OffAxisStalls(c: Config, w: Window, pose: Pose, alongZ: Draw, alongX: Draw)
    requires PreviousValid(c, w) && w.tiles != []
    requires -0.9 <= pose.forward.z <= 0.9 && -0.9 <= pose.right.z <= 0.9
    ensures CheckStep(c, w, pose, alongZ, alongX) == Step(w, None)
  {
    CheckShifts(c, w, pose, alongZ, alongX);
  }

  /**
   * For a rigid pose (forward and right orthonormal) the two facing tests
   * cannot both pass, since forward.z^2 + right.z^2 <= 1 < 2 * 0.81: a tick
   * then streams at most one tile.
   */
  lemma RigidPoseOneChain(pose: Pose, spacing: real, head: Vec3)
    requires Dot(pose.forward, pose.forward) == 1.0 && Dot(pose.right, pose.right) == 1.0
    requires Dot(pose.forward, pose.right) == 0.0
    ensures Classify(pose.forward.z) == Off || Classify(pose.right.z) == Off
    ensures Advances(spacing, pose, head) <= 1
  {
    var f, r := pose.forward, pose.right;
    var a, b := f.z, r.z;
    // The rest of Vector3.forward after projecting on forward and right has non-negative length.
    var v := Vec3(0.0 - a * f.x - b * r.x, 0.0 - a * f.y - b * r.y, 1.0 - a * f.z - b * r.z);
    assert Dot(v, v) >= 0.0 by {
      assert v.x * v.x >= 0.0 && v.y * v.y >= 0.0 && v.z * v.z >= 0.0;
    }
    assert Dot(v, v) == 1.0 - a * a - b * b by {
      assert Dot(v, v) == 1.0 - 2.0 * a * a - 2.0 * b * b + a * a * Dot(f, f) + b * b * Dot(r, r) + 2.0 * a * b * Dot(f, r);
    }
    if Classify(a) != Off && Classify(b) != Off {
      assert false;
    }
  }

  /** Every tile that carries an interactable is followed by a tile whose interactable is one of its successors. */
  ghost predicate Linked(c: Config, ts: seq<Tile>)
  {
    forall j :: 0 <= j && j + 1 < |ts| && ts[j].interactable.Some? ==>
      FollowsTemplate(c, ts[j].interactable.value.template, ts[j + 1])
  }

  /** The window invariant the generator keeps: valid tiles, linked interactables, the walk's cursor on the last one. */
  ghost predicate Streamed(c: Config, w: Window)
  {
    && AllValid(c, w.tiles)
    && Linked(c, w.tiles)
    && (w.tiles != [] && Last(w.tiles).interactable.Some? ==>
          w.previous == Some(Last(w.tiles).interactable.value.template))
  }

  /** InitialiseWorld establishes the invariant. */
  lemma LaidStreamed(c: Config, w0: Window, forward: Vec3, w: Window)
    requires Laid(c, w0, forward, w)
    ensures Streamed(c, w)
  {
    forall j | 0 <= j && j + 1 < |w.tiles| && w.tiles[j].interactable.Some?
      ensures FollowsTemplate(c, w.tiles[j].interactable.value.template, w.tiles[j + 1])
    {
      assert Follows(c, w.tiles[j], w.tiles[j + 1]);
    }
  }

  /** NextTile(true) keeps the invariant: the new tile follows m_previousInteractable, which was the old last tile's template. */
  lemma EvictStreamed(c: Config, w: Window, forward: Vec3, d: Draw)
    requires PreviousValid(c, w) && Streamed(c, w)
    ensures var s := NextTileStep(c, w, true, forward, d);
      s.fault.None? ==> Streamed(c, s.window)
  {
    var s := NextTileStep(c, w, true, forward, d);
    if s.fault.None? {
      var now, t := s.window.tiles, Last(s.window.tiles);
      var kept := w.tiles[1..];
      assert now == kept + [t];
      assert TileValid(c, t);
      forall j | 0 <= j && j + 1 < |now| && now[j].interactable.Some?
        ensures FollowsTemplate(c, now[j].interactable.value.template, now[j + 1])
      {
        if j + 1 < |kept| {
          assert now[j] == w.tiles[j + 1] && now[j + 1] == w.tiles[j + 2];
        } else {
          assert now[j] == Last(w.tiles) && now[j + 1] == t;
        }
      }
    }
  }

  /** One tick keeps the invariant. */
  lemma CheckStreamed(c: Config, w: Window, pose: Pose, alongZ: Draw, alongX: Draw)
    requires PreviousValid(c, w) && Streamed(c, w)
    ensures var s := CheckStep(c, w, pose, alongZ, alongX);
      s.fault.None? ==> Streamed(c, s.window)
  {
    if w.tiles != [] {
      var head := w.tiles[0].position;
      if ZChainFires(c.tileSpacing, pose, head) {
        EvictStreamed(c, w, pose.forward, alongZ);
      }
      var first := if ZChainFires(c.tileSpacing, pose, head) then NextTileStep(c, w, true, pose.forward, alongZ)
                   else Step(w, None);
      if first.fault.None? && XChainFires(c.tileSpacing, pose, head) {
        EvictStreamed(c, first.window, pose.forward, alongX);
      }
    }
  }

  /** With a well-formed catalog a tick on a non-empty window never faults. */
  lemma CheckNeverFaults(c: Config, w: Window, pose: Pose, alongZ: Draw, alongX: Draw)
    requires WellFormed(c.environment, c.interactables) && PreviousValid(c, w) && w.tiles != []
    ensures CheckStep(c, w, pose, alongZ, alongX).fault.None?
  {
    var head := w.tiles[0].position;
    NextTileNeverFaults(c, w, true, pose.forward, alongZ);
    var first := if ZChainFires(c.tileSpacing, pose, head) then NextTileStep(c, w, true, pose.forward, alongZ)
                 else Step(w, None);
    CheckShifts(c, w, pose, alongZ, alongX);
    NextTileNeverFaults(c, first.window, true, pose.forward, alongX);
  }

  /**
   * Any sequence of ticks over a well-formed catalog and a non-empty window:
   * no fault, the length is kept, the window is the old one shifted by the
   * number of streamed tiles, and the invariant holds throughout.
   */
  lemma {:induction false} RunKeepsWindow(c: Config, w: Window, ticks: seq<Tick>)
    requires WellFormed(c.environment, c.interactables) && PreviousValid(c, w) && w.tiles != []
    requires Streamed(c, w)
    ensures var s := Run(c, w, ticks);
      && s.fault.None?
      && |s.window.tiles| == |w.tiles|
      && Streamed(c, s.window)
      && exists k: nat :: ShiftedBy(w.tiles, s.window.tiles, k)
    decreases |ticks|
  {
    if ticks == [] {
      assert ShiftedBy(w.tiles, w.tiles, 0);
    } else {
      var t := ticks[0];
      var s := CheckStep(c, w, t.pose, t.alongZ, t.alongX);
      CheckNeverFaults(c, w, t.pose, t.alongZ, t.alongX);
      CheckShifts(c, w, t.pose, t.alongZ, t.alongX);
      CheckStreamed(c, w, t.pose, t.alongZ, t.alongX);
      var k1 := Advances(c.tileSpacing, t.pose, w.tiles[0].position);
      RunKeepsWindow(c, s.window, ticks[1..]);
      var k2: nat :| ShiftedBy(s.window.tiles, Run(c, s.window, ticks[1..]).window.tiles, k2);
      ShiftCompose(w.tiles, s.window.tiles, Run(c, s.window, ticks[1..]).window.tiles, k1, k2);
    }
  }

  /**
   * A tick that raises loses at most the tile it already dequeued: Peek on an
   * empty queue changes nothing, and a fault inside a NextTile leaves the
   * window one tile shorter. No tick grows the window.
   */
  lemma CheckFaultLosesTile(c: Config, w: Window, pose: Pose, alongZ: Draw, alongX: Draw)
    requires PreviousValid(c, w)
    ensures var s := CheckStep(c, w, pose, alongZ, alongX);
      && |s.window.tiles| <= |w.tiles|
      && (s.fault.Some? ==>
            (w.tiles == [] && s == Step(w, Some(EmptyQueue))) || |s.window.tiles| + 1 == |w.tiles|)
  {
    if w.tiles != [] {
      var head := w.tiles[0].position;
      var z, x := ZChainFires(c.tileSpacing, pose, head), XChainFires(c.tileSpacing, pose, head);
      var first := if z then NextTileStep(c, w, true, pose.forward, alongZ) else Step(w, None);
      if z {
        NextTileSpawns(c, w, true, pose.forward, alongZ, first);
      }
      if first.fault.None? && x {
        var s := NextTileStep(c, first.window, true, pose.forward, alongX);
        NextTileSpawns(c, first.window, true, pose.forward, alongX, s);
      }
    }
  }

  /** However the ticks fault, the window never grows. */
  lemma {:induction false} RunNeverGrows(c: Config, w: Window, ticks: seq<Tick>)
    requires PreviousValid(c, w)
    ensures |Run(c, w, ticks).window.tiles| <= |w.tiles|
    decreases |ticks|
  {
    if ticks != [] {
      var t := ticks[0];
      var s := CheckStep(c, w, t.pose, t.alongZ, t.alongX);
      CheckFaultLosesTile(c, w, t.pose, t.alongZ, t.alongX);
      RunNeverGrows(c, s.window, ticks[1..]);
    }
  }

  /** Once the queue is empty every later tick raises at Peek and changes nothing. */
  lemma {:induction false} EmptyRunStalls(c: Config, w: Window, ticks: seq<Tick>)
    requires PreviousValid(c, w) && w.tiles == []
    ensures Run(c, w, ticks) == Step(w, if ticks == [] then None else Some(EmptyQueue))
    decreases |ticks|
  {
    if ticks != [] {
      EmptyRunStalls(c, w, ticks[1..]);
    }
  }

  /** The blank tiles of `ts` are exactly its first m_startingTiles - k. */
  ghost predicate BlankUntil(c: Config, ts: seq<Tile>, k: nat)
  {
    forall j :: 0 <= j < |ts| ==> (ts[j].interactable.None? <==> j + k < c.startingTiles)
  }

  /** Shifting a window with a blank prefix by k leaves the blank tiles not yet evicted at its front. */
  lemma ShiftedBlank(c: Config, before: seq<Tile>, now: seq<Tile>, k: nat)
    requires BlankPrefix(c, before) && ShiftedBy(before, now, k)
    requires c.startingTiles <= |before|
    ensures BlankUntil(c, now, k)
  {
    forall j | 0 <= j < |now| ensures now[j].interactable.None? <==> j + k < c.startingTiles {
      if j + k < |before| {
        assert now[j] == before[j + k];
      }
    }
  }

  /**
   * Start and then any number of Update calls, over a well-formed catalog:
   * the window always holds max(m_startingTiles, m_totalTiles) tiles, the
   * blank ones are exactly the first blank tiles not yet evicted, and every
   * interactable is a successor of the one before it.
   */
  lemma StreamingWindow(c: Config, w: Window, forward: Vec3, draws: seq<Draw>, ticks: seq<Tick>, init: Step, s: Step)
    requires WellFormed(c.environment, c.interactables) && PreviousValid(c, w)
    requires TileCount(c) > 0
    requires init == InitialiseStep(c, w, forward, draws)
    requires init.fault.None? ==> s == Run(c, init.window, ticks)
    ensures init.fault.None? && s.fault.None?
    ensures |s.window.tiles| == TileCount(c)
    ensures c.startingTiles <= c.totalTiles ==> |s.window.tiles| == c.totalTiles
    ensures Linked(c, s.window.tiles)
    ensures exists k: nat :: ShiftedBy(init.window.tiles, s.window.tiles, k) && BlankUntil(c, s.window.tiles, k)
  {
    InitialiseWellFormed(c, w, forward, draws, init);
    LaidStreamed(c, w, forward, init.window);
    RunKeepsWindow(c, init.window, ticks);
    var k: nat :| ShiftedBy(init.window.tiles, s.window.tiles, k);
    ShiftedBlank(c, init.window.tiles, s.window.tiles, k);
  }
}
