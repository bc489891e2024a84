/**
 * What InitialiseWorld builds, and what the cursor arithmetic gives: the
 * window length, the blank prefix, the interactable chain and where every
 * tile is placed.
 */
module Layout {
  import opened Wrappers
  import opened Vectors
  import opened Catalog
  import opened Streaming

  /** A tile whose template indices are catalog indices, whose size is its template's and whose interactable sits at its position. */
  ghost predicate TileValid(c: Config, t: Tile)
  {
    && t.template < |c.environment|
    && t.size == c.environment[t.template].size
    && (t.interactable.Some? ==>
          t.interactable.value.template < |c.interactables| && t.interactable.value.position == t.position)
  }

  /** Tile `t` carries an interactable whose template is a successor of template `from`. */
  ghost predicate FollowsTemplate(c: Config, from: nat, t: Tile)
  {
    from < |c.interactables| && t.interactable.Some? &&
    t.interactable.value.template as int in Successors(c.interactables, from)
  }

  ghost predicate Follows(c: Config, a: Tile, b: Tile)
  {
    a.interactable.Some? && FollowsTemplate(c, a.interactable.value.template, b)
  }

  /** Blank tiles exactly before m_startingTiles. */
  ghost predicate BlankPrefix(c: Config, ts: seq<Tile>)
  {
    forall j :: 0 <= j < |ts| ==> (ts[j].interactable.None? <==> j < c.startingTiles)
  }

  ghost predicate AllValid(c: Config, ts: seq<Tile>)
  {
    forall j :: 0 <= j < |ts| ==> TileValid(c, ts[j])
  }

  /** Each tile placed where the cursor stood after the tiles before it. */
  ghost predicate PlacedFrom(start: Vec3, forward: Vec3, distance: real, ts: seq<Tile>)
  {
    forall j :: 0 <= j < |ts| ==> ts[j].position == CursorAfter(start, forward, distance, ts[..j])
  }

  /** From m_startingTiles on, each tile's interactable is a successor of the one before. */
  ghost predicate ChainedFrom(c: Config, from: nat, ts: seq<Tile>)
  {
    forall j :: from <= j && j + 1 < |ts| ==> Follows(c, ts[j], ts[j + 1])
  }

  /** The first chained tile follows the old previous interactable if there was one, a root otherwise. */
  ghost predicate Seeded(c: Config, previous: Option<nat>, ts: seq<Tile>)
  {
    |ts| > c.startingTiles ==>
      && (previous.Some? ==> FollowsTemplate(c, previous.value, ts[c.startingTiles]))
      && exists root: nat :: FollowsTemplate(c, root, ts[c.startingTiles])
  }

  /** m_previousInteractable names the last placed interactable, or is untouched while only blank tiles exist. */
  ghost predicate Tracked(c: Config, previous: Option<nat>, w: Window)
  {
    && (|w.tiles| <= c.startingTiles ==> w.previous == previous)
    && (|w.tiles| > c.startingTiles ==> Last(w.tiles).interactable.Some? && w.previous == Some(Last(w.tiles).interactable.value.template))
  }

  /**
   * The window InitialiseWorld has built so far from the state `w0`: blank
   * tiles exactly before m_startingTiles, each tile placed where the cursor
   * stood, the chained tiles each a successor of the one before, the first
   * chained one a successor of the old previous interactable or of a root.
   */
  ghost predicate Laid(c: Config, w0: Window, forward: Vec3, w: Window)
  {
    && BlankPrefix(c, w.tiles)
    && AllValid(c, w.tiles)
    && PlacedFrom(w0.cursor, forward, c.tileDistance, w.tiles)
    && w.cursor == CursorAfter(w0.cursor, forward, c.tileDistance, w.tiles)
    && ChainedFrom(c, c.startingTiles, w.tiles)
    && Seeded(c, w0.previous, w.tiles)
    && Tracked(c, w0.previous, w)
  }

  /** Appending a tile extends the cursor walk by that tile. */
  lemma CursorAppend(start: Vec3, forward: Vec3, distance: real, ts: seq<Tile>, t: Tile)
    ensures CursorAfter(start, forward, distance, ts + [t]) == NextCursor(CursorAfter(start, forward, distance, ts), t.size, forward, distance)
  {
    assert (ts + [t])[..|ts + [t]| - 1] == ts;
  }

  lemma PlacedAppend(start: Vec3, forward: Vec3, distance: real, ts: seq<Tile>, t: Tile)
    requires PlacedFrom(start, forward, distance, ts)
    requires t.position == CursorAfter(start, forward, distance, ts)
    ensures PlacedFrom(start, forward, distance, ts + [t])
  {
    var ts' := ts + [t];
    forall j | 0 <= j < |ts'|
      ensures ts'[j].position == CursorAfter(start, forward, distance, ts'[..j])
    {
      if j < |ts| {
        assert ts'[..j] == ts[..j];
      } else {
        assert ts'[..j] == ts;
      }
    }
  }

  lemma BlankPrefixAppend(c: Config, ts: seq<Tile>, t: Tile)
    requires BlankPrefix(c, ts)
    requires t.interactable.None? <==> |ts| < c.startingTiles
    ensures BlankPrefix(c, ts + [t])
  {
  }

  lemma AllValidAppend(c: Config, ts: seq<Tile>, t: Tile)
    requires AllValid(c, ts) && TileValid(c, t)
    ensures AllValid(c, ts + [t])
  {
  }

  lemma ChainedAppend(c: Config, from: nat, ts: seq<Tile>, t: Tile)
    requires ChainedFrom(c, from, ts)
    requires from < |ts| ==> Follows(c, Last(ts), t)
    ensures ChainedFrom(c, from, ts + [t])
  {
    var ts' := ts + [t];
    forall j | from <= j && j + 1 < |ts'|
      ensures Follows(c, ts'[j], ts'[j + 1])
    {
      if j + 1 < |ts| {
        assert ts'[j] == ts[j] && ts'[j + 1] == ts[j + 1];
      } else {
        assert ts'[j] == Last(ts) && ts'[j + 1] == t;
      }
    }
  }

  lemma AppendLaid(c: Config, w0: Window, forward: Vec3, w: Window, w': Window)
    requires Laid(c, w0, forward, w)
    requires w'.tiles != [] && w'.tiles[..|w'.tiles| - 1] == w.tiles
    requires var t := Last(w'.tiles);
      && TileValid(c, t)
      && t.position == w.cursor
      && (t.interactable.None? <==> |w.tiles| < c.startingTiles)
      && w'.cursor == NextCursor(w.cursor, t.size, forward, c.tileDistance)
      && (t.interactable.None? ==> w'.previous == w.previous)
      && (t.interactable.Some? ==> w'.previous == Some(t.interactable.value.template))
      && (t.interactable.Some? && w.previous.Some? ==> FollowsTemplate(c, w.previous.value, t))
      && (t.interactable.Some? ==> exists root: nat :: FollowsTemplate(c, root, t))
    ensures Laid(c, w0, forward, w')
  {
    var ts, t := w.tiles, Last(w'.tiles);
    assert w'.tiles == ts + [t];
    CursorAppend(w0.cursor, forward, c.tileDistance, ts, t);
    PlacedAppend(w0.cursor, forward, c.tileDistance, ts, t);
    BlankPrefixAppend(c, ts, t);
    AllValidAppend(c, ts, t);
    ChainedAppend(c, c.startingTiles, ts, t);
    if |ts| == c.startingTiles {
      assert w'.tiles[c.startingTiles] == t;
    } else if |ts| > c.startingTiles {
      assert w'.tiles[c.startingTiles] == ts[c.startingTiles];
    }
  }

  lemma {:induction false} FillBlankLaid(c: Config, w0: Window, forward: Vec3, draws: seq<Draw>, w: Window, i: nat)
    requires PreviousValid(c, w)
    requires Laid(c, w0, forward, w) && |w.tiles| == i && i <= c.startingTiles
    ensures var s := FillBlank(c, w, forward, draws, i);
      s.fault.None? ==> Laid(c, w0, forward, s.window) && |s.window.tiles| == c.startingTiles
    decreases c.startingTiles - i
  {
    if i < c.startingTiles {
      var s := BlankTileStep(c, w, forward, DrawAt(draws, i).environment);
      if s.fault.None? {
        AppendLaid(c, w0, forward, w, s.window);
        FillBlankLaid(c, w0, forward, draws, s.window, i + 1);
      }
    }
  }

  /** One NextTile(false) of the second loop keeps the layout, one tile longer. */
  lemma ChainedStepLaid(c: Config, w0: Window, forward: Vec3, w: Window, d: Draw, s: Step)
    requires PreviousValid(c, w) && Laid(c, w0, forward, w) && c.startingTiles <= |w.tiles|
    requires s == NextTileStep(c, w, false, forward, d) && s.fault.None?
    ensures Laid(c, w0, forward, s.window) && |s.window.tiles| == |w.tiles| + 1
  {
    NextTileSpawns(c, w, false, forward, d, s);
    var t := Last(s.window.tiles);
    var root := if w.previous.Some? then w.previous.value else Pick(d.root, |c.interactables|);
    assert FollowsTemplate(c, root, t);
    AppendLaid(c, w0, forward, w, s.window);
  }

  lemma {:induction false} FillChainedLaid(c: Config, w0: Window, forward: Vec3, draws: seq<Draw>, w: Window, i: nat)
    requires PreviousValid(c, w)
    requires Laid(c, w0, forward, w) && |w.tiles| == i && c.startingTiles <= i <= TileCount(c)
    ensures var s := FillChained(c, w, forward, draws, i);
      s.fault.None? ==> Laid(c, w0, forward, s.window) && |s.window.tiles| == TileCount(c)
    decreases c.totalTiles - i
  {
    if i < c.totalTiles {
      var s := NextTileStep(c, w, false, forward, DrawAt(draws, i));
      if s.fault.None? {
        ChainedStepLaid(c, w0, forward, w, DrawAt(draws, i), s);
        FillChainedLaid(c, w0, forward, draws, s.window, i + 1);
      }
    }
  }

  /**
   * InitialiseWorld, when it does not fault, leaves m_startingTiles blank
   * tiles followed by chained ones, max(m_startingTiles, m_totalTiles) in all.
   */
  lemma InitialiseLaysOut(c: Config, w: Window, forward: Vec3, draws: seq<Draw>)
    requires PreviousValid(c, w)
    ensures var s := InitialiseStep(c, w, forward, draws);
      s.fault.None? ==>
        && |s.window.tiles| == TileCount(c)
        && (c.startingTiles <= c.totalTiles ==> |s.window.tiles| == c.totalTiles)
        && Laid(c, w, forward, s.window)
  {
    var w0 := w.(tiles := []);
    FillBlankLaid(c, w, forward, draws, w0, 0);
    var blank := FillBlank(c, w0, forward, draws, 0);
    if blank.fault.None? {
      FillChainedLaid(c, w, forward, draws, blank.window, c.startingTiles);
    }
  }

  /** With a well-formed catalog InitialiseWorld never faults. */
  lemma {:induction false} FillBlankNeverFaults(c: Config, w: Window, forward: Vec3, draws: seq<Draw>, i: nat)
    requires |c.environment| > 0 && PreviousValid(c, w)
    ensures FillBlank(c, w, forward, draws, i).fault.None?
    decreases c.startingTiles - i
  {
    if i < c.startingTiles {
      var s := BlankTileStep(c, w, forward, DrawAt(draws, i).environment);
      FillBlankNeverFaults(c, s.window, forward, draws, i + 1);
    }
  }

  lemma {:induction false} FillChainedNeverFaults(c: Config, w: Window, forward: Vec3, draws: seq<Draw>, i: nat)
    requires WellFormed(c.environment, c.interactables) && PreviousValid(c, w)
    ensures FillChained(c, w, forward, draws, i).fault.None?
    decreases c.totalTiles - i
  {
    if i < c.totalTiles {
      NextTileNeverFaults(c, w, false, forward, DrawAt(draws, i));
      var s := NextTileStep(c, w, false, forward, DrawAt(draws, i));
      FillChainedNeverFaults(c, s.window, forward, draws, i + 1);
    }
  }

  /** One step of the first loop. */
  lemma FillBlankStep(c: Config, w: Window, forward: Vec3, draws: seq<Draw>, i: nat, w': Window, fault: Option<Fault>)
    requires PreviousValid(c, w) && i < c.startingTiles
    requires BlankTileStep(c, w, forward, DrawAt(draws, i).environment) == Step(w', fault)
    ensures fault.Some? ==> FillBlank(c, w, forward, draws, i) == Step(w', fault)
    ensures fault.None? ==> PreviousValid(c, w') && FillBlank(c, w, forward, draws, i) == FillBlank(c, w', forward, draws, i + 1)
  {
  }

  /** One step of the second loop. */
  lemma FillChainedStep(c: Config, w: Window, forward: Vec3, draws: seq<Draw>, i: nat, w': Window, fault: Option<Fault>)
    requires PreviousValid(c, w) && i < c.totalTiles
    requires NextTileStep(c, w, false, forward, DrawAt(draws, i)) == Step(w', fault)
    ensures fault.Some? ==> FillChained(c, w, forward, draws, i) == Step(w', fault)
    ensures fault.None? ==> PreviousValid(c, w') && FillChained(c, w, forward, draws, i) == FillChained(c, w', forward, draws, i + 1)
  {
  }

  /** What InitialiseWorld can end in, in one statement about its result. */
  lemma InitialiseOutcome(c: Config, w: Window, forward: Vec3, draws: seq<Draw>, s: Step)
    requires PreviousValid(c, w)
    requires s == InitialiseStep(c, w, forward, draws)
    ensures s.fault.None? ==> |s.window.tiles| == TileCount(c)
    ensures WellFormed(c.environment, c.interactables) ==> s.fault.None?
  {
    InitialiseLaysOut(c, w, forward, draws);
    if WellFormed(c.environment, c.interactables) {
      InitialiseWellFormed(c, w, forward, draws, s);
    }
  }

  /** Under a well-formed catalog, InitialiseWorld always completes with the full layout. */
  lemma InitialiseWellFormed(c: Config, w: Window, forward: Vec3, draws: seq<Draw>, s: Step)
    requires WellFormed(c.environment, c.interactables) && PreviousValid(c, w)
    requires s == InitialiseStep(c, w, forward, draws)
    ensures s.fault.None? && |s.window.tiles| == TileCount(c) && Laid(c, w, forward, s.window)
  {
    var w0 := w.(tiles := []);
    FillBlankNeverFaults(c, w0, forward, draws, 0);
    var blank := FillBlank(c, w0, forward, draws, 0);
    FillChainedNeverFaults(c, blank.window, forward, draws, c.startingTiles);
    InitialiseLaysOut(c, w, forward, draws);
  }

  /**
   * The faults InitialiseWorld can end in: with no environment templates and
   * at least one tile to spawn it fails on the first tile and leaves the queue empty;
   * with environment templates but no interactable templates it lays the
   * blank tiles and fails on the first chained one, leaving no previous
   * interactable behind.
   */
  lemma InitialiseFaults(c: Config, w: Window, forward: Vec3, draws: seq<Draw>, s: Step)
    requires PreviousValid(c, w)
    requires s == InitialiseStep(c, w, forward, draws)
    ensures |c.environment| == 0 && TileCount(c) > 0 ==> s == Step(w.(tiles := []), Some(NoEnvironmentTiles))
    ensures |c.environment| > 0 && |c.interactables| == 0 && c.startingTiles < c.totalTiles ==>
      && s.fault == Some(NoInteractableTiles)
      && |s.window.tiles| == c.startingTiles
      && (forall j :: 0 <= j < |s.window.tiles| ==> s.window.tiles[j].interactable.None?)
      && s.window.previous == None
  {
    var w0 := w.(tiles := []);
    var blank := FillBlank(c, w0, forward, draws, 0);
    if |c.environment| == 0 && TileCount(c) > 0 {
      if c.startingTiles == 0 {
        assert blank == Step(w0, None);
      }
    } else if |c.environment| > 0 && |c.interactables| == 0 && c.startingTiles < c.totalTiles {
      FillBlankNeverFaults(c, w0, forward, draws, 0);
      FillBlankLaid(c, w, forward, draws, w0, 0);
      assert BlankPrefix(c, blank.window.tiles);
      var d := DrawAt(draws, c.startingTiles);
      assert NextInteractable(c.interactables, blank.window.previous, d.root, d.successor) == Pickup(None, Failure(NoInteractableTiles));
    }
  }

  /** The cursor's height never changes, whatever the facing. */
  lemma {:induction false} CursorKeepsHeight(start: Vec3, forward: Vec3, distance: real, ts: seq<Tile>)
    ensures CursorAfter(start, forward, distance, ts).y == start.y
    decreases |ts|
  {
    if ts != [] {
      CursorKeepsHeight(start, forward, distance, ts[..|ts| - 1]);
    }
  }

  /** Facing +z, k tiles of depth sz move the cursor by k * sz * distance along z, and not at all along x. */
  lemma {:induction false} CursorAlongZ(start: Vec3, distance: real, ts: seq<Tile>, sz: real)
    requires forall j :: 0 <= j < |ts| ==> ts[j].size.z == sz
    ensures CursorAfter(start, Forward, distance, ts) == Vec3(start.x, start.y, start.z + |ts| as real * sz * distance)
    decreases |ts|
  {
    if ts != [] {
      var init := ts[..|ts| - 1];
      CursorAlongZ(start, distance, init, sz);
      var n := |init| as real;
      calc {
        CursorAfter(start, Forward, distance, ts).z;
        start.z + n * sz * distance + sz * 1.0 * distance;
        { assert n * sz * distance + sz * distance == (n + 1.0) * sz * distance; }
        start.z + (n + 1.0) * sz * distance;
      }
    }
  }

  /** With a positive forward z, positive depths and a positive distance, the cursor strictly advances along z with every tile. */
  lemma {:induction false} CursorAdvances(start: Vec3, forward: Vec3, distance: real, ts: seq<Tile>, j: nat, k: nat)
    requires forward.z > 0.0 && distance > 0.0
    requires forall m :: 0 <= m < |ts| ==> ts[m].size.z > 0.0
    requires j < k <= |ts|
    ensures CursorAfter(start, forward, distance, ts[..j]).z < CursorAfter(start, forward, distance, ts[..k]).z
    decreases k
  {
    var pre := ts[..k - 1];
    assert ts[..k][..k - 1] == pre;
    assert Last(ts[..k]) == ts[k - 1];
    var before := CursorAfter(start, forward, distance, pre).z;
    assert ts[k - 1].size.z * forward.z * distance > 0.0 by {
      var a := ts[k - 1].size.z * forward.z;
      assert a > 0.0;
    }
    assert CursorAfter(start, forward, distance, ts[..k]).z > before;
    if j < k - 1 {
      CursorAdvances(start, forward, distance, ts, j, k - 1);
    }
  }

  /** Consequently the tiles InitialiseWorld lays while facing +z stand at strictly increasing z. */
  lemma LaidAlongZ(c: Config, w0: Window, forward: Vec3, w: Window, j: nat, k: nat)
    requires Laid(c, w0, forward, w)
    requires forward.z > 0.0 && c.tileDistance > 0.0
    requires forall m :: 0 <= m < |w.tiles| ==> w.tiles[m].size.z > 0.0
    requires j < k < |w.tiles|
    ensures w.tiles[j].position.z < w.tiles[k].position.z
  {
    CursorAdvances(w0.cursor, forward, c.tileDistance, w.tiles, j, k);
  }

  /** Every tile of a window whose environment templates all have depth sz has depth sz. */
  lemma UniformDepth(c: Config, ts: seq<Tile>, sz: real)
    requires AllValid(c, ts)
    requires forall e :: 0 <= e < |c.environment| ==> c.environment[e].size.z == sz
    ensures forall j :: 0 <= j < |ts| ==> ts[j].size.z == sz
  {
    forall j | 0 <= j < |ts| ensures ts[j].size.z == sz {
      assert TileValid(c, ts[j]);
    }
  }

  /** One interactable template that is its own only successor makes a well-formed catalog. */
  lemma SelfLoopWellFormed(environment: seq<WorldTile>, interactables: seq<WorldTile>)
    requires |environment| > 0
    requires |interactables| == 1 && interactables[0].nextTileIndex == [0]
    ensures WellFormed(environment, interactables)
  {
  }

  /**
   * One environment template 10 deep, one interactable that follows itself,
   * two blank tiles of five, facing +z from the origin: five tiles, the first
   * two blank, the rest carrying template 0, the cursor at z == 50.
   */
  lemma TwoBlankOfFive(c: Config, draws: seq<Draw>, s: Step)
    requires c.environment == [WorldTile(Vec3(10.0, 1.0, 10.0), [])]
    requires c.interactables == [WorldTile(Vec3(1.0, 1.0, 1.0), [0])]
    requires c.startingTiles == 2 && c.totalTiles == 5 && c.tileDistance == 1.0
    requires s == InitialiseStep(c, Window([], Zero, None), Forward, draws)
    ensures s.fault.None?
    ensures |s.window.tiles| == 5
    ensures s.window.tiles[0].interactable.None? && s.window.tiles[1].interactable.None?
    ensures forall j :: 2 <= j < 5 ==> s.window.tiles[j].interactable == Some(Interactable(0, s.window.tiles[j].position))
    ensures s.window.cursor == Vec3(0.0, 0.0, 50.0)
  {
    var w := Window([], Zero, None);
    SelfLoopWellFormed(c.environment, c.interactables);
    InitialiseWellFormed(c, w, Forward, draws, s);
    var ts := s.window.tiles;
    assert BlankPrefix(c, ts) && AllValid(c, ts);
    forall j | 2 <= j < 5 ensures ts[j].interactable == Some(Interactable(0, ts[j].position)) {
      assert TileValid(c, ts[j]);
    }
    UniformDepth(c, ts, 10.0);
    CursorAlongZ(Zero, 1.0, ts, 10.0);
  }
}
