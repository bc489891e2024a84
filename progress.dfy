/**
 * The cursor moves forward: for positive tile sizes and tile distance, every
 * UpdateNextTilePosition moves m_nextTilePosition strictly further along the
 * player's forward direction, so, while the player keeps one facing, every
 * tile of the window stands strictly ahead of the one before it, and the
 * cursor ahead of them all.
 */
module Progress {
  import opened Wrappers
  import opened Vectors
  import opened Catalog
  import opened Streaming

  /** How far `p` lies along the x-z part of `forward`. */
  function Along(forward: Vec3, p: Vec3): real
  {
    p.x * forward.x + p.z * forward.z
  }

  /** Tile sizes and distance for which the cursor step is a real step: positive sizes on x and z, a positive distance, a forward with an x-z part. */
  ghost predicate Advancing(c: Config, forward: Vec3)
  {
    && c.tileDistance > 0.0
    && (forward.x != 0.0 || forward.z != 0.0)
    && forall e :: 0 <= e < |c.environment| ==> c.environment[e].size.x > 0.0 && c.environment[e].size.z > 0.0
  }

  /** The tiles stand at strictly increasing distance along `forward`, and the cursor beyond the last of them. */
  ghost predicate Ahead(forward: Vec3, w: Window)
  {
    && (forall j :: 0 <= j && j + 1 < |w.tiles| ==> Along(forward, w.tiles[j].position) < Along(forward, w.tiles[j + 1].position))
    && (w.tiles != [] ==> Along(forward, Last(w.tiles).position) < Along(forward, w.cursor))
  }

  /** The product of two positive reals is positive. */
  lemma PositiveProduct(a: real, b: real)
    requires a > 0.0 && b > 0.0
    ensures a * b > 0.0
  {
  }

  /** The product of two negative reals is positive. */
  lemma NegativeProduct(a: real, b: real)
    requires a < 0.0 && b < 0.0
    ensures a * b > 0.0
  {
  }

  /**
   * One axis of a cursor step, from `from` to `to`, measured along that
   * axis's forward component `f`: never negative, and positive when the
   * axis has a forward component at all.
   */
  lemma StepAlong(size: real, f: real, distance: real, from: real, to: real)
    requires size > 0.0 && distance > 0.0 && to - from == size * f * distance
    ensures (to - from) * f >= 0.0
    ensures f != 0.0 ==> (to - from) * f > 0.0
  {
    if f > 0.0 {
      PositiveProduct(size, f);
      PositiveProduct(size * f, distance);
      PositiveProduct(size * f * distance, f);
    } else if f < 0.0 {
      assert size * f < 0.0;
      assert size * f * distance < 0.0;
      NegativeProduct(size * f * distance, f);
    }
  }

  /** One cursor step moves the cursor strictly along the forward direction it is projected on. */
  lemma NextCursorAdvances(cursor: Vec3, size: Vec3, forward: Vec3, distance: real)
    requires size.x > 0.0 && size.z > 0.0 && distance > 0.0
    requires forward.x != 0.0 || forward.z != 0.0
    ensures var r := NextCursor(cursor, size, forward, distance);
      && (r.x - cursor.x) * forward.x + (r.z - cursor.z) * forward.z > 0.0
      && Along(forward, cursor) < Along(forward, r)
  {
    var r := NextCursor(cursor, size, forward, distance);
    StepAlong(size.x, forward.x, distance, cursor.x, r.x);
    StepAlong(size.z, forward.z, distance, cursor.z, r.z);
  }

  /** Appending a tile at the old cursor, with the cursor moved strictly ahead, keeps the order, whether or not the head was dropped first. */
  lemma AppendAhead(forward: Vec3, w: Window, w': Window, destroy: bool)
    requires Ahead(forward, w) && (destroy ==> w.tiles != [])
    requires w'.tiles != [] && w'.tiles[..|w'.tiles| - 1] == Kept(w.tiles, destroy)
    requires Last(w'.tiles).position == w.cursor
    requires Along(forward, w.cursor) < Along(forward, w'.cursor)
    ensures Ahead(forward, w')
  {
    var kept, t := Kept(w.tiles, destroy), Last(w'.tiles);
    assert w'.tiles == kept + [t];
    forall j | 0 <= j && j + 1 < |w'.tiles|
      ensures Along(forward, w'.tiles[j].position) < Along(forward, w'.tiles[j + 1].position)
    {
      var o := if destroy then 1 else 0;
      if j + 1 < |kept| {
        assert w'.tiles[j] == w.tiles[j + o] && w'.tiles[j + 1] == w.tiles[j + 1 + o];
      } else {
        assert w'.tiles[j] == Last(w.tiles) && w'.tiles[j + 1] == t;
      }
    }
  }

  /** What a faulting NextTile leaves, the old tiles less at most the head and the cursor unmoved, keeps the order. */
  lemma KeptAhead(forward: Vec3, w: Window, w': Window, destroy: bool)
    requires Ahead(forward, w) && (destroy ==> w.tiles != [])
    requires w'.tiles == Kept(w.tiles, destroy) && w'.cursor == w.cursor
    ensures Ahead(forward, w')
  {
    if destroy {
      forall j | 0 <= j && j + 1 < |w'.tiles|
        ensures Along(forward, w'.tiles[j].position) < Along(forward, w'.tiles[j + 1].position)
      {
        assert w'.tiles[j] == w.tiles[j + 1] && w'.tiles[j + 1] == w.tiles[j + 2];
      }
      if w'.tiles != [] {
        assert Last(w'.tiles) == Last(w.tiles);
      }
    }
  }

  /** A blank tile of InitialiseWorld's first loop keeps the order and moves the cursor strictly ahead. */
  lemma BlankAhead(c: Config, w: Window, forward: Vec3, draw: nat)
    requires Advancing(c, forward) && Ahead(forward, w)
    ensures var s := BlankTileStep(c, w, forward, draw);
      && Ahead(forward, s.window)
      && (s.fault.None? ==> Along(forward, w.cursor) < Along(forward, s.window.cursor))
  {
    var s := BlankTileStep(c, w, forward, draw);
    if s.fault.None? {
      var t := Last(s.window.tiles);
      NextCursorAdvances(w.cursor, t.size, forward, c.tileDistance);
      AppendAhead(forward, w, s.window, false);
    }
  }

  /**
   * NextTile keeps the order, fault or not: a fault leaves the cursor where
   * it was and at most drops the head; a success places the tile at the old
   * cursor and moves the cursor strictly ahead.
   */
  lemma NextTileAhead(c: Config, w: Window, destroy: bool, forward: Vec3, d: Draw, s: Step)
    requires Advancing(c, forward) && PreviousValid(c, w) && Ahead(forward, w)
    requires s == NextTileStep(c, w, destroy, forward, d)
    ensures Ahead(forward, s.window)
    ensures s.fault.None? ==> Along(forward, w.cursor) < Along(forward, s.window.cursor)
    ensures s.fault.Some? ==> s.window.cursor == w.cursor
  {
    NextTileSpawns(c, w, destroy, forward, d, s);
    if s.fault.None? {
      var t := Last(s.window.tiles);
      NextCursorAdvances(w.cursor, t.size, forward, c.tileDistance);
      AppendAhead(forward, w, s.window, destroy);
    } else if s.fault != Some(EmptyQueue) {
      KeptAhead(forward, w, s.window, destroy);
    }
  }

  /** A tick whose pose faces `forward` keeps the order, and never moves the cursor back. */
  lemma CheckAhead(c: Config, w: Window, pose: Pose, alongZ: Draw, alongX: Draw)
    requires Advancing(c, pose.forward) && PreviousValid(c, w) && Ahead(pose.forward, w)
    ensures var s := CheckStep(c, w, pose, alongZ, alongX);
      && Ahead(pose.forward, s.window)
      && Along(pose.forward, w.cursor) <= Along(pose.forward, s.window.cursor)
  {
    if w.tiles != [] {
      var head := w.tiles[0].position;
      var z, x := ZChainFires(c.tileSpacing, pose, head), XChainFires(c.tileSpacing, pose, head);
      var first := if z then NextTileStep(c, w, true, pose.forward, alongZ) else Step(w, None);
      if z {
        NextTileAhead(c, w, true, pose.forward, alongZ, first);
      }
      if first.fault.None? && x {
        var s := NextTileStep(c, first.window, true, pose.forward, alongX);
        NextTileAhead(c, first.window, true, pose.forward, alongX, s);
      }
    }
  }

  /** Every tick of `ticks` has the player facing `forward`. */
  ghost predicate Facing(forward: Vec3, ticks: seq<Tick>)
  {
    forall i :: 0 <= i < |ticks| ==> ticks[i].pose.forward == forward
  }

  /** Any run of ticks with one facing, faults included, keeps the order and never moves the cursor back. */
  lemma {:induction false} RunAhead(c: Config, w: Window, forward: Vec3, ticks: seq<Tick>)
    requires Advancing(c, forward) && PreviousValid(c, w) && Ahead(forward, w)
    requires Facing(forward, ticks)
    ensures var s := Run(c, w, ticks);
      Ahead(forward, s.window) && Along(forward, w.cursor) <= Along(forward, s.window.cursor)
    decreases |ticks|
  {
    if ticks != [] {
      var t := ticks[0];
      assert t.pose.forward == forward;
      var s := CheckStep(c, w, t.pose, t.alongZ, t.alongX);
      CheckAhead(c, w, t.pose, t.alongZ, t.alongX);
      assert Facing(forward, ticks[1..]) by {
        forall i | 0 <= i < |ticks[1..]| ensures ticks[1..][i].pose.forward == forward {
          assert ticks[1..][i] == ticks[i + 1];
        }
      }
      RunAhead(c, s.window, forward, ticks[1..]);
    }
  }

  lemma {:induction false} FillBlankAhead(c: Config, w: Window, forward: Vec3, draws: seq<Draw>, i: nat)
    requires Advancing(c, forward) && PreviousValid(c, w) && Ahead(forward, w)
    ensures Ahead(forward, FillBlank(c, w, forward, draws, i).window)
    decreases c.startingTiles - i
  {
    if i < c.startingTiles {
      var s := BlankTileStep(c, w, forward, DrawAt(draws, i).environment);
      BlankAhead(c, w, forward, DrawAt(draws, i).environment);
      if s.fault.None? {
        FillBlankAhead(c, s.window, forward, draws, i + 1);
      }
    }
  }

  lemma {:induction false} FillChainedAhead(c: Config, w: Window, forward: Vec3, draws: seq<Draw>, i: nat)
    requires Advancing(c, forward) && PreviousValid(c, w) && Ahead(forward, w)
    ensures Ahead(forward, FillChained(c, w, forward, draws, i).window)
    decreases c.totalTiles - i
  {
    if i < c.totalTiles {
      var s := NextTileStep(c, w, false, forward, DrawAt(draws, i));
      NextTileAhead(c, w, false, forward, DrawAt(draws, i), s);
      if s.fault.None? {
        FillChainedAhead(c, s.window, forward, draws, i + 1);
      }
    }
  }

  /**
   * Start facing `forward`, then any number of Update calls facing the same
   * way, faults included: every tile of the window stands strictly further
   * along `forward` than the one before it, and the cursor beyond the last.
   */
  lemma StreamingAhead(c: Config, w: Window, forward: Vec3, draws: seq<Draw>, ticks: seq<Tick>, init: Step, s: Step)
    requires Advancing(c, forward) && PreviousValid(c, w) && Facing(forward, ticks)
    requires init == InitialiseStep(c, w, forward, draws)
    requires s == Run(c, init.window, ticks)
    ensures forall j :: 0 <= j && j + 1 < |s.window.tiles| ==>
      Along(forward, s.window.tiles[j].position) < Along(forward, s.window.tiles[j + 1].position)
    ensures s.window.tiles != [] ==> Along(forward, Last(s.window.tiles).position) < Along(forward, s.window.cursor)
    ensures Along(forward, init.window.cursor) <= Along(forward, s.window.cursor)
  {
    var w0 := w.(tiles := []);
    FillBlankAhead(c, w0, forward, draws, 0);
    var blank := FillBlank(c, w0, forward, draws, 0);
    if blank.fault.None? {
      FillChainedAhead(c, blank.window, forward, draws, c.startingTiles);
    }
    RunAhead(c, init.window, forward, ticks);
  }
}
