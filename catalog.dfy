/**
 * The segment catalog: the environment and interactable templates the
 * generator draws from, and the successor lookup that chains interactables.
 */
module Catalog {
  import opened Wrappers
  import opened Vectors

  /**
   * One catalog entry (WorldTile). The template's game object is reduced to
   * the bounding size of its mesh; `nextTileIndex` lists the interactable
   * templates that may follow this one.
   */
  datatype WorldTile = WorldTile(size: Vec3, nextTileIndex: seq<int>)

  /** The exceptions the generator's code can raise. */
  datatype Fault =
    | EmptyQueue                    // Queue.Peek or Queue.Dequeue on an empty window
    | NoEnvironmentTiles            // indexing the empty environment list
    | NoInteractableTiles           // indexing the empty interactable list
    | NoSuccessors                  // indexing an empty nextTileIndex list
    | SuccessorOutOfRange(index: int) // a nextTileIndex entry that is not a catalog index

  /**
   * UnityEngine.Random.Range(0, n) on ints: a value in [0, n), and 0 when
   * n == 0. The random source is the caller-supplied `draw`; every value
   * Random.Range can return is obtained for some draw.
   */
  function Pick(draw: nat, n: nat): (k: nat)
    ensures n == 0 ==> k == 0
    ensures n > 0 ==> k < n
    ensures draw < n ==> k == draw
  {
    if n == 0 then 0 else draw % n
  }

  /** `list[Random.Range(0, list.Count)]` for a list of `n` entries: a valid index, or `missing` when the list is empty. */
  function Choose(n: nat, draw: nat, missing: Fault): (r: Result<nat, Fault>)
    ensures r.Success? <==> n > 0
    ensures r.Success? ==> r.value < n
    ensures r.Failure? ==> r.error == missing
    ensures draw < n ==> r == Success(draw)
  {
    if n == 0 then Failure(missing) else Success(Pick(draw, n))
  }

  /** The list of templates allowed to follow template `t`. */
  function Successors(catalog: seq<WorldTile>, t: nat): seq<int>
    requires t < |catalog|
  {
    catalog[t].nextTileIndex
  }

  /**
   * The successor draw of NewInteractable: an entry of the predecessor's
   * successor list, which must be a catalog index. There is no guard in the
   * source: an empty list or a bad entry raises.
   */
  function SuccessorIndex(catalog: seq<WorldTile>, previous: nat, draw: nat): (r: Result<nat, Fault>)
    requires previous < |catalog|
    ensures Successors(catalog, previous) == [] ==> r == Failure(NoSuccessors)
    ensures r.Success? ==> r.value < |catalog| && r.value as int in Successors(catalog, previous)
    ensures r.Success? <==>
      var next := Successors(catalog, previous);
      |next| > 0 && 0 <= next[Pick(draw, |next|)] < |catalog|
  {
    var next := Successors(catalog, previous);
    if |next| == 0 then Failure(NoSuccessors)
    else
      var index := next[Pick(draw, |next|)];
      if 0 <= index < |catalog| then Success(index as nat) else Failure(SuccessorOutOfRange(index))
  }

  /** Every catalog index that the successor list names can be drawn. */
  lemma SuccessorReachable(catalog: seq<WorldTile>, previous: nat, j: nat)
    requires previous < |catalog|
    requires j < |Successors(catalog, previous)|
    requires 0 <= Successors(catalog, previous)[j] < |catalog|
    ensures SuccessorIndex(catalog, previous, j) == Success(Successors(catalog, previous)[j] as nat)
  {
  }

  /**
   * The template the successor draw starts from: the last placed
   * interactable, or, before the first one, a root drawn from the catalog.
   */
  function Predecessor(catalog: seq<WorldTile>, previous: Option<nat>, rootDraw: nat): (r: Result<nat, Fault>)
    requires previous.Some? ==> previous.value < |catalog|
    ensures r.Success? ==> r.value < |catalog|
    ensures previous.Some? ==> r == Success(previous.value)
    ensures previous.None? ==> (r.Success? <==> |catalog| > 0)
  {
    if previous.Some? then Success(previous.value)
    else Choose(|catalog|, rootDraw, NoInteractableTiles)
  }

  /** What NewInteractable leaves behind: the new value of m_previousInteractable and the chosen template or fault. */
  datatype Pickup = Pickup(previous: Option<nat>, chosen: Result<nat, Fault>)

  /**
   * NewInteractable. The root only seeds the walk: the placed template is
   * always drawn from a successor list, and becomes the new predecessor. On a
   * faulting successor lookup the root assignment has already happened.
   */
  function NextInteractable(catalog: seq<WorldTile>, previous: Option<nat>, rootDraw: nat, successorDraw: nat): (p: Pickup)
    requires previous.Some? ==> previous.value < |catalog|
    ensures p.previous.Some? ==> p.previous.value < |catalog|
    ensures p.chosen.Success? ==>
      && p.previous == Some(p.chosen.value)
      && var from := Predecessor(catalog, previous, rootDraw);
         from.Success? && p.chosen == SuccessorIndex(catalog, from.value, successorDraw)
    ensures p.chosen.Success? ==>
      exists from: nat :: from < |catalog| && p.chosen.value as int in Successors(catalog, from)
    ensures p.chosen.Success? && previous.Some? ==> p.chosen.value as int in Successors(catalog, previous.value)
    ensures p.chosen.Failure? ==>
      p.previous == (if previous.None? && |catalog| > 0 then Some(Pick(rootDraw, |catalog|)) else previous)
    ensures |catalog| == 0 ==> p == Pickup(None, Failure(NoInteractableTiles))
  {
    match Predecessor(catalog, previous, rootDraw)
    case Failure(e) => Pickup(previous, Failure(e))
    case Success(from) =>
      match SuccessorIndex(catalog, from, successorDraw)
      case Failure(e) => Pickup(Some(from), Failure(e))
      case Success(index) => Pickup(Some(index), Success(index))
  }

  /** A catalog under which no draw can fault: both lists non-empty, every successor list non-empty and made of catalog indices. */
  ghost predicate WellFormed(environment: seq<WorldTile>, interactables: seq<WorldTile>)
  {
    && |environment| > 0
    && |interactables| > 0
    && forall t :: 0 <= t < |interactables| ==>
         && |interactables[t].nextTileIndex| > 0
         && forall j :: 0 <= j < |interactables[t].nextTileIndex| ==> 0 <= interactables[t].nextTileIndex[j] < |interactables|
  }

  /** In a well-formed catalog the interactable draw never faults, whatever the draws. */
  lemma WellFormedNeverFaults(environment: seq<WorldTile>, interactables: seq<WorldTile>, previous: Option<nat>, rootDraw: nat, successorDraw: nat)
    requires WellFormed(environment, interactables)
    requires previous.Some? ==> previous.value < |interactables|
    ensures NextInteractable(interactables, previous, rootDraw, successorDraw).chosen.Success?
  {
    var from := Predecessor(interactables, previous, rootDraw).value;
    var next := Successors(interactables, from);
    assert 0 <= next[Pick(successorDraw, |next|)] < |interactables|;
  }
}
