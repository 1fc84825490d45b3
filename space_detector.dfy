/**
 * Space detection: the voxel grid's empty cells are flood-filled from the
 * boundary to remove exterior air, the remaining connected components become
 * spaces with sequential IDs, and fragmented neighbouring spaces are merged.
 */
module SpaceDetection {
  import opened Wrappers
  import opened Strings
  import opened Numbers
  import opened Sorting
  import opened Grid
  import opened Graphs

  type Point = (real, real, real)

  /** A detected space, one dictionary of `self.spaces`. */
  datatype Space = Space(
    id: string,
    volume: real,
    center: Point,
    bboxMin: Point,
    bboxMax: Point,
    dimensions: Point,
    voxelCount: nat,
    voxelIndices: seq<Cell>,
    kind: string,
    mergedFrom: Option<seq<string>>)

  function Ids(sp: seq<Space>): (r: seq<string>)
    ensures |r| == |sp| && forall k :: 0 <= k < |sp| ==> r[k] == sp[k].id
  {
    seq(|sp|, k requires 0 <= k < |sp| => sp[k].id)
  }

  // ---------------------------------------------------------------------------
  // Grids as arrays

  predicate InGrid(g: array3<bool>, c: Cell)
  {
    InBox(g.Length0, g.Length1, g.Length2, c)
  }

  predicate IsOpen(g: array3<bool>, c: Cell)
    reads g
  {
    InGrid(g, c) && g[c.0, c.1, c.2]
  }

  /** The True cells of a grid. */
  ghost function OpenCells(g: array3<bool>): set<Cell>
    reads g
  {
    set x, y, z | 0 <= x < g.Length0 && 0 <= y < g.Length1 && 0 <= z < g.Length2 && g[x, y, z] :: (x, y, z)
  }

  /** The grid's True cells are exactly `live`. */
  ghost predicate Mirrors(g: array3<bool>, live: set<Cell>)
    reads g
  {
    forall x, y, z | 0 <= x < g.Length0 && 0 <= y < g.Length1 && 0 <= z < g.Length2 ::
      g[x, y, z] <==> (x, y, z) in live
  }

  /** The False cells of a grid: the empty cells of a voxel grid whose True cells are solid. */
  ghost function EmptyCells(g: array3<bool>): set<Cell>
    reads g
  {
    set x, y, z | 0 <= x < g.Length0 && 0 <= y < g.Length1 && 0 <= z < g.Length2 && !g[x, y, z] :: (x, y, z)
  }

  /** The seeds `_remove_external_space` starts from: the cells of `open` on a face of the box. */
  ghost function BoundarySeeds(open: set<Cell>, n0: int, n1: int, n2: int): set<Cell>
  {
    set c | c in open && OnBoundary(n0, n1, n2, c)
  }

  /** `s` lists every cell of `cells` exactly once. */
  ghost predicate ListsExactly(s: seq<Cell>, cells: set<Cell>)
  {
    (forall i, j :: 0 <= i < j < |s| ==> s[i] != s[j]) &&
    (forall c :: c in s <==> c in cells)
  }

  /** The boundary seeds lie in the grid. */
  lemma SeedsInBox(seeds: seq<Cell>, open: set<Cell>, n0: int, n1: int, n2: int)
    requires ListsExactly(seeds, BoundarySeeds(open, n0, n1, n2))
    ensures forall k :: 0 <= k < |seeds| ==> InBox(n0, n1, n2, seeds[k])
  {
    forall k | 0 <= k < |seeds| ensures InBox(n0, n1, n2, seeds[k]) {
      assert seeds[k] in BoundarySeeds(open, n0, n1, n2);
    }
  }

  /** `c` is connected through `open` to one of `seeds`. */
  ghost predicate ReachedFromAny(open: set<Cell>, seeds: seq<Cell>, c: Cell)
  {
    exists i :: 0 <= i < |seeds| && Connected(open, seeds[i], c)
  }

  /** The open cells no seed of `seeds` reaches. */
  ghost function Remaining(open: set<Cell>, seeds: seq<Cell>): set<Cell>
  {
    set c | c in open && !ReachedFromAny(open, seeds, c)
  }

  // ---------------------------------------------------------------------------
  // Breadth-first search state of the flood fill

  /**
   * `live` are the cells still True, every queued or cleared cell is connected
   * to `start`, and every True face neighbour of a cleared cell is still queued.
   */
  ghost predicate SearchState(open0: set<Cell>, live: set<Cell>, queue: seq<Cell>, start: Cell)
  {
    live <= open0 &&
    (forall j :: 0 <= j < |queue| ==> Connected(open0, start, queue[j])) &&
    (forall c :: c in open0 && c !in live ==> Connected(open0, start, c)) &&
    (forall c, k :: c in open0 && c !in live && 0 <= k < 6 && Shift(c, Offset6(k)) in live ==>
       Shift(c, Offset6(k)) in queue) &&
    (start in live ==> start in queue)
  }

  lemma SkipStep(open0: set<Cell>, live: set<Cell>, queue: seq<Cell>, start: Cell)
    requires SearchState(open0, live, queue, start)
    requires queue != [] && queue[0] !in live
    ensures SearchState(open0, live, queue[1..], start)
  {
    forall d | d in queue && d != queue[0]
      ensures d in queue[1..]
    {
    }
  }

  lemma ClearStep(open0: set<Cell>, live: set<Cell>, queue: seq<Cell>, start: Cell, pushed: seq<Cell>)
    requires SearchState(open0, live, queue, start)
    requires queue != [] && queue[0] in live
    requires forall j :: 0 <= j < |pushed| ==> pushed[j] in live && FaceAdjacent(queue[0], pushed[j])
    requires forall k :: 0 <= k < 6 && Shift(queue[0], Offset6(k)) in live - {queue[0]} ==>
      Shift(queue[0], Offset6(k)) in pushed
    ensures SearchState(open0, live - {queue[0]}, queue[1..] + pushed, start)
  {
    var c := queue[0];
    var live', queue' := live - {c}, queue[1..] + pushed;
    forall j | 0 <= j < |queue'|
      ensures Connected(open0, start, queue'[j])
    {
      if j >= |queue| - 1 {
        ConnectedStep(open0, start, c, pushed[j - |queue| + 1]);
      } else {
        assert queue'[j] == queue[j + 1];
      }
    }
    forall c', k | c' in open0 && c' !in live' && 0 <= k < 6 && Shift(c', Offset6(k)) in live'
      ensures Shift(c', Offset6(k)) in queue'
    {
      var n := Shift(c', Offset6(k));
      if c' != c {
        assert n in queue && n != c;
        assert n in queue[1..];
      }
    }
  }

  /** When the queue is empty, the cells still True are the open cells not connected to `start`. */
  lemma SearchDone(open0: set<Cell>, live: set<Cell>, start: Cell)
    requires start in open0 && SearchState(open0, live, [], start)
    ensures forall c :: c in live <==> c in open0 && !Connected(open0, start, c)
  {
    forall c | c in open0 && Connected(open0, start, c)
      ensures c !in live
    {
      ClosedRegionContainsConnected(open0, open0 - live, start, c);
    }
  }

  // ---------------------------------------------------------------------------
  // Seeding from the boundary

  lemma ReachedPrefix(open: set<Cell>, seeds: seq<Cell>, i: nat, c: Cell)
    requires i < |seeds|
    ensures ReachedFromAny(open, seeds[..i + 1], c) <==>
      ReachedFromAny(open, seeds[..i], c) || Connected(open, seeds[i], c)
  {
    if ReachedFromAny(open, seeds[..i + 1], c) {
      var j :| 0 <= j < i + 1 && Connected(open, seeds[..i + 1][j], c);
      if j < i {
        assert seeds[..i][j] == seeds[j];
      }
    }
    if ReachedFromAny(open, seeds[..i], c) {
      var j :| 0 <= j < i && Connected(open, seeds[..i][j], c);
      assert seeds[..i + 1][j] == seeds[j];
    }
    if Connected(open, seeds[i], c) {
      assert seeds[..i + 1][i] == seeds[i];
    }
  }

  /**
   * Flooding from a further seed inside what earlier seeds left behind clears
   * the same cells as flooding the original open cells would.
   */
  lemma FloodWithinRemaining(open: set<Cell>, seeds: seq<Cell>, s: Cell, c: Cell)
    requires c in Remaining(open, seeds)
    ensures Connected(Remaining(open, seeds), s, c) <==> Connected(open, s, c)
  {
    var rest := Remaining(open, seeds);
    if Connected(rest, s, c) {
      ConnectedWithin(rest, open, s, c);
    }
    if Connected(open, s, c) {
      var p :| IsPath(open, p) && p[0] == s && p[|p| - 1] == c;
      forall k | 0 <= k < |p|
        ensures p[k] in rest
      {
        if ReachedFromAny(open, seeds, p[k]) {
          var j :| 0 <= j < |seeds| && Connected(open, seeds[j], p[k]);
          PathSuffix(open, p, k);
          ConnectedTrans(open, seeds[j], p[k], c);
          assert false;
        }
      }
      assert IsPath(rest, p);
    }
  }

  // ---------------------------------------------------------------------------
  // Spaces from connected components

  function Coord(c: Cell, axis: nat): int
  {
    if axis == 0 then c.0 else if axis == 1 then c.1 else c.2
  }

  /** One axis of `origin + (voxel_coords + 0.5) * base_voxel_size`. */
  function AxisCoords(cells: seq<Cell>, axis: nat, o: real, size: real): (r: seq<real>)
    ensures |r| == |cells|
  {
    seq(|cells|, i requires 0 <= i < |cells| => o + (Coord(cells[i], axis) as real + 0.5) * size)
  }

  /** `len(component) * base_voxel_size ** 3`. */
  function ComponentVolume(comp: seq<Cell>, size: real): real
  {
    |comp| as real * Pow(size, 3)
  }

  /** The components the size filter keeps, in their original order. */
  function KeptComponents(comps: seq<seq<Cell>>, size: real, minVolume: real): seq<seq<Cell>>
  {
    if comps == [] then []
    else
      var init := KeptComponents(comps[..|comps| - 1], size, minVolume);
      if ComponentVolume(comps[|comps| - 1], size) < minVolume then init else init + [comps[|comps| - 1]]
  }

  /** The space dictionary built for the `n`-th kept component. */
  function NewSpace(comp: seq<Cell>, n: nat, size: real, origin: Point): Space
    requires |comp| > 0
  {
    var xs, ys, zs := AxisCoords(comp, 0, origin.0, size), AxisCoords(comp, 1, origin.1, size),
                      AxisCoords(comp, 2, origin.2, size);
    var lo := (MinOf(xs), MinOf(ys), MinOf(zs));
    var hi := (MaxOf(xs), MaxOf(ys), MaxOf(zs));
    Space("space_" + Format03(n), ComponentVolume(comp, size), (Mean(xs), Mean(ys), Mean(zs)), lo, hi,
          (hi.0 - lo.0, hi.1 - lo.1, hi.2 - lo.2), |comp|, comp, "unknown", None)
  }

  /** The spaces `detect_spaces` keeps. */
  function SpacesFromComponents(comps: seq<seq<Cell>>, size: real, origin: Point, minVolume: real): (r: seq<Space>)
    requires forall k :: 0 <= k < |comps| ==> |comps[k]| > 0
  {
    var kept := KeptComponents(comps, size, minVolume);
    KeptNonEmpty(comps, size, minVolume);
    seq(|kept|, k requires 0 <= k < |kept| => NewSpace(kept[k], k, size, origin))
  }

  lemma {:induction false} KeptNonEmpty(comps: seq<seq<Cell>>, size: real, minVolume: real)
    requires forall k :: 0 <= k < |comps| ==> |comps[k]| > 0
    ensures forall k :: 0 <= k < |KeptComponents(comps, size, minVolume)| ==> |KeptComponents(comps, size, minVolume)[k]| > 0
    decreases |comps|
  {
    if comps != [] {
      KeptNonEmpty(comps[..|comps| - 1], size, minVolume);
    }
  }

  /**
   * The size filter keeps exactly the components whose volume is at least
   * `min_space_volume`, and each kept component at its rank among them.
   */
  lemma {:induction false} KeptComponentsExactly(comps: seq<seq<Cell>>, size: real, minVolume: real)
    ensures forall c :: c in KeptComponents(comps, size, minVolume) <==> c in comps && ComponentVolume(c, size) >= minVolume
    decreases |comps|
  {
    if comps != [] {
      var init := comps[..|comps| - 1];
      KeptComponentsExactly(init, size, minVolume);
      assert comps == init + [comps[|comps| - 1]];
    }
  }

  /** Appending a component appends its space when it is large enough. */
  lemma SpacesFromComponentsAppend(comps: seq<seq<Cell>>, c: seq<Cell>, size: real, origin: Point, minVolume: real)
    requires forall k :: 0 <= k < |comps| ==> |comps[k]| > 0
    requires |c| > 0
    ensures forall k :: 0 <= k < |comps + [c]| ==> |(comps + [c])[k]| > 0
    ensures SpacesFromComponents(comps + [c], size, origin, minVolume) ==
      SpacesFromComponents(comps, size, origin, minVolume) +
      (if ComponentVolume(c, size) < minVolume then []
       else [NewSpace(c, |SpacesFromComponents(comps, size, origin, minVolume)|, size, origin)])
  {
    assert (comps + [c])[..|comps|] == comps;
    KeptNonEmpty(comps, size, minVolume);
  }

  /** Detected spaces carry IDs `space_000`, `space_001`, … and one voxel per component cell. */
  lemma DetectedSpaceFields(comps: seq<seq<Cell>>, size: real, origin: Point, minVolume: real, k: nat)
    requires forall k :: 0 <= k < |comps| ==> |comps[k]| > 0
    requires k < |SpacesFromComponents(comps, size, origin, minVolume)|
    ensures var s := SpacesFromComponents(comps, size, origin, minVolume)[k];
      var c := KeptComponents(comps, size, minVolume)[k];
      s.id == "space_" + Format03(k) && s.voxelCount == |c| && s.voxelIndices == c &&
      s.volume == ComponentVolume(c, size) && s.volume >= minVolume && s.kind == "unknown" && s.mergedFrom.None?
  {
    var kept := KeptComponents(comps, size, minVolume);
    KeptNonEmpty(comps, size, minVolume);
    KeptComponentsExactly(comps, size, minVolume);
    assert kept[k] in kept;
  }

  /** Detected space IDs are pairwise distinct. */
  lemma DetectedIdsDistinct(comps: seq<seq<Cell>>, size: real, origin: Point, minVolume: real)
    requires forall k :: 0 <= k < |comps| ==> |comps[k]| > 0
    ensures DistinctNodes(Ids(SpacesFromComponents(comps, size, origin, minVolume)))
  {
    var sp := SpacesFromComponents(comps, size, origin, minVolume);
    forall i, j | 0 <= i < j < |sp|
      ensures sp[i].id != sp[j].id
    {
      PrefixedCounterInjective("space_", i, j);
    }
  }

  // ---------------------------------------------------------------------------
  // Adjacency between detected spaces

  function SqDist(a: Point, b: Point): real
  {
    (b.0 - a.0) * (b.0 - a.0) + (b.1 - a.1) * (b.1 - a.1) + (b.2 - a.2) * (b.2 - a.2)
  }

  function SqCellDist(a: Cell, b: Cell): int
  {
    (b.0 - a.0) * (b.0 - a.0) + (b.1 - a.1) * (b.1 - a.1) + (b.2 - a.2) * (b.2 - a.2)
  }

  function MaxDim(s: Space): real
  {
    Max2(Max2(s.dimensions.0, s.dimensions.1), s.dimensions.2)
  }

  /**
   * The k-d tree ball query of `_detect_space_adjacency`: the centre of `b` lies
   * within `max(dimensions) + 2 * voxel_size` of the centre of `a`.
   */
  predicate Nearby(a: Space, b: Space, voxelSize: real)
  {
    var r := MaxDim(a) + voxelSize * 2.0;
    r >= 0.0 && SqDist(a.center, b.center) <= r * r
  }

  /**
   * `_check_spaces_adjacent`: the nearest voxels of the two spaces are at most
   * 1.5 voxel units apart; on integer indices that is a squared distance of at most 2.
   */
  predicate VoxelsTouch(v1: seq<Cell>, v2: seq<Cell>)
  {
    exists a, b :: a in v1 && b in v2 && SqCellDist(a, b) <= 2
  }

  /** The pair test of the adjacency scan: another space, in search range, with touching voxels. */
  predicate DetectRel(sp: seq<Space>, voxelSize: real, i: nat, j: nat)
  {
    i < |sp| && j < |sp| && i != j && Nearby(sp[i], sp[j], voxelSize) &&
    VoxelsTouch(sp[i].voxelIndices, sp[j].voxelIndices)
  }

  function TouchingPairs(sp: seq<Space>, voxelSize: real): set<set<string>>
  {
    set i: nat, j: nat | i < |sp| && j < |sp| && DetectRel(sp, voxelSize, i, j) :: {sp[i].id, sp[j].id}
  }

  /** The graph `_detect_space_adjacency` builds: one node per space, an edge per touching pair. */
  function AdjacencyOf(sp: seq<Space>, voxelSize: real): Graph<()>
  {
    Graph(Ids(sp), map e | e in TouchingPairs(sp, voxelSize) :: ())
  }

  /** The touching pairs a row-major scan has passed before `(i, j)`. */
  ghost function TouchingBefore(sp: seq<Space>, voxelSize: real, i: nat, j: nat): set<set<string>>
  {
    set i': nat, j': nat | i' < |sp| && j' < |sp| && (i' < i || (i' == i && j' < j)) &&
      DetectRel(sp, voxelSize, i', j') :: {sp[i'].id, sp[j'].id}
  }

  lemma TouchingBeforeStep(sp: seq<Space>, voxelSize: real, i: nat, j: nat)
    requires i < |sp| && j < |sp|
    ensures TouchingBefore(sp, voxelSize, i, j + 1) == TouchingBefore(sp, voxelSize, i, j) +
      (if DetectRel(sp, voxelSize, i, j) then {{sp[i].id, sp[j].id}} else {})
  {
    var rhs := TouchingBefore(sp, voxelSize, i, j) + (if DetectRel(sp, voxelSize, i, j) then {{sp[i].id, sp[j].id}} else {});
    forall e | e in TouchingBefore(sp, voxelSize, i, j + 1) ensures e in rhs {
      var i': nat, j': nat :| i' < |sp| && j' < |sp| && (i' < i || (i' == i && j' < j + 1)) &&
        DetectRel(sp, voxelSize, i', j') && e == {sp[i'].id, sp[j'].id};
      if i' < i || j' < j {
        assert e in TouchingBefore(sp, voxelSize, i, j);
      }
    }
  }

  lemma TouchingBeforeRow(sp: seq<Space>, voxelSize: real, i: nat)
    requires i < |sp|
    ensures TouchingBefore(sp, voxelSize, i, |sp|) == TouchingBefore(sp, voxelSize, i + 1, 0)
  {
  }

  lemma NoPairsInSingleton(sp: seq<Space>, voxelSize: real)
    requires |sp| <= 1
    ensures TouchingPairs(sp, voxelSize) == {}
  {
    assert forall i: nat, j: nat :: i < |sp| && j < |sp| ==> !DetectRel(sp, voxelSize, i, j);
  }

  lemma TouchingBeforeEnd(sp: seq<Space>, voxelSize: real)
    ensures TouchingBefore(sp, voxelSize, |sp|, 0) == TouchingPairs(sp, voxelSize)
  {
    forall e | e in TouchingPairs(sp, voxelSize) ensures e in TouchingBefore(sp, voxelSize, |sp|, 0) {
      var i: nat, j: nat :| i < |sp| && j < |sp| && DetectRel(sp, voxelSize, i, j) && e == {sp[i].id, sp[j].id};
    }
  }

  lemma AdjacencyOfWellFormed(sp: seq<Space>, voxelSize: real)
    requires DistinctNodes(Ids(sp))
    ensures WellFormed(AdjacencyOf(sp, voxelSize))
  {
    var g := AdjacencyOf(sp, voxelSize);
    forall e, x | e in g.edges && x in e
      ensures x in g.nodes
    {
      var i: nat, j: nat :| i < |sp| && j < |sp| && DetectRel(sp, voxelSize, i, j) && e == {sp[i].id, sp[j].id};
      assert Ids(sp)[i] == sp[i].id && Ids(sp)[j] == sp[j].id;
    }
  }

  /**
   * Two detected spaces are adjacent exactly when they are different spaces,
   * one centre lies in the other's search range, and some voxel of one shares
   * a face or an edge with a voxel of the other.
   */
  lemma AdjacentIff(sp: seq<Space>, voxelSize: real, i: nat, j: nat)
    requires DistinctNodes(Ids(sp)) && i < |sp| && j < |sp|
    ensures HasEdge(AdjacencyOf(sp, voxelSize), sp[i].id, sp[j].id) <==>
      i != j && (Nearby(sp[i], sp[j], voxelSize) || Nearby(sp[j], sp[i], voxelSize)) &&
      VoxelsTouch(sp[i].voxelIndices, sp[j].voxelIndices)
  {
    var e := {sp[i].id, sp[j].id};
    if e in TouchingPairs(sp, voxelSize) {
      var a: nat, b: nat :| a < |sp| && b < |sp| && DetectRel(sp, voxelSize, a, b) && e == {sp[a].id, sp[b].id};
      assert Ids(sp)[a] == sp[a].id && Ids(sp)[b] == sp[b].id && Ids(sp)[i] == sp[i].id && Ids(sp)[j] == sp[j].id;
      assert sp[a].id in e && sp[b].id in e && sp[i].id in {sp[a].id, sp[b].id} && sp[j].id in {sp[a].id, sp[b].id};
      if a == i {
        assert b == j;
      } else {
        assert a == j && b == i;
        var x, y :| x in sp[j].voxelIndices && y in sp[i].voxelIndices && SqCellDist(x, y) <= 2;
        assert SqCellDist(y, x) == SqCellDist(x, y);
      }
    }
    if i != j && VoxelsTouch(sp[i].voxelIndices, sp[j].voxelIndices) {
      if Nearby(sp[i], sp[j], voxelSize) {
        assert DetectRel(sp, voxelSize, i, j);
      } else if Nearby(sp[j], sp[i], voxelSize) {
        var x, y :| x in sp[i].voxelIndices && y in sp[j].voxelIndices && SqCellDist(x, y) <= 2;
        assert SqCellDist(y, x) == SqCellDist(x, y);
        assert DetectRel(sp, voxelSize, j, i);
        assert e == {sp[j].id, sp[i].id};
      }
    }
  }

  // ---------------------------------------------------------------------------
  // Merging fragmented spaces

  /** `next(s for s in spaces if s["id"] == id)`: the first space with that ID. */
  function Lookup(sp: seq<Space>, id: string): (s: Space)
    requires id in Ids(sp)
    ensures s in sp && s.id == id
  {
    if sp[0].id == id then sp[0]
    else
      assert id in Ids(sp[1..]) by {
        var k :| 0 <= k < |sp| && Ids(sp)[k] == id;
        assert Ids(sp[1..])[k - 1] == id;
      }
      Lookup(sp[1..], id)
  }

  /**
   * The merge test of `merge_fragmented_spaces`: the centre distance minus
   * both half maximal dimensions is at most `space_merge_distance`. Written
   * without the square root: `|c2 - c1| <= t` holds exactly when `t >= 0` and
   * the squared distance is at most `t * t`.
   */
  predicate ShouldMerge(a: Space, b: Space, mergeDistance: real)
  {
    var t := mergeDistance + MaxDim(a) / 2.0 + MaxDim(b) / 2.0;
    t >= 0.0 && SqDist(a.center, b.center) <= t * t
  }

  lemma ShouldMergeSymmetric(a: Space, b: Space, mergeDistance: real)
    ensures ShouldMerge(a, b, mergeDistance) == ShouldMerge(b, a, mergeDistance)
  {
    assert SqDist(a.center, b.center) == SqDist(b.center, a.center);
  }

  /** A larger merge distance merges every pair a smaller one does. */
  lemma ShouldMergeMonotone(a: Space, b: Space, d: real, d': real)
    requires d <= d' && ShouldMerge(a, b, d)
    ensures ShouldMerge(a, b, d')
  {
    var t := d + MaxDim(a) / 2.0 + MaxDim(b) / 2.0;
    var t' := d' + MaxDim(a) / 2.0 + MaxDim(b) / 2.0;
    assert 0.0 <= t <= t';
    assert t * t <= t' * t' by {
      assert t * t <= t * t';
      assert t * t' <= t' * t';
    }
  }

  ghost predicate EndpointsAreIds(sp: seq<Space>, order: seq<(string, string)>)
  {
    forall k :: 0 <= k < |order| ==> order[k].0 in Ids(sp) && order[k].1 in Ids(sp)
  }

  /** The adjacency edges, in iteration order, whose spaces pass the merge test. */
  function MergePairs(sp: seq<Space>, order: seq<(string, string)>, mergeDistance: real): (r: seq<(string, string)>)
    requires EndpointsAreIds(sp, order)
    ensures EndpointsAreIds(sp, r)
    ensures forall k :: 0 <= k < |r| ==> r[k] in order
  {
    if order == [] then []
    else
      var init := MergePairs(sp, order[..|order| - 1], mergeDistance);
      var e := order[|order| - 1];
      if ShouldMerge(Lookup(sp, e.0), Lookup(sp, e.1), mergeDistance) then init + [e] else init
  }

  /** `nx.Graph()` followed by `add_edges_from(pairs)`. */
  function MergeGraph(pairs: seq<(string, string)>): (g: Graph<()>)
    ensures WellFormed(g)
  {
    if pairs == [] then Graph([], map[])
    else AddEdge(MergeGraph(pairs[..|pairs| - 1]), pairs[|pairs| - 1].0, pairs[|pairs| - 1].1, ())
  }

  /** The merge graph's nodes are the endpoints of the pairs. */
  lemma {:induction false} MergeGraphNodes(pairs: seq<(string, string)>, x: string)
    ensures x in MergeGraph(pairs).nodes <==> exists k :: 0 <= k < |pairs| && (x == pairs[k].0 || x == pairs[k].1)
    decreases |pairs|
  {
    if pairs != [] {
      var init := pairs[..|pairs| - 1];
      MergeGraphNodes(init, x);
      assert x in MergeGraph(pairs).nodes <==> x in NodeSet(MergeGraph(pairs));
      assert x in MergeGraph(init).nodes <==> x in NodeSet(MergeGraph(init));
      if k :| 0 <= k < |init| && (x == init[k].0 || x == init[k].1) {
        assert init[k] == pairs[k];
      }
      if k :| 0 <= k < |pairs| && (x == pairs[k].0 || x == pairs[k].1) {
        if k < |init| {
          assert init[k] == pairs[k];
        }
      }
    }
  }

  /** The merge graph's edges are the pairs. */
  lemma {:induction false} MergeGraphEdges(pairs: seq<(string, string)>, e: set<string>)
    ensures e in MergeGraph(pairs).edges <==> exists k :: 0 <= k < |pairs| && e == {pairs[k].0, pairs[k].1}
    decreases |pairs|
  {
    if pairs != [] {
      var init := pairs[..|pairs| - 1];
      var last := pairs[|pairs| - 1];
      MergeGraphEdges(init, e);
      assert MergeGraph(pairs).edges == MergeGraph(init).edges[{last.0, last.1} := ()];
      if e in MergeGraph(pairs).edges && e != {last.0, last.1} {
        var k :| 0 <= k < |init| && e == {init[k].0, init[k].1};
        assert init[k] == pairs[k];
      }
      if k :| 0 <= k < |pairs| - 1 && e == {pairs[k].0, pairs[k].1} {
        assert init[k] == pairs[k];
      }
    }
  }

  /** An unordered pair equal to another holds the same two ends, in one order or the other. */
  lemma SamePair(a: string, b: string, x: string, y: string)
    requires {a, b} == {x, y}
    ensures (a == x && b == y) || (a == y && b == x)
  {
    assert a in {x, y} && b in {x, y} && x in {a, b} && y in {a, b};
  }

  /** A listed edge whose spaces pass the merge test is a candidate pair. */
  lemma {:induction false} PassingEdgeIsPair(sp: seq<Space>, order: seq<(string, string)>, d: real, k: nat)
    requires EndpointsAreIds(sp, order) && k < |order|
    requires ShouldMerge(Lookup(sp, order[k].0), Lookup(sp, order[k].1), d)
    ensures order[k] in MergePairs(sp, order, d)
    decreases |order|
  {
    var n := |order| - 1;
    if k < n {
      var init := order[..n];
      assert init[k] == order[k];
      assert EndpointsAreIds(sp, init) by {
        forall j | 0 <= j < n ensures init[j].0 in Ids(sp) && init[j].1 in Ids(sp) {
          assert init[j] == order[j];
        }
      }
      PassingEdgeIsPair(sp, init, d, k);
    }
  }

  /** Every candidate pair is a listed edge whose spaces pass the merge test. */
  lemma {:induction false} PairPasses(sp: seq<Space>, order: seq<(string, string)>, d: real, p: (string, string))
    requires EndpointsAreIds(sp, order) && p in MergePairs(sp, order, d)
    ensures p in order && p.0 in Ids(sp) && p.1 in Ids(sp)
    ensures ShouldMerge(Lookup(sp, p.0), Lookup(sp, p.1), d)
    decreases |order|
  {
    var n := |order| - 1;
    var init := order[..n];
    assert EndpointsAreIds(sp, init) by {
      forall j | 0 <= j < n ensures init[j].0 in Ids(sp) && init[j].1 in Ids(sp) {
        assert init[j] == order[j];
      }
    }
    if p in MergePairs(sp, init, d) {
      PairPasses(sp, init, d, p);
    }
  }

  /** A merge-graph edge is an adjacency edge whose spaces pass the merge test. */
  lemma MergeEdgeIsPassingAdjacency(sp: seq<Space>, g: Graph<()>, order: seq<(string, string)>, d: real,
                                    a: string, b: string)
    requires EndpointsAreIds(sp, order) && forall k :: 0 <= k < |order| ==> HasEdge(g, order[k].0, order[k].1)
    requires {a, b} in MergeGraph(MergePairs(sp, order, d)).edges
    ensures HasEdge(g, a, b) && a in Ids(sp) && b in Ids(sp) && ShouldMerge(Lookup(sp, a), Lookup(sp, b), d)
  {
    var pairs := MergePairs(sp, order, d);
    MergeGraphEdges(pairs, {a, b});
    var k :| 0 <= k < |pairs| && {a, b} == {pairs[k].0, pairs[k].1};
    var p := pairs[k];
    PairPasses(sp, order, d, p);
    var j :| 0 <= j < |order| && order[j] == p;
    assert HasEdge(g, p.0, p.1);
    SamePair(a, b, p.0, p.1);
    ShouldMergeSymmetric(Lookup(sp, p.0), Lookup(sp, p.1), d);
  }

  /** A listed adjacency edge whose spaces pass the merge test is a merge-graph edge. */
  lemma PassingAdjacencyIsMergeEdge(sp: seq<Space>, order: seq<(string, string)>, d: real, k: nat, a: string, b: string)
    requires EndpointsAreIds(sp, order) && k < |order| && {a, b} == {order[k].0, order[k].1}
    requires a in Ids(sp) && b in Ids(sp) && ShouldMerge(Lookup(sp, a), Lookup(sp, b), d)
    ensures {a, b} in MergeGraph(MergePairs(sp, order, d)).edges
  {
    var pairs := MergePairs(sp, order, d);
    SamePair(a, b, order[k].0, order[k].1);
    ShouldMergeSymmetric(Lookup(sp, a), Lookup(sp, b), d);
    PassingEdgeIsPair(sp, order, d, k);
    var j :| 0 <= j < |pairs| && pairs[j] == order[k];
    MergeGraphEdges(pairs, {a, b});
  }

  /**
   * With `order` listing every adjacency edge once, the merge graph joins two
   * spaces exactly when they are adjacent and pass the merge test: each
   * adjacent pair that passes is merged, whatever order networkx lists it in.
   */
  lemma MergeGraphIsPassingAdjacency(sp: seq<Space>, g: Graph<()>, order: seq<(string, string)>, d: real,
                                     a: string, b: string)
    requires WellFormed(g) && g.nodes == Ids(sp) && ListsEdges(g, order)
    ensures EndpointsAreIds(sp, order)
    ensures {a, b} in MergeGraph(MergePairs(sp, order, d)).edges <==>
      HasEdge(g, a, b) && a in Ids(sp) && b in Ids(sp) && ShouldMerge(Lookup(sp, a), Lookup(sp, b), d)
  {
    EdgeEndpointsAreIds(sp, g, order);
    if {a, b} in MergeGraph(MergePairs(sp, order, d)).edges {
      MergeEdgeIsPassingAdjacency(sp, g, order, d, a, b);
    }
    if HasEdge(g, a, b) && a in Ids(sp) && b in Ids(sp) && ShouldMerge(Lookup(sp, a), Lookup(sp, b), d) {
      var k :| 0 <= k < |order| && {a, b} == {order[k].0, order[k].1};
      PassingAdjacencyIsMergeEdge(sp, order, d, k, a, b);
    }
  }

  /** Two distinct spaces joined in a graph lie together in one of its large components. */
  lemma JoinedInOneGroup(mg: Graph<()>, groups: seq<set<string>>, a: string, b: string)
    requires WellFormed(mg) && LargeComponents(mg, groups) && a != b && HasEdge(mg, a, b)
    ensures exists t :: 0 <= t < |groups| && a in groups[t] && b in groups[t]
  {
    assert a in {a, b} && b in {a, b};
    var c := set w | w in mg.nodes && Reach(mg, a, w);
    forall w | Reach(mg, a, w) ensures w in c {
      ReachEndsAreNodes(mg, a, w);
    }
    ReachSetIsComponent(mg, a, c);
    ReachSelf(mg, a);
    ReachStep(mg, a, a, b);
    assert b in c - {a};
    assert |c| > 1 by {
      assert c == (c - {a}) + {a};
    }
    var t :| 0 <= t < |groups| && groups[t] == c;
  }

  /** A graph without nodes has no large component. */
  lemma NoLargeComponents(g: Graph<()>)
    requires g.nodes == []
    ensures LargeComponents(g, [])
  {
    forall c | c != {} ensures !IsComponent(g, c) {
      var x :| x in c;
      assert !Reach(g, x, x);
    }
  }

  /** Distinct adjacent spaces that pass the merge test share a group. */
  ghost predicate PassingAdjacentMerged(sp: seq<Space>, g: Graph<()>, d: real, groups: seq<set<string>>)
  {
    forall a, b ::
      (a != b && HasEdge(g, a, b) && a in Ids(sp) && b in Ids(sp) && ShouldMerge(Lookup(sp, a), Lookup(sp, b), d)) ==>
      exists t :: 0 <= t < |groups| && a in groups[t] && b in groups[t]
  }

  /**
   * With `order` listing every adjacency edge once, two distinct adjacent
   * spaces that pass the merge test end up in one merged group.
   */
  lemma AdjacentPassingMerged(sp: seq<Space>, g: Graph<()>, order: seq<(string, string)>, d: real,
                              groups: seq<set<string>>, a: string, b: string)
    requires WellFormed(g) && g.nodes == Ids(sp) && ListsEdges(g, order) && EndpointsAreIds(sp, order)
    requires LargeComponents(MergeGraph(MergePairs(sp, order, d)), groups)
    requires a != b && HasEdge(g, a, b) && a in Ids(sp) && b in Ids(sp)
    requires ShouldMerge(Lookup(sp, a), Lookup(sp, b), d)
    ensures exists t :: 0 <= t < |groups| && a in groups[t] && b in groups[t]
  {
    MergeGraphIsPassingAdjacency(sp, g, order, d, a, b);
    JoinedInOneGroup(MergeGraph(MergePairs(sp, order, d)), groups, a, b);
  }

  lemma AllAdjacentPassingMerged(sp: seq<Space>, g: Graph<()>, order: seq<(string, string)>, d: real,
                                 groups: seq<set<string>>)
    requires WellFormed(g) && g.nodes == Ids(sp) && ListsEdges(g, order) && EndpointsAreIds(sp, order)
    requires LargeComponents(MergeGraph(MergePairs(sp, order, d)), groups)
    ensures PassingAdjacentMerged(sp, g, d, groups)
  {
    forall a, b | a != b && HasEdge(g, a, b) && a in Ids(sp) && b in Ids(sp) && ShouldMerge(Lookup(sp, a), Lookup(sp, b), d)
      ensures exists t :: 0 <= t < |groups| && a in groups[t] && b in groups[t]
    {
      AdjacentPassingMerged(sp, g, order, d, groups, a, b);
    }
  }

  /** A component holds nodes of its graph only. */
  lemma ComponentWithinNodes<A>(g: Graph<A>, c: set<string>, a: string)
    requires WellFormed(g) && IsComponent(g, c) && a in c
    ensures a in g.nodes
  {
    ReachEndsAreNodes(g, a, a);
  }

  /** `[s for s in spaces if s["id"] in ids]`. */
  function Members(sp: seq<Space>, ids: set<string>): (r: seq<Space>)
    ensures forall s :: s in r <==> s in sp && s.id in ids
    ensures |r| <= |sp|
  {
    if sp == [] then []
    else
      var init := Members(sp[..|sp| - 1], ids);
      var s := sp[|sp| - 1];
      assert sp == sp[..|sp| - 1] + [s];
      if s.id in ids then init + [s] else init
  }

  /** `[s for s in spaces if s["id"] not in ids]`. */
  function Unmerged(sp: seq<Space>, ids: set<string>): (r: seq<Space>)
    ensures forall s :: s in r <==> s in sp && s.id !in ids
  {
    if sp == [] then []
    else
      var init := Unmerged(sp[..|sp| - 1], ids);
      var s := sp[|sp| - 1];
      assert sp == sp[..|sp| - 1] + [s];
      if s.id !in ids then init + [s] else init
  }

  /** The filter only looks at the IDs of the listed spaces. */
  lemma {:induction false} UnmergedSameIds(sp: seq<Space>, a: set<string>, b: set<string>)
    requires forall s :: s in sp ==> (s.id in a <==> s.id in b)
    ensures Unmerged(sp, a) == Unmerged(sp, b)
    decreases |sp|
  {
    if sp != [] {
      UnmergedSameIds(sp[..|sp| - 1], a, b);
      assert sp[|sp| - 1] in sp;
    }
  }

  /** Filtering keeps IDs distinct. */
  lemma {:induction false} UnmergedDistinct(sp: seq<Space>, ids: set<string>)
    requires DistinctNodes(Ids(sp))
    ensures DistinctNodes(Ids(Unmerged(sp, ids)))
    decreases |sp|
  {
    if sp != [] {
      var init := sp[..|sp| - 1];
      var last := sp[|sp| - 1];
      assert Ids(init) == Ids(sp)[..|sp| - 1];
      UnmergedDistinct(init, ids);
      var r := Unmerged(init, ids);
      forall s | s in r ensures s.id != last.id {
        var k :| 0 <= k < |init| && init[k] == s;
        assert Ids(sp)[k] == s.id && Ids(sp)[|sp| - 1] == last.id;
      }
      if last.id !in ids {
        var r' := r + [last];
        forall i, j | 0 <= i < j < |r'| ensures r'[i].id != r'[j].id {
          if j == |r| {
            assert r'[i] in r;
          } else {
            assert Ids(r)[i] == r'[i].id && Ids(r)[j] == r'[j].id;
          }
        }
      }
    }
  }

  /** `all_voxel_indices`: the voxel lists of the group, concatenated. */
  function AllVoxels(group: seq<Space>): (r: seq<Cell>)
    ensures forall c :: c in r <==> exists k :: 0 <= k < |group| && c in group[k].voxelIndices
  {
    if group == [] then []
    else
      var init := group[..|group| - 1];
      var r := AllVoxels(init) + group[|group| - 1].voxelIndices;
      assert forall k :: 0 <= k < |init| ==> init[k] == group[k];
      r
  }

  function Volumes(group: seq<Space>): (r: seq<real>)
    ensures |r| == |group| && forall k :: 0 <= k < |group| ==> r[k] == group[k].volume
  {
    seq(|group|, k requires 0 <= k < |group| => group[k].volume)
  }

  /** One axis of the stacked voxel indices, as numbers. */
  function IndexAxis(cells: seq<Cell>, axis: nat): (r: seq<real>)
    ensures |r| == |cells|
  {
    seq(|cells|, i requires 0 <= i < |cells| => Coord(cells[i], axis) as real)
  }

  /**
   * `_merge_spaces`: the merged space. The bounding box and centre are taken
   * over the stacked voxel indices (with repeats), so they are in voxel units.
   */
  function MergedSpace(group: seq<Space>, newId: string): Space
    requires |AllVoxels(group)| > 0
  {
    MergedFrom(group, AllVoxels(group), newId)
  }

  /** The merged space for the group whose stacked voxel indices are `all`. */
  function MergedFrom(group: seq<Space>, all: seq<Cell>, newId: string): Space
    requires |all| > 0
  {
    var cells := SortedUnique(all);
    var xs, ys, zs := IndexAxis(all, 0), IndexAxis(all, 1), IndexAxis(all, 2);
    var lo := (MinOf(xs), MinOf(ys), MinOf(zs));
    var hi := (MaxOf(xs), MaxOf(ys), MaxOf(zs));
    Space(newId, Sum(Volumes(group)), (Mean(xs), Mean(ys), Mean(zs)), lo, hi,
          (hi.0 - lo.0, hi.1 - lo.1, hi.2 - lo.2), |cells|, cells, "merged", Some(Ids(group)))
  }

  /** A group with a non-empty member has voxels to merge. */
  lemma GroupHasVoxels(group: seq<Space>, k: nat)
    requires k < |group| && |group[k].voxelIndices| > 0
    ensures |AllVoxels(group)| > 0
  {
    assert group[k].voxelIndices[0] in AllVoxels(group);
  }

  /**
   * The merged space holds each voxel of its members once, in lexicographic
   * order, counts them, records its sources in order and is typed `merged`.
   */
  lemma MergedSpaceVoxels(group: seq<Space>, newId: string)
    requires |AllVoxels(group)| > 0
    ensures var m := MergedSpace(group, newId);
      m.id == newId && m.kind == "merged" && m.mergedFrom == Some(Ids(group)) &&
      StrictlySorted(m.voxelIndices) && m.voxelCount == |m.voxelIndices| > 0 &&
      (forall c :: c in m.voxelIndices <==> exists k :: 0 <= k < |group| && c in group[k].voxelIndices)
  {
    var all := AllVoxels(group);
    assert all[0] in SortedUnique(all);
  }

  lemma AxisBounds(all: seq<Cell>, axis: nat, i: nat)
    requires i < |all|
    ensures MinOf(IndexAxis(all, axis)) <= Coord(all[i], axis) as real <= MaxOf(IndexAxis(all, axis))
  {
    assert IndexAxis(all, axis)[i] == Coord(all[i], axis) as real;
  }

  /** The merged bounding box encloses every member voxel index and its dimensions are its extents. */
  lemma MergedSpaceBounds(group: seq<Space>, newId: string, k: nat, c: Cell)
    requires |AllVoxels(group)| > 0
    requires k < |group| && c in group[k].voxelIndices
    ensures var m := MergedSpace(group, newId);
      m.bboxMin.0 <= c.0 as real <= m.bboxMax.0 &&
      m.bboxMin.1 <= c.1 as real <= m.bboxMax.1 &&
      m.bboxMin.2 <= c.2 as real <= m.bboxMax.2
  {
    var all := AllVoxels(group);
    assert c in all;
    var i :| 0 <= i < |all| && all[i] == c;
    AxisBounds(all, 0, i);
    AxisBounds(all, 1, i);
    AxisBounds(all, 2, i);
    var m := MergedSpace(group, newId);
    assert m.bboxMin == (MinOf(IndexAxis(all, 0)), MinOf(IndexAxis(all, 1)), MinOf(IndexAxis(all, 2)));
    assert m.bboxMax == (MaxOf(IndexAxis(all, 0)), MaxOf(IndexAxis(all, 1)), MaxOf(IndexAxis(all, 2)));
  }

  /** The merged volume is the sum of the member volumes, so it is at least each non-negative member's. */
  lemma MergedSpaceVolume(group: seq<Space>, newId: string, k: nat)
    requires |AllVoxels(group)| > 0
    requires k < |group| && forall j :: 0 <= j < |group| ==> group[j].volume >= 0.0
    ensures MergedSpace(group, newId).volume == Sum(Volumes(group)) >= group[k].volume
  {
    SumAtLeast(Volumes(group), k);
  }

  /** Adjacency edges join spaces of the list. */
  lemma EdgeEndpointsAreIds(sp: seq<Space>, g: Graph<()>, order: seq<(string, string)>)
    requires WellFormed(g) && g.nodes == Ids(sp)
    requires forall k :: 0 <= k < |order| ==> HasEdge(g, order[k].0, order[k].1)
    ensures EndpointsAreIds(sp, order)
  {
    forall k | 0 <= k < |order| ensures order[k].0 in Ids(sp) && order[k].1 in Ids(sp) {
      assert order[k].0 in {order[k].0, order[k].1} && order[k].1 in {order[k].0, order[k].1};
    }
  }

  /** The merge graph has components exactly when some pair passed the merge test. */
  lemma ComponentsIffPairs(pairs: seq<(string, string)>, comps: seq<set<string>>)
    requires forall k :: 0 <= k < |comps| ==> IsComponent(MergeGraph(pairs), comps[k])
    requires forall v :: v in MergeGraph(pairs).nodes ==> v in Union(comps)
    requires MergeGraph(pairs).nodes == [] ==> comps == []
    ensures comps == [] <==> pairs == []
  {
    if pairs != [] {
      MergeGraphNodes(pairs, pairs[0].0);
      InUnion(comps, pairs[0].0);
    }
  }

  /** The merge graph's nodes are space IDs. */
  lemma MergeGraphNodesAreIds(sp: seq<Space>, pairs: seq<(string, string)>)
    requires EndpointsAreIds(sp, pairs)
    ensures forall v :: v in MergeGraph(pairs).nodes ==> v in Ids(sp)
  {
    forall v | v in MergeGraph(pairs).nodes ensures v in Ids(sp) {
      MergeGraphNodes(pairs, v);
    }
  }

  /** A group of the merge graph holds at least one space, and hence voxels. */
  lemma GroupMembersHaveVoxels(sp: seq<Space>, g: Graph<()>, c: set<string>)
    requires WellFormed(g) && IsComponent(g, c)
    requires forall v :: v in g.nodes ==> v in Ids(sp)
    requires forall k :: 0 <= k < |sp| ==> |sp[k].voxelIndices| > 0
    ensures |Members(sp, c)| > 0
    ensures forall k :: 0 <= k < |Members(sp, c)| ==> |Members(sp, c)[k].voxelIndices| > 0
    ensures |AllVoxels(Members(sp, c))| > 0
  {
    var m := Members(sp, c);
    var v :| v in c;
    ComponentWithinNodes(g, c, v);
    var s := Lookup(sp, v);
    assert s in m;
    forall k | 0 <= k < |m| ensures |m[k].voxelIndices| > 0 {
      assert m[k] in m;
      var i :| 0 <= i < |sp| && sp[i] == m[k];
    }
    var k :| 0 <= k < |m| && m[k] == s;
    GroupHasVoxels(m, k);
  }

  /** Every component of more than one space is one of the large groups. */
  lemma LargeComponentsListed(g: Graph<()>, comps: seq<set<string>>)
    requires WellFormed(g)
    requires forall k :: 0 <= k < |comps| ==> IsComponent(g, comps[k])
    requires forall v :: v in g.nodes ==> v in Union(comps)
    ensures forall c :: IsComponent(g, c) && |c| > 1 ==> c in LargeGroups(comps)
  {
    forall c | IsComponent(g, c) && |c| > 1 ensures c in LargeGroups(comps) {
      var v :| v in c;
      ComponentWithinNodes(g, c, v);
      InUnion(comps, v);
      var k :| 0 <= k < |comps| && v in comps[k];
      forall w ensures w in c <==> w in comps[k] {
        if w in c { ComponentsMeet(g, comps[k], c, w); }
        if w in comps[k] { ComponentsMeet(g, c, comps[k], w); }
      }
      assert c == comps[k];
    }
  }

  /**
   * The groups are the connected components of more than one space, each
   * listed once, and no two share a space.
   */
  ghost predicate LargeComponents(g: Graph<()>, groups: seq<set<string>>)
  {
    (forall t :: 0 <= t < |groups| ==> IsComponent(g, groups[t]) && |groups[t]| > 1) &&
    (forall t, t' :: 0 <= t < t' < |groups| ==> groups[t] !! groups[t']) &&
    (forall c :: IsComponent(g, c) && |c| > 1 ==> c in groups)
  }

  /** Keeping the components of more than one space gives exactly the large components. */
  lemma LargeGroupsAreComponents(g: Graph<()>, comps: seq<set<string>>)
    requires WellFormed(g)
    requires forall k :: 0 <= k < |comps| ==> IsComponent(g, comps[k])
    requires forall v :: v in g.nodes ==> v in Union(comps)
    requires forall k, k' :: 0 <= k < k' < |comps| ==> comps[k] !! comps[k']
    ensures LargeComponents(g, LargeGroups(comps))
  {
    var r := LargeGroups(comps);
    forall t | 0 <= t < |r| ensures IsComponent(g, r[t]) && |r[t]| > 1 {
      assert r[t] in r;
    }
    LargeGroupsDisjoint(comps);
    LargeComponentsListed(g, comps);
  }

  lemma MemberIds(sp: seq<Space>, c: set<string>, s: Space)
    requires s in sp
    ensures (exists m :: m in Members(sp, c) && m.id == s.id) <==> s.id in c
  {
  }

  /** Adding the IDs of a group's members keeps the merged IDs those of the groups. */
  lemma MergedIdsStep(sp: seq<Space>, mergedIds: set<string>, groups: seq<set<string>>, c: set<string>)
    requires forall s :: s in sp ==> (s.id in mergedIds <==> s.id in Union(groups))
    ensures forall s :: s in sp ==>
      (s.id in mergedIds + (set m | m in Members(sp, c) :: m.id) <==> s.id in Union(groups + [c]))
  {
    UnionAppend(groups, c);
    forall s | s in sp
      ensures s.id in mergedIds + (set m | m in Members(sp, c) :: m.id) <==> s.id in Union(groups + [c])
    {
      MemberIds(sp, c, s);
    }
  }

  /** The components of more than one space, in order. */
  function LargeGroups(comps: seq<set<string>>): (r: seq<set<string>>)
    ensures forall c :: c in r <==> c in comps && |c| > 1
  {
    if comps == [] then []
    else
      var init := LargeGroups(comps[..|comps| - 1]);
      var c := comps[|comps| - 1];
      assert comps == comps[..|comps| - 1] + [c];
      if |c| > 1 then init + [c] else init
  }

  /** Large groups of pairwise disjoint sets are pairwise disjoint. */
  lemma {:induction false} LargeGroupsDisjoint(comps: seq<set<string>>)
    requires forall k, k' :: 0 <= k < k' < |comps| ==> comps[k] !! comps[k']
    ensures forall t, t' :: 0 <= t < t' < |LargeGroups(comps)| ==> LargeGroups(comps)[t] !! LargeGroups(comps)[t']
    decreases |comps|
  {
    if comps != [] {
      var init := comps[..|comps| - 1];
      var c := comps[|comps| - 1];
      assert comps == init + [c];
      LargeGroupsDisjoint(init);
      var r0 := LargeGroups(init);
      forall t | 0 <= t < |r0| ensures r0[t] !! c {
        assert r0[t] in r0;
        var k :| 0 <= k < |init| && init[k] == r0[t];
        assert comps[k] == init[k];
      }
      if |c| > 1 {
        var r := r0 + [c];
        assert LargeGroups(comps) == r;
        forall t, t' | 0 <= t < t' < |r| ensures r[t] !! r[t'] {
          assert r[t] == r0[t];
          if t' < |r0| { assert r[t'] == r0[t']; } else { assert r[t'] == c; }
        }
      }
    }
  }

  ghost predicate GroupsHaveVoxels(sp: seq<Space>, groups: seq<set<string>>)
  {
    forall t :: 0 <= t < |groups| ==> |AllVoxels(Members(sp, groups[t]))| > 0
  }

  /** The merged spaces for the groups, the `t`-th with the `t`-th fresh ID. */
  function MergedList(sp: seq<Space>, groups: seq<set<string>>, freshId: nat -> string): (r: seq<Space>)
    requires GroupsHaveVoxels(sp, groups)
    ensures |r| == |groups|
    ensures forall t :: 0 <= t < |groups| ==> r[t] == MergedSpace(Members(sp, groups[t]), freshId(t))
  {
    seq(|groups|, t requires 0 <= t < |groups| => MergedSpace(Members(sp, groups[t]), freshId(t)))
  }

  /** Filtering one more component. */
  lemma LargeGroupsStep(comps: seq<set<string>>, k: nat)
    requires k < |comps|
    ensures LargeGroups(comps[..k + 1]) ==
      if |comps[k]| > 1 then LargeGroups(comps[..k]) + [comps[k]] else LargeGroups(comps[..k])
  {
    assert comps[..k + 1][..k] == comps[..k];
  }

  /** `merged[t]` is the merged space of `groups[t]`, with the `t`-th fresh ID. */
  ghost predicate MergedFor(sp: seq<Space>, groups: seq<set<string>>, merged: seq<Space>, freshId: nat -> string)
  {
    |merged| == |groups| &&
    forall t :: 0 <= t < |groups| ==>
      |AllVoxels(Members(sp, groups[t]))| > 0 && merged[t] == MergedSpace(Members(sp, groups[t]), freshId(t))
  }

  lemma MergedForAppend(sp: seq<Space>, groups: seq<set<string>>, merged: seq<Space>, freshId: nat -> string,
                        c: set<string>, m: Space)
    requires MergedFor(sp, groups, merged, freshId)
    requires |AllVoxels(Members(sp, c))| > 0 && m == MergedSpace(Members(sp, c), freshId(|groups|))
    ensures MergedFor(sp, groups + [c], merged + [m], freshId)
  {
    var g', m' := groups + [c], merged + [m];
    forall t | 0 <= t < |g'|
      ensures |AllVoxels(Members(sp, g'[t]))| > 0 && m'[t] == MergedSpace(Members(sp, g'[t]), freshId(t))
    {
      if t < |groups| {
        assert g'[t] == groups[t] && m'[t] == merged[t];
      }
    }
  }

  lemma MergedForList(sp: seq<Space>, groups: seq<set<string>>, merged: seq<Space>, freshId: nat -> string)
    requires MergedFor(sp, groups, merged, freshId)
    ensures GroupsHaveVoxels(sp, groups) && merged == MergedList(sp, groups, freshId)
  {
  }

  lemma UnionAppend(groups: seq<set<string>>, c: set<string>)
    ensures Union(groups + [c]) == Union(groups) + c
  {
    assert (groups + [c])[..|groups|] == groups;
  }

  /** The merged list keeps IDs distinct when the new IDs are fresh. */
  lemma DistinctAfterMerge(sp: seq<Space>, ids: set<string>, merged: seq<Space>, freshId: nat -> string)
    requires DistinctNodes(Ids(sp))
    requires forall a: nat, b: nat :: a != b ==> freshId(a) != freshId(b)
    requires forall k: nat, s :: s in sp ==> freshId(k) != s.id
    requires forall t :: 0 <= t < |merged| ==> merged[t].id == freshId(t)
    ensures DistinctNodes(Ids(Unmerged(sp, ids) + merged))
  {
    var u := Unmerged(sp, ids);
    var r := u + merged;
    UnmergedDistinct(sp, ids);
    forall i, j | 0 <= i < j < |r| ensures r[i].id != r[j].id {
      if j < |u| {
        assert Ids(u)[i] == u[i].id && Ids(u)[j] == u[j].id;
      } else if i < |u| {
        assert r[i] in u;
        assert r[j].id == freshId(j - |u|);
      } else {
        assert r[i].id == freshId(i - |u|) && r[j].id == freshId(j - |u|);
      }
    }
  }

  /** The spaces after a merge have distinct IDs and voxels. */
  lemma MergeResultValid(sp: seq<Space>, groups: seq<set<string>>, merged: seq<Space>, freshId: nat -> string)
    requires DistinctNodes(Ids(sp)) && forall k :: 0 <= k < |sp| ==> |sp[k].voxelIndices| > 0
    requires forall a: nat, b: nat :: a != b ==> freshId(a) != freshId(b)
    requires forall k: nat, s :: s in sp ==> freshId(k) != s.id
    requires MergedFor(sp, groups, merged, freshId)
    ensures var r := Unmerged(sp, Union(groups)) + merged;
      DistinctNodes(Ids(r)) && forall k :: 0 <= k < |r| ==> |r[k].voxelIndices| > 0
  {
    var unmerged := Unmerged(sp, Union(groups));
    forall t | 0 <= t < |merged| ensures merged[t].id == freshId(t) && |merged[t].voxelIndices| > 0 {
      MergedSpaceVoxels(Members(sp, groups[t]), freshId(t));
    }
    DistinctAfterMerge(sp, Union(groups), merged, freshId);
    forall k | 0 <= k < |unmerged + merged| ensures |(unmerged + merged)[k].voxelIndices| > 0 {
      if k < |unmerged| {
        assert unmerged[k] in unmerged;
        var i :| 0 <= i < |sp| && sp[i] == unmerged[k];
      } else {
        assert (unmerged + merged)[k] == merged[k - |unmerged|];
      }
    }
  }

  // ---------------------------------------------------------------------------
  // Adjacency after a merge

  /** The IDs `_update_adjacency_after_merge` looks up for a space: its `merged_from` list, or its own ID. */
  function Sources(s: Space): seq<string>
  {
    if s.mergedFrom.Some? then s.mergedFrom.value else [s.id]
  }

  /** Some source of `a` was adjacent to some source of `b` before the merge. */
  predicate SourcesTouch(g: Graph<()>, a: Space, b: Space)
  {
    exists x, y :: x in Sources(a) && y in Sources(b) && HasEdge(g, x, y)
  }

  ghost function LinkedPairs(sp: seq<Space>, g: Graph<()>): set<set<string>>
  {
    set i: nat, j: nat | i < j < |sp| && SourcesTouch(g, sp[i], sp[j]) :: {sp[i].id, sp[j].id}
  }

  /** The graph `_update_adjacency_after_merge` builds from the previous one. */
  ghost function AdjacencyAfterMerge(sp: seq<Space>, g: Graph<()>): Graph<()>
  {
    Graph(Ids(sp), map e | e in LinkedPairs(sp, g) :: ())
  }

  /** The linked pairs a row-major scan over `i < j` has passed before `(i, j)`. */
  ghost function LinkedBefore(sp: seq<Space>, g: Graph<()>, i: nat, j: nat): set<set<string>>
  {
    set i': nat, j': nat | i' < j' < |sp| && (i' < i || (i' == i && j' < j)) &&
      SourcesTouch(g, sp[i'], sp[j']) :: {sp[i'].id, sp[j'].id}
  }

  lemma LinkedBeforeStep(sp: seq<Space>, g: Graph<()>, i: nat, j: nat)
    requires i < j < |sp|
    ensures LinkedBefore(sp, g, i, j + 1) == LinkedBefore(sp, g, i, j) +
      (if SourcesTouch(g, sp[i], sp[j]) then {{sp[i].id, sp[j].id}} else {})
  {
    var rhs := LinkedBefore(sp, g, i, j) + (if SourcesTouch(g, sp[i], sp[j]) then {{sp[i].id, sp[j].id}} else {});
    forall e | e in LinkedBefore(sp, g, i, j + 1) ensures e in rhs {
      var i': nat, j': nat :| i' < j' < |sp| && (i' < i || (i' == i && j' < j + 1)) &&
        SourcesTouch(g, sp[i'], sp[j']) && e == {sp[i'].id, sp[j'].id};
      if i' < i || j' < j {
        assert e in LinkedBefore(sp, g, i, j);
      } else {
        assert i' == i && j' == j;
      }
    }
  }

  lemma LinkedBeforeRow(sp: seq<Space>, g: Graph<()>, i: nat)
    requires i < |sp|
    ensures LinkedBefore(sp, g, i, i + 1) == LinkedBefore(sp, g, i, 0)
    ensures LinkedBefore(sp, g, i, |sp|) == LinkedBefore(sp, g, i + 1, 0)
  {
    forall e | e in LinkedBefore(sp, g, i, i + 1) ensures e in LinkedBefore(sp, g, i, 0) {
      var i': nat, j': nat :| i' < j' < |sp| && (i' < i || (i' == i && j' < i + 1)) &&
        SourcesTouch(g, sp[i'], sp[j']) && e == {sp[i'].id, sp[j'].id};
    }
  }

  lemma LinkedBeforeEnd(sp: seq<Space>, g: Graph<()>)
    ensures LinkedBefore(sp, g, |sp|, 0) == LinkedPairs(sp, g)
  {
  }

  lemma AdjacencyAfterMergeWellFormed(sp: seq<Space>, g: Graph<()>)
    requires DistinctNodes(Ids(sp))
    ensures WellFormed(AdjacencyAfterMerge(sp, g))
  {
    forall e, x | e in LinkedPairs(sp, g) && x in e
      ensures x in Ids(sp)
    {
      var i: nat, j: nat :| i < j < |sp| && SourcesTouch(g, sp[i], sp[j]) && e == {sp[i].id, sp[j].id};
      assert Ids(sp)[i] == sp[i].id && Ids(sp)[j] == sp[j].id;
    }
  }

  /**
   * After a merge two spaces are adjacent exactly when a source of one was
   * adjacent to a source of the other; a space that took part in no merge is
   * its own source, so unmerged pairs keep their previous edge.
   */
  lemma AdjacentAfterMergeIff(sp: seq<Space>, g: Graph<()>, i: nat, j: nat)
    requires DistinctNodes(Ids(sp)) && i < j < |sp|
    ensures HasEdge(AdjacencyAfterMerge(sp, g), sp[i].id, sp[j].id) <==> SourcesTouch(g, sp[i], sp[j])
    ensures sp[i].mergedFrom.None? && sp[j].mergedFrom.None? ==>
      (HasEdge(AdjacencyAfterMerge(sp, g), sp[i].id, sp[j].id) <==> HasEdge(g, sp[i].id, sp[j].id))
  {
    LinkedPairOnlyFromSources(sp, g, i, j);
    if sp[i].mergedFrom.None? && sp[j].mergedFrom.None? && SourcesTouch(g, sp[i], sp[j]) {
      var x, y :| x in Sources(sp[i]) && y in Sources(sp[j]) && HasEdge(g, x, y);
      assert x == sp[i].id && y == sp[j].id;
    }
  }

  /** With distinct IDs, the pair of `sp[i]` and `sp[j]` is linked only by their own sources. */
  lemma LinkedPairOnlyFromSources(sp: seq<Space>, g: Graph<()>, i: nat, j: nat)
    requires DistinctNodes(Ids(sp)) && i < j < |sp|
    ensures {sp[i].id, sp[j].id} in LinkedPairs(sp, g) <==> SourcesTouch(g, sp[i], sp[j])
  {
    var e := {sp[i].id, sp[j].id};
    assert Ids(sp)[i] == sp[i].id && Ids(sp)[j] == sp[j].id;
    if e in LinkedPairs(sp, g) {
      var a: nat, b: nat :| a < b < |sp| && SourcesTouch(g, sp[a], sp[b]) && e == {sp[a].id, sp[b].id};
      assert Ids(sp)[a] == sp[a].id && Ids(sp)[b] == sp[b].id;
      assert sp[a].id in e && sp[b].id in e;
      assert a == i && b == j;
    }
  }

  // ---------------------------------------------------------------------------
  // The detector

  class SpaceDetector {
    const minSpaceVolume: real
    const spaceMergeDistance: real
    const maxSeedPoints: nat
    var spaces: seq<Space>
    var adjacency: Graph<()>

    /** The adjacency graph has one node per space, in space order, and every space has voxels. */
    ghost predicate Valid()
      reads this
    {
      WellFormed(adjacency) && adjacency.nodes == Ids(spaces) &&
      forall k :: 0 <= k < |spaces| ==> |spaces[k].voxelIndices| > 0
    }

    constructor(minSpaceVolume: real, spaceMergeDistance: real, maxSeedPoints: nat)
      ensures Valid()
      ensures this.minSpaceVolume == minSpaceVolume && this.spaceMergeDistance == spaceMergeDistance
      ensures this.maxSeedPoints == maxSeedPoints
      ensures spaces == [] && adjacency == Graph([], map[])
    {
      this.minSpaceVolume := minSpaceVolume;
      this.spaceMergeDistance := spaceMergeDistance;
      this.maxSeedPoints := maxSeedPoints;
      spaces := [];
      adjacency := Graph([], map[]);
    }

    /** The in-bounds True face neighbours of `c`, in direction order (the inner loop of the search). */
    method OpenNeighbours(grid: array3<bool>, c: Cell) returns (pushed: seq<Cell>)
      ensures |pushed| <= 6
      ensures forall j :: 0 <= j < |pushed| ==> IsOpen(grid, pushed[j]) && FaceAdjacent(c, pushed[j])
      ensures forall k :: 0 <= k < 6 && IsOpen(grid, Shift(c, Offset6(k))) ==> Shift(c, Offset6(k)) in pushed
    {
      pushed := [];
      for k := 0 to 6
        invariant |pushed| <= k
        invariant forall j :: 0 <= j < |pushed| ==> IsOpen(grid, pushed[j]) && FaceAdjacent(c, pushed[j])
        invariant forall k' :: 0 <= k' < k && IsOpen(grid, Shift(c, Offset6(k'))) ==> Shift(c, Offset6(k')) in pushed
      {
        var n := Shift(c, Offset6(k));
        if 0 <= n.0 < grid.Length0 && 0 <= n.1 < grid.Length1 && 0 <= n.2 < grid.Length2 && grid[n.0, n.1, n.2] {
          OffsetAdjacent(c, k);
          pushed := pushed + [n];
        }
      }
    }

    /**
     * `_flood_fill_3d`: breadth-first search from `start` that sets every cell
     * 6-connected to it through True cells to False, in place. A False start
     * leaves the grid unchanged; no other cell changes.
     */
    method FloodFill3D(grid: array3<bool>, start: Cell)
      requires InGrid(grid, start)
      modifies grid
      ensures forall x, y, z | 0 <= x < grid.Length0 && 0 <= y < grid.Length1 && 0 <= z < grid.Length2 ::
        grid[x, y, z] == (old(grid[x, y, z]) && !Connected(old(OpenCells(grid)), start, (x, y, z)))
    {
      ghost var open0 := OpenCells(grid);
      if !grid[start.0, start.1, start.2] {
        forall c ensures !Connected(open0, start, c) {
          NotOpenNotConnected(open0, start, c);
        }
        return;
      }
      ConnectedSelf(open0, start);
      var queue := [start];
      ghost var live := open0;
      while queue != []
        invariant Mirrors(grid, live)
        invariant forall c :: c in live ==> InGrid(grid, c)
        invariant forall j :: 0 <= j < |queue| ==> InGrid(grid, queue[j])
        invariant SearchState(open0, live, queue, start)
        decreases |live| * 7 + |queue|
      {
        var c := queue[0];
        if !grid[c.0, c.1, c.2] {
          SkipStep(open0, live, queue, start);
          queue := queue[1..];
          continue;
        }
        label BeforeClear:
        grid[c.0, c.1, c.2] := false;
        forall x, y, z | 0 <= x < grid.Length0 && 0 <= y < grid.Length1 && 0 <= z < grid.Length2
          ensures grid[x, y, z] <==> (x, y, z) in live - {c}
        {
          if (x, y, z) != c {
            assert grid[x, y, z] == old@BeforeClear(grid[x, y, z]);
          }
        }
        var pushed := OpenNeighbours(grid, c);
        forall j | 0 <= j < |pushed|
          ensures pushed[j] in live
        {
          assert IsOpen(grid, pushed[j]);
        }
        forall k | 0 <= k < 6 && Shift(c, Offset6(k)) in live - {c}
          ensures Shift(c, Offset6(k)) in pushed
        {
          var n := Shift(c, Offset6(k));
          assert grid[n.0, n.1, n.2];
        }
        ClearStep(open0, live, queue, start, pushed);
        live := live - {c};
        queue := queue[1..] + pushed;
      }
      SearchDone(open0, live, start);
    }

    /**
     * `_remove_external_space`: floods a copy of `empty` from each boundary seed
     * used. `seeds` lists the empty boundary cells once each, in the order the
     * loop visits them (the random permutation when there are more than
     * `max_seed_points`); only the first `max_seed_points` are used. The input
     * is not modified, and the result keeps an empty cell exactly when no used
     * seed reaches it.
     */
    method RemoveExternalSpace(empty: array3<bool>, seeds: seq<Cell>) returns (filled: array3<bool>)
      requires ListsExactly(seeds, BoundarySeeds(OpenCells(empty), empty.Length0, empty.Length1, empty.Length2))
      ensures fresh(filled)
      ensures filled.Length0 == empty.Length0 && filled.Length1 == empty.Length1 && filled.Length2 == empty.Length2
      ensures forall x, y, z | 0 <= x < empty.Length0 && 0 <= y < empty.Length1 && 0 <= z < empty.Length2 ::
        filled[x, y, z] == (empty[x, y, z] && !ReachedFromAny(OpenCells(empty), TakeFirst(seeds, maxSeedPoints), (x, y, z)))
    {
      filled := new bool[empty.Length0, empty.Length1, empty.Length2]((x, y, z) reads empty =>
        if 0 <= x < empty.Length0 && 0 <= y < empty.Length1 && 0 <= z < empty.Length2 then empty[x, y, z] else false);
      var used := TakeFirst(seeds, maxSeedPoints);
      ghost var open0 := OpenCells(empty);
      SeedsInBox(seeds, open0, empty.Length0, empty.Length1, empty.Length2);
      for i := 0 to |used|
        invariant forall x, y, z | 0 <= x < empty.Length0 && 0 <= y < empty.Length1 && 0 <= z < empty.Length2 ::
          filled[x, y, z] == (empty[x, y, z] && !ReachedFromAny(open0, used[..i], (x, y, z)))
      {
        assert used[i] == seeds[i];
        FloodSeed(empty, filled, open0, used, i);
      }
      assert used[..|used|] == used;
    }

    /** One pass of the seed loop of `_remove_external_space`: the flood from the `i`-th seed used. */
    method FloodSeed(empty: array3<bool>, filled: array3<bool>, ghost open0: set<Cell>, used: seq<Cell>, i: nat)
      requires filled != empty && open0 == OpenCells(empty)
      requires filled.Length0 == empty.Length0 && filled.Length1 == empty.Length1 && filled.Length2 == empty.Length2
      requires i < |used| && InGrid(filled, used[i])
      requires forall x, y, z | 0 <= x < empty.Length0 && 0 <= y < empty.Length1 && 0 <= z < empty.Length2 ::
        filled[x, y, z] == (empty[x, y, z] && !ReachedFromAny(open0, used[..i], (x, y, z)))
      modifies filled
      ensures forall x, y, z | 0 <= x < empty.Length0 && 0 <= y < empty.Length1 && 0 <= z < empty.Length2 ::
        filled[x, y, z] == (empty[x, y, z] && !ReachedFromAny(open0, used[..i + 1], (x, y, z)))
    {
      ghost var current := OpenCells(filled);
      forall d ensures d in current <==> d in Remaining(open0, used[..i]) {
        if d in current {
          assert filled[d.0, d.1, d.2];
        }
        if d in Remaining(open0, used[..i]) {
          assert empty[d.0, d.1, d.2];
          assert filled[d.0, d.1, d.2];
        }
      }
      assert current == Remaining(open0, used[..i]);
      label BeforeFill:
      FloodFill3D(filled, used[i]);
      forall x, y, z | 0 <= x < empty.Length0 && 0 <= y < empty.Length1 && 0 <= z < empty.Length2
        ensures filled[x, y, z] == (empty[x, y, z] && !ReachedFromAny(open0, used[..i + 1], (x, y, z)))
      {
        ReachedPrefix(open0, used, i, (x, y, z));
        if old@BeforeFill(filled[x, y, z]) {
          FloodWithinRemaining(open0, used[..i], used[i], (x, y, z));
        }
      }
    }
  
    /**
     * The scan of `_detect_space_adjacency`: every space against every other
     * one in its search range, collecting an edge for each pair whose voxels touch.
     */
    method TouchingEdges(sp: seq<Space>, voxelSize: real) returns (edges: map<set<string>, ()>)
      ensures edges.Keys == TouchingPairs(sp, voxelSize)
    {
      edges := map[];
      if |sp| <= 1 {
        NoPairsInSingleton(sp, voxelSize);
        return;
      }
      for i := 0 to |sp|
        invariant edges.Keys == TouchingBefore(sp, voxelSize, i, 0)
      {
        edges := TouchingRow(sp, voxelSize, i, edges);
      }
      TouchingBeforeEnd(sp, voxelSize);
    }

    /** One row of the adjacency scan: space `i` against every space of the list. */
    method TouchingRow(sp: seq<Space>, voxelSize: real, i: nat, edges0: map<set<string>, ()>)
      returns (edges: map<set<string>, ()>)
      requires i < |sp| && edges0.Keys == TouchingBefore(sp, voxelSize, i, 0)
      ensures edges.Keys == TouchingBefore(sp, voxelSize, i + 1, 0)
    {
      edges := edges0;
      for j := 0 to |sp|
        invariant edges.Keys == TouchingBefore(sp, voxelSize, i, j)
      {
        TouchingBeforeStep(sp, voxelSize, i, j);
        ghost var before := TouchingBefore(sp, voxelSize, i, j);
        if j != i && Nearby(sp[i], sp[j], voxelSize) && VoxelsTouch(sp[i].voxelIndices, sp[j].voxelIndices) {
          assert DetectRel(sp, voxelSize, i, j);
          edges := edges[{sp[i].id, sp[j].id} := ()];
          assert edges.Keys == before + {{sp[i].id, sp[j].id}};
        } else {
          assert !DetectRel(sp, voxelSize, i, j);
        }
      }
      TouchingBeforeRow(sp, voxelSize, i);
    }

    /** `_detect_space_adjacency`: a new graph with one node per space and the touching pairs as edges. */
    method DetectSpaceAdjacency(voxelSize: real)
      modifies this
      ensures spaces == old(spaces)
      ensures adjacency == AdjacencyOf(spaces, voxelSize)
    {
      var edges := TouchingEdges(spaces, voxelSize);
      UnitMapOfKeys(edges, TouchingPairs(spaces, voxelSize));
      adjacency := Graph(Ids(spaces), edges);
    }

    /** `~voxel_grid`: a new grid whose True cells are the False cells of `g`. */
    method Invert(g: array3<bool>) returns (empty: array3<bool>)
      ensures fresh(empty)
      ensures empty.Length0 == g.Length0 && empty.Length1 == g.Length1 && empty.Length2 == g.Length2
      ensures forall x, y, z | 0 <= x < g.Length0 && 0 <= y < g.Length1 && 0 <= z < g.Length2 ::
        empty[x, y, z] == !g[x, y, z]
      ensures OpenCells(empty) == EmptyCells(g)
    {
      empty := new bool[g.Length0, g.Length1, g.Length2]((x, y, z) reads g =>
        if 0 <= x < g.Length0 && 0 <= y < g.Length1 && 0 <= z < g.Length2 then !g[x, y, z] else false);
      forall c ensures c in OpenCells(empty) <==> c in EmptyCells(g) {
        if c in EmptyCells(g) {
          assert empty[c.0, c.1, c.2];
        }
      }
    }

    /**
     * The filtering loop of `detect_spaces`: each component whose volume
     * reaches `min_space_volume` becomes the next `space_NNN`.
     */
    method SpacesOf(components: seq<seq<Cell>>, baseVoxelSize: real, origin: Point) returns (result: seq<Space>)
      requires forall k :: 0 <= k < |components| ==> |components[k]| > 0
      ensures result == SpacesFromComponents(components, baseVoxelSize, origin, minSpaceVolume)
    {
      result := [];
      for i := 0 to |components|
        invariant result == SpacesFromComponents(components[..i], baseVoxelSize, origin, minSpaceVolume)
      {
        var component := components[i];
        assert components[..i + 1] == components[..i] + [component];
        SpacesFromComponentsAppend(components[..i], component, baseVoxelSize, origin, minSpaceVolume);
        var volume := ComponentVolume(component, baseVoxelSize);
        if volume < minSpaceVolume {
          assert result + [] == result;
          continue;
        }
        result := result + [NewSpace(component, |result|, baseVoxelSize, origin)];
      }
      assert components[..|components|] == components;
    }

    /**
     * `detect_spaces`: with no voxel grid nothing changes and no spaces are
     * returned. Otherwise the empty cells are the grid's False cells, the
     * exterior is removed from them, and each labelled component of the
     * interior whose volume reaches `min_space_volume` becomes a space.
     * `components` are the 6-connected components of the returned interior as
     * the labelling library lists them.
     */
    method DetectSpaces(voxelGrid: Option<array3<bool>>, seeds: seq<Cell>, components: seq<seq<Cell>>,
                        baseVoxelSize: real, origin: Point) returns (found: seq<Space>, interior: Option<array3<bool>>)
      requires Valid()
      requires voxelGrid.Some? ==> var g := voxelGrid.value;
        ListsExactly(seeds, BoundarySeeds(EmptyCells(g), g.Length0, g.Length1, g.Length2))
      requires forall k :: 0 <= k < |components| ==> |components[k]| > 0
      modifies this
      ensures Valid()
      ensures voxelGrid.None? ==> found == [] && interior.None? && spaces == old(spaces) && adjacency == old(adjacency)
      ensures voxelGrid.Some? ==> var g := voxelGrid.value;
        interior.Some? && fresh(interior.value) &&
        interior.value.Length0 == g.Length0 && interior.value.Length1 == g.Length1 && interior.value.Length2 == g.Length2 &&
        (forall x, y, z | 0 <= x < g.Length0 && 0 <= y < g.Length1 && 0 <= z < g.Length2 ::
          interior.value[x, y, z] == (!g[x, y, z] && !ReachedFromAny(EmptyCells(g), TakeFirst(seeds, maxSeedPoints), (x, y, z)))) &&
        spaces == SpacesFromComponents(components, baseVoxelSize, origin, minSpaceVolume) && found == spaces &&
        adjacency == AdjacencyOf(spaces, baseVoxelSize)
    {
      if voxelGrid.None? {
        return [], None;
      }
      var g := voxelGrid.value;
      var empty := Invert(g);
      var filled := RemoveExternalSpace(empty, seeds);
      assert forall x, y, z | 0 <= x < g.Length0 && 0 <= y < g.Length1 && 0 <= z < g.Length2 ::
        filled[x, y, z] == (!g[x, y, z] && !ReachedFromAny(EmptyCells(g), TakeFirst(seeds, maxSeedPoints), (x, y, z)));
      var result := SpacesOf(components, baseVoxelSize, origin);
      spaces := result;
      DetectedIdsDistinct(components, baseVoxelSize, origin, minSpaceVolume);
      DetectSpaceAdjacency(baseVoxelSize);
      AdjacencyOfWellFormed(spaces, baseVoxelSize);
      forall k | 0 <= k < |spaces| ensures |spaces[k].voxelIndices| > 0 {
        DetectedSpaceFields(components, baseVoxelSize, origin, minSpaceVolume, k);
      }
      found := spaces;
      interior := Some(filled);
    }
  
    /** The `extend` loop of `_merge_spaces`. */
    method ConcatVoxels(group: seq<Space>) returns (all: seq<Cell>)
      ensures all == AllVoxels(group)
    {
      all := [];
      for k := 0 to |group|
        invariant all == AllVoxels(group[..k])
      {
        assert group[..k + 1][..k] == group[..k];
        all := all + group[k].voxelIndices;
      }
      assert group[..|group|] == group;
    }

    /** `_merge_spaces` for a non-empty group of spaces with voxels. */
    method MergeSpaces(group: seq<Space>, newId: string) returns (m: Space)
      requires |group| > 0 && forall k :: 0 <= k < |group| ==> |group[k].voxelIndices| > 0
      ensures |AllVoxels(group)| > 0
      ensures m == MergedSpace(group, newId)
    {
      var all := ConcatVoxels(group);
      GroupHasVoxels(group, 0);
      m := MergedFrom(group, all, newId);
    }

    /** The edge loop of `merge_fragmented_spaces`: the edges whose spaces pass the merge test, in order. */
    method MergeCandidates(sp: seq<Space>, edgeOrder: seq<(string, string)>) returns (pairs: seq<(string, string)>)
      requires EndpointsAreIds(sp, edgeOrder)
      ensures pairs == MergePairs(sp, edgeOrder, spaceMergeDistance)
    {
      pairs := [];
      for k := 0 to |edgeOrder|
        invariant pairs == MergePairs(sp, edgeOrder[..k], spaceMergeDistance)
      {
        assert edgeOrder[..k + 1][..k] == edgeOrder[..k];
        var space1 := Lookup(sp, edgeOrder[k].0);
        var space2 := Lookup(sp, edgeOrder[k].1);
        if ShouldMerge(space1, space2, spaceMergeDistance) {
          pairs := pairs + [edgeOrder[k]];
        }
      }
      assert edgeOrder[..|edgeOrder|] == edgeOrder;
    }

    /**
     * The four-way test of `_update_adjacency_after_merge` for one pair: source
     * against source when both are merged, source against ID when one is, ID
     * against ID when neither is. All four agree with one rule.
     */
    method SpacesLinked(g: Graph<()>, space1: Space, space2: Space) returns (linked: bool)
      ensures linked == SourcesTouch(g, space1, space2)
    {
      linked := false;
      if space1.mergedFrom.Some? && space2.mergedFrom.Some? {
        var srcs1, srcs2 := space1.mergedFrom.value, space2.mergedFrom.value;
        var p := 0;
        while p < |srcs1| && !linked
          invariant 0 <= p <= |srcs1|
          invariant linked ==> SourcesTouch(g, space1, space2)
          invariant !linked ==> forall p', q :: 0 <= p' < p && 0 <= q < |srcs2| ==> !HasEdge(g, srcs1[p'], srcs2[q])
        {
          var q := 0;
          while q < |srcs2|
            invariant 0 <= q <= |srcs2|
            invariant forall q' :: 0 <= q' < q ==> !HasEdge(g, srcs1[p], srcs2[q'])
          {
            if HasEdge(g, srcs1[p], srcs2[q]) {
              linked := true;
              break;
            }
            q := q + 1;
          }
          p := p + 1;
        }
      } else if space1.mergedFrom.Some? {
        var srcs1 := space1.mergedFrom.value;
        for p := 0 to |srcs1|
          invariant !linked ==> forall p' :: 0 <= p' < p ==> !HasEdge(g, srcs1[p'], space2.id)
          invariant linked ==> SourcesTouch(g, space1, space2)
        {
          if HasEdge(g, srcs1[p], space2.id) {
            linked := true;
            break;
          }
        }
      } else if space2.mergedFrom.Some? {
        var srcs2 := space2.mergedFrom.value;
        for q := 0 to |srcs2|
          invariant !linked ==> forall q' :: 0 <= q' < q ==> !HasEdge(g, space1.id, srcs2[q'])
          invariant linked ==> SourcesTouch(g, space1, space2)
        {
          if HasEdge(g, space1.id, srcs2[q]) {
            linked := true;
            break;
          }
        }
      } else {
        linked := HasEdge(g, space1.id, space2.id);
      }
    }

    /** The pair loop of `_update_adjacency_after_merge`. */
    method LinkedEdges(sp: seq<Space>, g: Graph<()>) returns (edges: map<set<string>, ()>)
      ensures edges.Keys == LinkedPairs(sp, g)
    {
      edges := map[];
      for i := 0 to |sp|
        invariant edges.Keys == LinkedBefore(sp, g, i, 0)
      {
        edges := LinkedRow(sp, g, i, edges);
      }
      LinkedBeforeEnd(sp, g);
    }

    /** One row of the pair loop: space `i` against every later space. */
    method LinkedRow(sp: seq<Space>, g: Graph<()>, i: nat, edges0: map<set<string>, ()>) returns (edges: map<set<string>, ()>)
      requires i < |sp| && edges0.Keys == LinkedBefore(sp, g, i, 0)
      ensures edges.Keys == LinkedBefore(sp, g, i + 1, 0)
    {
      edges := edges0;
      LinkedBeforeRow(sp, g, i);
      var j := i + 1;
      while j < |sp|
        invariant i < j <= |sp|
        invariant edges.Keys == LinkedBefore(sp, g, i, j)
      {
        var linked := SpacesLinked(g, sp[i], sp[j]);
        edges := AddLinked(sp, g, i, j, edges, linked);
        j := j + 1;
      }
    }

    /** Records the pair `(i, j)` when the test linked it. */
    method AddLinked(sp: seq<Space>, g: Graph<()>, i: nat, j: nat, edges0: map<set<string>, ()>, linked: bool)
      returns (edges: map<set<string>, ()>)
      requires i < j < |sp| && edges0.Keys == LinkedBefore(sp, g, i, j)
      requires linked == SourcesTouch(g, sp[i], sp[j])
      ensures edges.Keys == LinkedBefore(sp, g, i, j + 1)
    {
      LinkedBeforeStep(sp, g, i, j);
      edges := edges0;
      if linked {
        edges := edges[{sp[i].id, sp[j].id} := ()];
      }
    }

    /** `_update_adjacency_after_merge`: rebuilds the graph over the current spaces from the previous one. */
    method UpdateAdjacencyAfterMerge()
      modifies this
      ensures spaces == old(spaces)
      ensures adjacency == AdjacencyAfterMerge(spaces, old(adjacency))
    {
      var edges := LinkedEdges(spaces, adjacency);
      UnitMapOfKeys(edges, LinkedPairs(spaces, adjacency));
      adjacency := Graph(Ids(spaces), edges);
    }
  
    /**
     * The group loop of `merge_fragmented_spaces`: each component of more
     * than one space becomes one merged space, with the next fresh ID; the IDs
     * of the spaces merged are collected.
     */
    method MergeGroups(sp: seq<Space>, mg: Graph<()>, comps: seq<set<string>>, freshId: nat -> string)
      returns (groups: seq<set<string>>, merged: seq<Space>, mergedIds: set<string>)
      requires WellFormed(mg)
      requires forall k :: 0 <= k < |comps| ==> IsComponent(mg, comps[k])
      requires forall v :: v in mg.nodes ==> v in Ids(sp)
      requires forall k :: 0 <= k < |sp| ==> |sp[k].voxelIndices| > 0
      ensures groups == LargeGroups(comps)
      ensures MergedFor(sp, groups, merged, freshId)
      ensures forall s :: s in sp ==> (s.id in mergedIds <==> s.id in Union(groups))
    {
      groups, merged, mergedIds := [], [], {};
      for k := 0 to |comps|
        invariant groups == LargeGroups(comps[..k])
        invariant MergedFor(sp, groups, merged, freshId)
        invariant forall s :: s in sp ==> (s.id in mergedIds <==> s.id in Union(groups))
      {
        var component := comps[k];
        LargeGroupsStep(comps, k);
        if |component| <= 1 {
          continue;
        }
        var members := Members(sp, component);
        GroupMembersHaveVoxels(sp, mg, component);
        MergedIdsStep(sp, mergedIds, groups, component);
        mergedIds := mergedIds + set m | m in members :: m.id;
        var m := MergeSpaces(members, freshId(|merged|));
        MergedForAppend(sp, groups, merged, freshId, component, m);
        merged := merged + [m];
        groups := groups + [component];
      }
      assert comps[..|comps|] == comps;
    }

    /**
     * The merge itself, on a list of at least two spaces: the candidate pairs
     * and their components are computed and, when there is a pair, each large
     * component's spaces are replaced by their merged space at the end of the
     * list. `found` is false when there is nothing to merge.
     */
    method PlanMerge(sp: seq<Space>, edgeOrder: seq<(string, string)>, freshId: nat -> string)
      returns (found: bool, groups: seq<set<string>>, result: seq<Space>)
      requires DistinctNodes(Ids(sp)) && forall k :: 0 <= k < |sp| ==> |sp[k].voxelIndices| > 0
      requires EndpointsAreIds(sp, edgeOrder)
      requires forall a: nat, b: nat :: a != b ==> freshId(a) != freshId(b)
      requires forall k: nat, s :: s in sp ==> freshId(k) != s.id
      ensures var pairs := MergePairs(sp, edgeOrder, spaceMergeDistance);
        found <==> pairs != []
      ensures !found ==> groups == [] && result == sp
      ensures found ==>
        LargeComponents(MergeGraph(MergePairs(sp, edgeOrder, spaceMergeDistance)), groups) &&
        GroupsHaveVoxels(sp, groups) &&
        result == Unmerged(sp, Union(groups)) + MergedList(sp, groups, freshId)
      ensures DistinctNodes(Ids(result)) && forall k :: 0 <= k < |result| ==> |result[k].voxelIndices| > 0
    {
      var pairs := MergeCandidates(sp, edgeOrder);
      var mg := MergeGraph(pairs);
      var comps := ConnectedComponents(mg);
      ComponentsIffPairs(pairs, comps);
      if comps == [] {
        return false, [], sp;
      }
      MergeGraphNodesAreIds(sp, pairs);
      var merged, mergedIds;
      groups, merged, mergedIds := MergeGroups(sp, mg, comps, freshId);
      LargeGroupsAreComponents(mg, comps);
      MergedForList(sp, groups, merged, freshId);
      UnmergedSameIds(sp, mergedIds, Union(groups));
      var unmerged := Unmerged(sp, mergedIds);
      MergeResultValid(sp, groups, merged, freshId);
      found, result := true, unmerged + merged;
    }

    /**
     * `merge_fragmented_spaces`. `edgeOrder` is the order in which networkx
     * lists the adjacency edges, and `freshId(t)` the ID drawn for the `t`-th
     * merged space.
     */
    method MergeFragmentedSpaces(edgeOrder: seq<(string, string)>, freshId: nat -> string) returns (groups: seq<set<string>>)
      requires Valid()
      requires ListsEdges(adjacency, edgeOrder)
      requires forall a: nat, b: nat :: a != b ==> freshId(a) != freshId(b)
      requires forall k: nat, s :: s in spaces ==> freshId(k) != s.id
      modifies this
      ensures Valid()
      ensures EndpointsAreIds(old(spaces), edgeOrder)
      ensures var pairs := MergePairs(old(spaces), edgeOrder, spaceMergeDistance);
        (|old(spaces)| <= 1 || pairs == []) ==> groups == [] && spaces == old(spaces) && adjacency == old(adjacency)
      ensures var pairs := MergePairs(old(spaces), edgeOrder, spaceMergeDistance);
        |old(spaces)| > 1 && pairs != [] ==>
          LargeComponents(MergeGraph(pairs), groups) &&
          GroupsHaveVoxels(old(spaces), groups) &&
          spaces == Unmerged(old(spaces), Union(groups)) + MergedList(old(spaces), groups, freshId) &&
          adjacency == AdjacencyAfterMerge(spaces, old(adjacency))
      ensures |old(spaces)| > 1 ==>
        PassingAdjacentMerged(old(spaces), old(adjacency), spaceMergeDistance, groups)
    {
      EdgeEndpointsAreIds(spaces, adjacency, edgeOrder);
      if |spaces| <= 1 {
        return [];
      }
      var found, result;
      found, groups, result := PlanMerge(spaces, edgeOrder, freshId);
      if !found {
        NoLargeComponents(MergeGraph(MergePairs(spaces, edgeOrder, spaceMergeDistance)));
      }
      AllAdjacentPassingMerged(spaces, adjacency, edgeOrder, spaceMergeDistance, groups);
      if !found {
        return;
      }
      spaces := result;
      UpdateAdjacencyAfterMerge();
      AdjacencyAfterMergeWellFormed(spaces, old(adjacency));
    }
  }
}
