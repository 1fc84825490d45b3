/**
 * Discrete helpers over voxel skeletons and point clouds: the graph of a
 * skeleton under 26-connectivity, the degree classification of its nodes,
 * the junction filter on paths between special nodes, point bucketing, the
 * connectivity argument of component labelling, the guard and swap of the
 * opening features and the parity rule of ray casting.
 */
module GeometryUtils {
  import opened Wrappers
  import opened Numbers

  type Cell = (int, int, int)

  datatype Point = Point(x: real, y: real, z: real)

  function Abs(n: int): nat { if n < 0 then -n else n }

  // ---------------------------------------------------------------------
  // The 3 x 3 x 3 neighbourhood
  // ---------------------------------------------------------------------

  /**
   * The offset visited at step `k` of the nested `dx`, `dy`, `dz` loops over
   * [-1, 0, 1]; step 13 is the centre (0, 0, 0), which is skipped.
   */
  function Offset(k: nat): (d: Cell)
    requires k < 27
    ensures Abs(d.0) <= 1 && Abs(d.1) <= 1 && Abs(d.2) <= 1
  {
    var a := if k < 9 then 0 else if k < 18 then 1 else 2;
    var r := k - 9 * a;
    var b := if r < 3 then 0 else if r < 6 then 1 else 2;
    (a - 1, b - 1, r - 3 * b - 1)
  }

  /** The loop step at which the offset `d` is visited. */
  function OffsetIndex(d: Cell): (k: nat)
    requires Abs(d.0) <= 1 && Abs(d.1) <= 1 && Abs(d.2) <= 1
    ensures k < 27 && Offset(k) == d && (k == 13 <==> d == (0, 0, 0))
  {
    assert d.0 in {-1, 0, 1} && d.1 in {-1, 0, 1} && d.2 in {-1, 0, 1};
    (d.0 + 1) * 9 + (d.1 + 1) * 3 + (d.2 + 1)
  }

  function Shift(c: Cell, d: Cell): Cell
  {
    (c.0 + d.0, c.1 + d.1, c.2 + d.2)
  }

  /** Number of axes on which an offset is non-zero (its squared length). */
  function NonZero(d: Cell): nat
  {
    (if d.0 != 0 then 1 else 0) + (if d.1 != 0 then 1 else 0) + (if d.2 != 0 then 1 else 0)
  }

  /** Two distinct cells that differ by at most one on every axis. */
  predicate Neighbours(a: Cell, b: Cell)
  {
    a != b && Abs(a.0 - b.0) <= 1 && Abs(a.1 - b.1) <= 1 && Abs(a.2 - b.2) <= 1
  }

  /** `dx**2 + dy**2 + dz**2` for the offset between two cells. */
  function SquaredDistance(a: Cell, b: Cell): nat
  {
    (a.0 - b.0) * (a.0 - b.0) + (a.1 - b.1) * (a.1 - b.1) + (a.2 - b.2) * (a.2 - b.2)
  }

  lemma NeighbourDistance(a: Cell, b: Cell)
    requires Neighbours(a, b)
    ensures SquaredDistance(a, b) == SquaredDistance(b, a) == NonZero((b.0 - a.0, b.1 - a.1, b.2 - a.2))
    ensures 1 <= SquaredDistance(a, b) <= 3
  {
    var dx, dy, dz := b.0 - a.0, b.1 - a.1, b.2 - a.2;
    assert dx in {-1, 0, 1} && dy in {-1, 0, 1} && dz in {-1, 0, 1};
    assert dx * dx == (if dx != 0 then 1 else 0);
    assert dy * dy == (if dy != 0 then 1 else 0);
    assert dz * dz == (if dz != 0 then 1 else 0);
  }

  // ---------------------------------------------------------------------
  // find_connected_components: the connectivity argument
  // ---------------------------------------------------------------------

  /**
   * The rank passed to `generate_binary_structure(3, rank)` for a
   * connectivity of 6, 18 or 26; any other value raises ValueError.
   */
  function StructureRank(connectivity: int): (r: Result<nat, string>)
    ensures r.Ok? <==> connectivity in {6, 18, 26}
    ensures r.Err? ==> r.error == "ValueError"
  {
    if connectivity == 6 then Ok(1)
    else if connectivity == 18 then Ok(2)
    else if connectivity == 26 then Ok(3)
    else Err("ValueError")
  }

  /**
   * Whether the structuring element of `rank` holds the neighbour at offset
   * `d`: those within a squared distance of `rank` from the centre.
   */
  function Within(rank: nat, d: Cell): nat
  {
    if 1 <= NonZero(d) <= rank then 1 else 0
  }

  function RowSize(rank: nat, dx: int, dy: int): nat
  {
    Within(rank, (dx, dy, -1)) + Within(rank, (dx, dy, 0)) + Within(rank, (dx, dy, 1))
  }

  function PlaneSize(rank: nat, dx: int): nat
  {
    RowSize(rank, dx, -1) + RowSize(rank, dx, 0) + RowSize(rank, dx, 1)
  }

  /** Number of neighbours in the 3 x 3 x 3 structuring element of `rank`. */
  function StructureSize(rank: nat): nat
  {
    PlaneSize(rank, -1) + PlaneSize(rank, 0) + PlaneSize(rank, 1)
  }

  /**
   * The structuring element chosen for an accepted connectivity has exactly
   * that many neighbours: 6 by face, 18 by face or edge, 26 by any contact.
   */
  lemma StructureMatchesConnectivity(connectivity: int)
    requires StructureRank(connectivity).Ok?
    ensures StructureSize(StructureRank(connectivity).value) == connectivity
  {
    if connectivity == 6 {
      FaceStructure();
    } else if connectivity == 18 {
      EdgeStructure();
    } else {
      VertexStructure();
    }
  }

  lemma FaceStructure() ensures StructureSize(1) == 6 {}
  lemma EdgeStructure() ensures StructureSize(2) == 18 {}
  lemma VertexStructure() ensures StructureSize(3) == 26 {}

  // ---------------------------------------------------------------------
  // create_graph_from_skeleton
  // ---------------------------------------------------------------------

  /** Attributes of a skeleton node: its world position and voxel coordinate. */
  datatype SkeletonNode = SkeletonNode(position: Point, voxelCoord: Cell)

  /**
   * An undirected graph on the nodes 0 .. |nodes| - 1. An edge is keyed by
   * its end points in ascending order; its value is the squared step
   * length `dx**2 + dy**2 + dz**2`, whose square root times the voxel size
   * is the edge weight.
   */
  datatype SkeletonGraph = SkeletonGraph(nodes: seq<SkeletonNode>, edges: map<(nat, nat), nat>)

  function Key(a: nat, b: nat): (nat, nat)
  {
    if a < b then (a, b) else (b, a)
  }

  /** `origin + coord * voxel_size`. */
  function Position(origin: Point, c: Cell, voxelSize: real): Point
  {
    Point(origin.x + c.0 as real * voxelSize, origin.y + c.1 as real * voxelSize,
          origin.z + c.2 as real * voxelSize)
  }

  /** `np.where` lists every true cell of the skeleton once. */
  predicate Distinct(coords: seq<Cell>)
  {
    forall i, j :: 0 <= i < j < |coords| ==> coords[i] != coords[j]
  }

  /** Every pair of neighbouring skeleton voxels, by node number. */
  ghost function SkeletonEdges(coords: seq<Cell>): set<(nat, nat)>
  {
    set a: nat, b: nat | a < b < |coords| && Neighbours(coords[a], coords[b]) :: (a, b)
  }

  /** Node `a` reaches node `b` through the offset visited at step `k`. */
  predicate Step(coords: seq<Cell>, a: nat, k: nat, b: nat)
  {
    a < |coords| && b < |coords| && k < 27 && k != 13 && coords[b] == Shift(coords[a], Offset(k))
  }

  /** The edges added once node `i` has visited the offsets before step `k`. */
  ghost function EdgesBefore(coords: seq<Cell>, i: nat, k: nat): set<(nat, nat)>
  {
    set a: nat, s: nat, b: nat | a < |coords| && b < |coords| && s < 27 &&
      (a < i || (a == i && s < k)) && Step(coords, a, s, b) :: Key(a, b)
  }

  /** Every edge's value is the squared distance between its voxels. */
  predicate WeightsFit(coords: seq<Cell>, edges: map<(nat, nat), nat>)
  {
    forall e :: e in edges ==> e.0 < e.1 < |coords| && edges[e] == SquaredDistance(coords[e.0], coords[e.1])
  }

  lemma StepNeighbours(coords: seq<Cell>, a: nat, k: nat, b: nat)
    requires Step(coords, a, k, b)
    ensures Neighbours(coords[a], coords[b]) && a != b
  {
    assert Offset(k) != (0, 0, 0) by {
      assert OffsetIndex(Offset(k)) == k;
    }
  }

  lemma EdgesBeforeStep(coords: seq<Cell>, i: nat, k: nat)
    requires i < |coords| && k < 27
    ensures EdgesBefore(coords, i, k + 1) ==
      EdgesBefore(coords, i, k) + set b: nat | b < |coords| && Step(coords, i, k, b) :: Key(i, b)
  {
    var rhs := EdgesBefore(coords, i, k) + set b: nat | b < |coords| && Step(coords, i, k, b) :: Key(i, b);
    forall e | e in EdgesBefore(coords, i, k + 1) ensures e in rhs {
      var a: nat, s: nat, b: nat :| a < |coords| && b < |coords| && s < 27 &&
        (a < i || (a == i && s < k + 1)) && Step(coords, a, s, b) && e == Key(a, b);
      if a < i || s < k {
        assert e in EdgesBefore(coords, i, k);
      }
    }
  }

  lemma EdgesBeforeRow(coords: seq<Cell>, i: nat)
    ensures EdgesBefore(coords, i, 27) == EdgesBefore(coords, i + 1, 0)
  {
  }

  lemma EdgesBeforeEnd(coords: seq<Cell>)
    requires Distinct(coords)
    ensures EdgesBefore(coords, |coords|, 0) == SkeletonEdges(coords)
  {
    forall e | e in EdgesBefore(coords, |coords|, 0) ensures e in SkeletonEdges(coords) {
      var a: nat, s: nat, b: nat :| a < |coords| && b < |coords| && s < 27 &&
        Step(coords, a, s, b) && e == Key(a, b);
      StepEdge(coords, a, s, b);
    }
    forall e | e in SkeletonEdges(coords) ensures e in EdgesBefore(coords, |coords|, 0) {
      var a: nat, b: nat :| a < b < |coords| && Neighbours(coords[a], coords[b]) && e == (a, b);
      NeighboursStep(coords, a, b);
    }
  }

  lemma StepEdge(coords: seq<Cell>, a: nat, k: nat, b: nat)
    requires Step(coords, a, k, b)
    ensures Key(a, b) in SkeletonEdges(coords)
  {
    StepNeighbours(coords, a, k, b);
    if a < b {
      assert Key(a, b) == (a, b);
    } else {
      assert Key(a, b) == (b, a) && Neighbours(coords[b], coords[a]);
    }
  }

  /** Every neighbouring pair is reached from its first node by some offset. */
  lemma NeighboursStep(coords: seq<Cell>, a: nat, b: nat)
    requires a < b < |coords| && Neighbours(coords[a], coords[b])
    ensures (a, b) in EdgesBefore(coords, |coords|, 0)
  {
    var d := (coords[b].0 - coords[a].0, coords[b].1 - coords[a].1, coords[b].2 - coords[a].2);
    var s := OffsetIndex(d);
    assert Step(coords, a, s, b);
  }

  /** `np.where((coords == c).all(axis=1))[0][0]`: the first node at `c`. */
  method FirstIndex(coords: seq<Cell>, c: Cell) returns (j: nat)
    requires c in coords
    ensures j < |coords| && coords[j] == c
    ensures forall m :: 0 <= m < j ==> coords[m] != c
  {
    j := 0;
    while coords[j] != c
      invariant j < |coords| && c in coords[j..]
      invariant forall m :: 0 <= m < j ==> coords[m] != c
      decreases |coords| - j
    {
      j := j + 1;
    }
  }

  /**
   * The skeleton graph: node `i` for the `i`-th skeleton voxel, and an edge
   * between every two distinct voxels that touch under 26-connectivity.
   */
  method CreateGraphFromSkeleton(coords: seq<Cell>, voxelSize: real, origin: Point) returns (g: SkeletonGraph)
    requires Distinct(coords)
    ensures |g.nodes| == |coords|
    ensures forall i :: 0 <= i < |coords| ==>
      g.nodes[i] == SkeletonNode(Position(origin, coords[i], voxelSize), coords[i])
    ensures g.edges.Keys == SkeletonEdges(coords)
    ensures WeightsFit(coords, g.edges)
  {
    var nodes: seq<SkeletonNode> := [];
    for i := 0 to |coords|
      invariant |nodes| == i
      invariant forall m :: 0 <= m < i ==> nodes[m] == SkeletonNode(Position(origin, coords[m], voxelSize), coords[m])
    {
      nodes := nodes + [SkeletonNode(Position(origin, coords[i], voxelSize), coords[i])];
    }
    var present := set c | c in coords;
    var edges: map<(nat, nat), nat> := map[];
    for i := 0 to |coords|
      invariant edges.Keys == EdgesBefore(coords, i, 0)
      invariant WeightsFit(coords, edges)
    {
      for k := 0 to 27
        invariant edges.Keys == EdgesBefore(coords, i, k)
        invariant WeightsFit(coords, edges)
      {
        EdgesBeforeStep(coords, i, k);
        if k != 13 {
          var neighbour := Shift(coords[i], Offset(k));
          if neighbour in present {
            var j := FirstIndex(coords, neighbour);
            assert Step(coords, i, k, j);
            StepNeighbours(coords, i, k, j);
            NeighbourDistance(coords[i], coords[j]);
            assert forall b: nat :: b < |coords| && Step(coords, i, k, b) ==> b == j;
            edges := edges[Key(i, j) := SquaredDistance(coords[i], coords[j])];
          } else {
            assert forall b: nat :: b < |coords| ==> !Step(coords, i, k, b);
          }
        }
      }
      EdgesBeforeRow(coords, i);
    }
    EdgesBeforeEnd(coords);
    g := SkeletonGraph(nodes, edges);
  }

  /**
   * The edge relation of the skeleton graph in terms of node numbers: it is
   * symmetric, and nodes `a` and `b` are joined exactly when they are
   * distinct voxels one step apart on every axis, with a squared step of 1,
   * 2 or 3.
   */
  lemma SkeletonEdgeIff(coords: seq<Cell>, a: nat, b: nat)
    requires a < |coords| && b < |coords|
    ensures Key(a, b) == Key(b, a)
    ensures Key(a, b) in SkeletonEdges(coords) <==> a != b && Neighbours(coords[a], coords[b])
    ensures Key(a, b) in SkeletonEdges(coords) ==> 1 <= SquaredDistance(coords[a], coords[b]) <= 3
  {
    if Key(a, b) in SkeletonEdges(coords) {
      var x: nat, y: nat :| x < y < |coords| && Neighbours(coords[x], coords[y]) && Key(a, b) == (x, y);
      NeighbourDistance(coords[x], coords[y]);
    }
    if a != b && Neighbours(coords[a], coords[b]) {
      if a < b {
        assert Key(a, b) in SkeletonEdges(coords);
      } else {
        assert Key(a, b) in SkeletonEdges(coords);
      }
    }
  }

  // ---------------------------------------------------------------------
  // classify_skeleton_points
  // ---------------------------------------------------------------------

  datatype PointClass = Endpoint | Junction | Passage

  /** `graph.degree(node)`: the number of nodes joined to `v`. */
  function Degree(g: SkeletonGraph, v: nat): nat
  {
    |set u: nat | u < |g.nodes| && u != v && Key(u, v) in g.edges|
  }

  /** The label of a node of the given degree. */
  function ClassOf(degree: nat): (c: PointClass)
    ensures c == Endpoint <==> degree == 1
    ensures c == Junction <==> degree > 2
    ensures c == Passage <==> degree == 0 || degree == 2
  {
    if degree == 1 then Endpoint
    else if degree > 2 then Junction
    else Passage
  }

  /**
   * The classification dictionary: one label per node, in node order, so
   * that `classes[v]` is the label of node `v`.
   */
  method ClassifySkeletonPoints(g: SkeletonGraph) returns (classes: seq<PointClass>)
    ensures |classes| == |g.nodes|
    ensures forall v :: 0 <= v < |g.nodes| ==> classes[v] == ClassOf(Degree(g, v))
  {
    classes := [];
    for v := 0 to |g.nodes|
      invariant |classes| == v
      invariant forall u :: 0 <= u < v ==> classes[u] == ClassOf(Degree(g, u))
    {
      var degree := Degree(g, v);
      classes := classes + [ClassOf(degree)];
    }
  }

  // ---------------------------------------------------------------------
  // extract_paths_between_junctions
  // ---------------------------------------------------------------------

  /** A node that can end a skeleton path: a junction or an endpoint. */
  predicate Special(c: PointClass)
  {
    c == Junction || c == Endpoint
  }

  /** The special nodes, in the order of the classification. */
  function SpecialPoints(classes: seq<PointClass>): (s: seq<nat>)
    ensures forall v: nat :: v in s <==> v < |classes| && Special(classes[v])
    ensures forall i, j :: 0 <= i < j < |s| ==> s[i] < s[j]
  {
    if classes == [] then []
    else
      var s := SpecialPoints(classes[..|classes| - 1]);
      assert forall t :: 0 <= t < |s| ==> s[t] < |classes| - 1 by {
        forall t | 0 <= t < |s| ensures s[t] < |classes| - 1 {
          assert s[t] in s;
        }
      }
      s + (if Special(classes[|classes| - 1]) then [|classes| - 1] else [])
  }

  /** `classification.get(node) == "junction"`. */
  predicate IsJunction(classes: seq<PointClass>, v: nat)
  {
    v < |classes| && classes[v] == Junction
  }

  /** Some node of `path[1:-1]` is a junction. */
  predicate InnerJunction(classes: seq<PointClass>, path: seq<nat>)
  {
    exists m :: 1 <= m < |path| - 1 && IsJunction(classes, path[m])
  }

  /** The pairs `(s[i], s[j'])` for `j <= j' < |s|`, in loop order. */
  function Row(s: seq<nat>, i: nat, j: nat): seq<(nat, nat)>
    requires i < |s| && j <= |s|
    decreases |s| - j
  {
    if j == |s| then [] else [(s[i], s[j])] + Row(s, i, j + 1)
  }

  /** The pairs visited from outer step `i` on: each start with every later end. */
  function PairsFrom(s: seq<nat>, i: nat): seq<(nat, nat)>
    decreases |s| - i
  {
    if i >= |s| then [] else Row(s, i, i + 1) + PairsFrom(s, i + 1)
  }

  /**
   * The paths kept for the given pairs: the shortest path of a connected
   * pair, unless a junction lies strictly inside it. `route(a, b)` stands
   * for `nx.has_path` and `nx.shortest_path`: None when no path exists.
   */
  function Kept(pairs: seq<(nat, nat)>, route: (nat, nat) -> Option<seq<nat>>, classes: seq<PointClass>): seq<seq<nat>>
  {
    if pairs == [] then []
    else
      var r := route(pairs[0].0, pairs[0].1);
      (if r.Some? && !InnerJunction(classes, r.value) then [r.value] else []) + Kept(pairs[1..], route, classes)
  }

  lemma {:induction false} KeptAppend(a: seq<(nat, nat)>, b: seq<(nat, nat)>,
                                      route: (nat, nat) -> Option<seq<nat>>, classes: seq<PointClass>)
    ensures Kept(a + b, route, classes) == Kept(a, route, classes) + Kept(b, route, classes)
  {
    if a == [] {
      assert a + b == b;
    } else {
      assert (a + b)[0] == a[0];
      assert (a + b)[1..] == a[1..] + b;
      KeptAppend(a[1..], b, route, classes);
    }
  }

  /** `path[1:-1]` holds a junction; the scan stops at the first one. */
  method ContainsOtherJunction(path: seq<nat>, classes: seq<PointClass>) returns (found: bool)
    ensures found <==> InnerJunction(classes, path)
  {
    found := false;
    var m := 1;
    while m < |path| - 1
      invariant 1 <= m
      invariant forall t :: 1 <= t < m && t < |path| - 1 ==> !IsJunction(classes, path[t])
      decreases |path| - m
    {
      if IsJunction(classes, path[m]) {
        found := true;
        break;
      }
      m := m + 1;
    }
  }

  /** The paths kept from the start `s[i]` to every later special node. */
  method PathsFromStart(s: seq<nat>, i: nat, route: (nat, nat) -> Option<seq<nat>>, classes: seq<PointClass>)
    returns (found: seq<seq<nat>>)
    requires i < |s|
    ensures found == Kept(Row(s, i, i + 1), route, classes)
  {
    found := [];
    for j := i + 1 to |s|
      invariant found + Kept(Row(s, i, j), route, classes) == Kept(Row(s, i, i + 1), route, classes)
    {
      var start, end := s[i], s[j];
      assert Row(s, i, j)[0] == (start, end) && Row(s, i, j)[1..] == Row(s, i, j + 1);
      var r := route(start, end);
      if r.Some? {
        var inner := ContainsOtherJunction(r.value, classes);
        if !inner {
          found := found + [r.value];
        }
      }
    }
  }

  /**
   * The paths between special nodes: for every pair of special nodes, in
   * classification order, the shortest path between them when there is one
   * and no junction lies strictly inside it.
   */
  method ExtractPathsBetweenJunctions(classes: seq<PointClass>, route: (nat, nat) -> Option<seq<nat>>)
    returns (paths: seq<seq<nat>>)
    ensures paths == Kept(PairsFrom(SpecialPoints(classes), 0), route, classes)
  {
    var special := SpecialPoints(classes);
    ghost var total := Kept(PairsFrom(special, 0), route, classes);
    paths := [];
    for i := 0 to |special|
      invariant paths + Kept(PairsFrom(special, i), route, classes) == total
    {
      KeptAppend(Row(special, i, i + 1), PairsFrom(special, i + 1), route, classes);
      var found := PathsFromStart(special, i, route, classes);
      paths := paths + found;
    }
  }

  lemma {:induction false} RowMembers(s: seq<nat>, i: nat, j: nat, x: nat, y: nat)
    requires i < |s| && j <= |s|
    ensures (x, y) in Row(s, i, j) <==> x == s[i] && y in s[j..]
    decreases |s| - j
  {
    if j < |s| {
      RowMembers(s, i, j + 1, x, y);
      assert Row(s, i, j) == [(s[i], s[j])] + Row(s, i, j + 1);
      assert s[j..] == [s[j]] + s[j + 1..];
    } else {
      assert Row(s, i, j) == [] && s[j..] == [];
    }
  }

  /** Pairs are listed in strictly increasing lexicographic order. */
  predicate LexLess(p: (nat, nat), q: (nat, nat))
  {
    p.0 < q.0 || (p.0 == q.0 && p.1 < q.1)
  }

  predicate Ascending(s: seq<nat>)
  {
    forall i, j :: 0 <= i < j < |s| ==> s[i] < s[j]
  }

  predicate LexSorted(ps: seq<(nat, nat)>)
  {
    forall t, u :: 0 <= t < u < |ps| ==> LexLess(ps[t], ps[u])
  }

  lemma {:induction false} RowOrdered(s: seq<nat>, i: nat, j: nat)
    requires Ascending(s) && i < |s| && j <= |s|
    ensures forall t :: 0 <= t < |Row(s, i, j)| ==> Row(s, i, j)[t].0 == s[i]
    ensures forall t :: 0 <= t < |Row(s, i, j)| ==> j < |s| && s[j] <= Row(s, i, j)[t].1
    ensures LexSorted(Row(s, i, j))
    decreases |s| - j
  {
    if j < |s| {
      RowOrdered(s, i, j + 1);
      var r := Row(s, i, j + 1);
      assert Row(s, i, j) == [(s[i], s[j])] + r;
      assert forall t :: 0 <= t < |r| ==> s[j] < s[j + 1] <= r[t].1;
      forall t | 0 <= t < |Row(s, i, j)| ensures s[j] <= Row(s, i, j)[t].1 {
        if t > 0 {
          assert Row(s, i, j)[t] == r[t - 1];
        }
      }
    } else {
      assert Row(s, i, j) == [];
    }
  }

  /** A sorted row of one start followed by sorted pairs of later starts is sorted. */
  lemma SortedConcat(row: seq<(nat, nat)>, rest: seq<(nat, nat)>, x: nat)
    requires LexSorted(row) && LexSorted(rest)
    requires forall t :: 0 <= t < |row| ==> row[t].0 == x
    requires forall t :: 0 <= t < |rest| ==> x < rest[t].0
    ensures LexSorted(row + rest)
  {
    var all := row + rest;
    forall t, u | 0 <= t < u < |all| ensures LexLess(all[t], all[u]) {
      if u < |row| {
        assert all[t] == row[t] && all[u] == row[u];
      } else if t >= |row| {
        assert all[t] == rest[t - |row|] && all[u] == rest[u - |row|];
      } else {
        assert all[t] == row[t] && all[u] == rest[u - |row|];
      }
    }
  }

  lemma {:induction false} PairsOrdered(s: seq<nat>, i: nat)
    requires Ascending(s)
    ensures forall t :: 0 <= t < |PairsFrom(s, i)| ==> i < |s| && s[i] <= PairsFrom(s, i)[t].0
    ensures LexSorted(PairsFrom(s, i))
    decreases |s| - i
  {
    if i < |s| {
      PairsOrdered(s, i + 1);
      RowOrdered(s, i, i + 1);
      var row, rest := Row(s, i, i + 1), PairsFrom(s, i + 1);
      assert forall t :: 0 <= t < |rest| ==> s[i] < s[i + 1] <= rest[t].0;
      SortedConcat(row, rest, s[i]);
      var all := row + rest;
      assert PairsFrom(s, i) == all;
      forall t | 0 <= t < |all| ensures i < |s| && s[i] <= all[t].0 {
        if t < |row| {
          assert all[t] == row[t];
        } else {
          assert all[t] == rest[t - |row|];
        }
      }
    } else {
      assert PairsFrom(s, i) == [];
    }
  }

  /** `x` occurs in `s` at or after position `i`, and `y` somewhere after it. */
  ghost predicate PairIn(s: seq<nat>, i: nat, x: nat, y: nat)
  {
    exists a :: i <= a < |s| && s[a] == x && y in s[a + 1..]
  }

  lemma {:induction false} PairsMembers(s: seq<nat>, i: nat, x: nat, y: nat)
    ensures (x, y) in PairsFrom(s, i) <==> PairIn(s, i, x, y)
    decreases |s| - i
  {
    if i < |s| {
      PairsMembers(s, i + 1, x, y);
      RowMembers(s, i, i + 1, x, y);
      assert PairsFrom(s, i) == Row(s, i, i + 1) + PairsFrom(s, i + 1);
      if PairIn(s, i, x, y) {
        var a :| i <= a < |s| && s[a] == x && y in s[a + 1..];
        if a > i {
          assert PairIn(s, i + 1, x, y);
        }
      }
      if PairIn(s, i + 1, x, y) {
        var a :| i + 1 <= a < |s| && s[a] == x && y in s[a + 1..];
        assert PairIn(s, i, x, y);
      }
    } else {
      assert PairsFrom(s, i) == [];
    }
  }

  /** In an ascending sequence, the pairs of later-after-earlier elements are the ascending pairs. */
  lemma AscendingPairs(s: seq<nat>, x: nat, y: nat)
    requires Ascending(s)
    ensures PairIn(s, 0, x, y) <==> x < y && x in s && y in s
  {
    if PairIn(s, 0, x, y) {
      var a :| 0 <= a < |s| && s[a] == x && y in s[a + 1..];
      var t :| 0 <= t < |s[a + 1..]| && s[a + 1..][t] == y;
      assert s[a + 1 + t] == y;
    }
    if x < y && x in s && y in s {
      var a :| 0 <= a < |s| && s[a] == x;
      var b :| 0 <= b < |s| && s[b] == y;
      assert a < b;
      assert s[a + 1..][b - a - 1] == y;
    }
  }

  /**
   * Every unordered pair of distinct special nodes is considered exactly
   * once: as (x, y) with x before y, never as (y, x), and never twice.
   */
  lemma PairsConsideredOnce(classes: seq<PointClass>, x: nat, y: nat)
    ensures (x, y) in PairsFrom(SpecialPoints(classes), 0) <==>
      x < y < |classes| && Special(classes[x]) && Special(classes[y])
    ensures forall t, u :: 0 <= t < u < |PairsFrom(SpecialPoints(classes), 0)| ==>
      PairsFrom(SpecialPoints(classes), 0)[t] != PairsFrom(SpecialPoints(classes), 0)[u]
  {
    var s := SpecialPoints(classes);
    PairsMembers(s, 0, x, y);
    AscendingPairs(s, x, y);
    PairsOrdered(s, 0);
  }

  lemma {:induction false} KeptMembers(pairs: seq<(nat, nat)>, route: (nat, nat) -> Option<seq<nat>>,
                                       classes: seq<PointClass>, p: seq<nat>)
    ensures p in Kept(pairs, route, classes) <==>
      exists t :: 0 <= t < |pairs| && route(pairs[t].0, pairs[t].1) == Some(p) && !InnerJunction(classes, p)
  {
    if pairs != [] {
      KeptMembers(pairs[1..], route, classes, p);
      if exists t :: 0 <= t < |pairs| && route(pairs[t].0, pairs[t].1) == Some(p) && !InnerJunction(classes, p) {
        var t :| 0 <= t < |pairs| && route(pairs[t].0, pairs[t].1) == Some(p) && !InnerJunction(classes, p);
        if t > 0 {
          assert pairs[1..][t - 1] == pairs[t];
        }
      }
      if exists t :: 0 <= t < |pairs[1..]| && route(pairs[1..][t].0, pairs[1..][t].1) == Some(p) && !InnerJunction(classes, p) {
        var t :| 0 <= t < |pairs[1..]| && route(pairs[1..][t].0, pairs[1..][t].1) == Some(p) && !InnerJunction(classes, p);
        assert pairs[t + 1] == pairs[1..][t];
      }
    }
  }

  /**
   * A path is extracted exactly when it is the shortest path between two
   * special nodes x < y and no junction lies strictly inside it.
   */
  lemma ExtractedPaths(classes: seq<PointClass>, route: (nat, nat) -> Option<seq<nat>>, p: seq<nat>)
    ensures p in Kept(PairsFrom(SpecialPoints(classes), 0), route, classes) <==>
      !InnerJunction(classes, p) &&
      exists x: nat, y: nat :: x < y < |classes| && Special(classes[x]) && Special(classes[y]) && route(x, y) == Some(p)
  {
    var pairs := PairsFrom(SpecialPoints(classes), 0);
    KeptMembers(pairs, route, classes, p);
    if p in Kept(pairs, route, classes) {
      var t :| 0 <= t < |pairs| && route(pairs[t].0, pairs[t].1) == Some(p) && !InnerJunction(classes, p);
      ExtractedFromPair(classes, route, p, pairs[t].0, pairs[t].1);
    }
    if !InnerJunction(classes, p) &&
      exists x: nat, y: nat :: x < y < |classes| && Special(classes[x]) && Special(classes[y]) && route(x, y) == Some(p) {
      var x: nat, y: nat :| x < y < |classes| && Special(classes[x]) && Special(classes[y]) && route(x, y) == Some(p);
      PairExtracted(classes, route, p, x, y);
    }
  }

  lemma ExtractedFromPair(classes: seq<PointClass>, route: (nat, nat) -> Option<seq<nat>>, p: seq<nat>, x: nat, y: nat)
    requires (x, y) in PairsFrom(SpecialPoints(classes), 0) && route(x, y) == Some(p)
    ensures x < y < |classes| && Special(classes[x]) && Special(classes[y])
  {
    PairsConsideredOnce(classes, x, y);
  }

  lemma PairExtracted(classes: seq<PointClass>, route: (nat, nat) -> Option<seq<nat>>, p: seq<nat>, x: nat, y: nat)
    requires x < y < |classes| && Special(classes[x]) && Special(classes[y]) && route(x, y) == Some(p)
    requires !InnerJunction(classes, p)
    ensures p in Kept(PairsFrom(SpecialPoints(classes), 0), route, classes)
  {
    var pairs := PairsFrom(SpecialPoints(classes), 0);
    PairsConsideredOnce(classes, x, y);
    var t :| 0 <= t < |pairs| && pairs[t] == (x, y);
    KeptMembers(pairs, route, classes, p);
  }

  // ---------------------------------------------------------------------
  // voxelize_points
  // ---------------------------------------------------------------------

  /** `np.floor(p / voxel_size)`: the voxel holding point `p`. */
  function VoxelOf(p: Point, voxelSize: real): Cell
    requires voxelSize > 0.0
  {
    ((p.x / voxelSize).Floor, (p.y / voxelSize).Floor, (p.z / voxelSize).Floor)
  }

  /** `idx * voxel_size + voxel_size / 2`: the centre of a voxel. */
  function Center(c: Cell, voxelSize: real): Point
  {
    Point(c.0 as real * voxelSize + voxelSize / 2.0, c.1 as real * voxelSize + voxelSize / 2.0,
          c.2 as real * voxelSize + voxelSize / 2.0)
  }

  /** A bucket of `c`: ascending indices below `n` of points in voxel `c`. */
  predicate BucketOf(points: seq<Point>, voxelSize: real, n: nat, c: Cell, bucket: seq<nat>)
    requires voxelSize > 0.0 && n <= |points|
  {
    |bucket| > 0 &&
    (forall t :: 0 <= t < |bucket| ==> bucket[t] < n && VoxelOf(points[bucket[t]], voxelSize) == c) &&
    (forall t, u :: 0 <= t < u < |bucket| ==> bucket[t] < bucket[u])
  }

  /**
   * The voxel dictionary after the first `n` points: `buckets` maps each
   * voxel to its points, and `order` lists the voxels in insertion order,
   * that is, by their first point.
   */
  predicate Bucketed(points: seq<Point>, voxelSize: real, n: nat, buckets: map<Cell, seq<nat>>, order: seq<Cell>)
    requires voxelSize > 0.0
  {
    n <= |points| &&
    (forall i :: 0 <= i < n ==> VoxelOf(points[i], voxelSize) in buckets && i in buckets[VoxelOf(points[i], voxelSize)]) &&
    (forall c :: c in buckets ==> BucketOf(points, voxelSize, n, c, buckets[c])) &&
    buckets.Keys == (set c | c in order) &&
    (forall m, m' :: 0 <= m < m' < |order| ==>
      (order[m] in buckets && order[m'] in buckets && buckets[order[m]][0] < buckets[order[m']][0]))
  }

  /**
   * The voxel centres and the voxel dictionary of a point cloud: every point
   * index lies in the bucket of its voxel, in ascending order, and the
   * centres follow the dictionary's key order.
   */
  method VoxelizePoints(points: seq<Point>, voxelSize: real) returns (centers: seq<Point>, buckets: map<Cell, seq<nat>>, order: seq<Cell>)
    requires voxelSize > 0.0
    ensures Bucketed(points, voxelSize, |points|, buckets, order)
    ensures |centers| == |order| && forall m :: 0 <= m < |order| ==> centers[m] == Center(order[m], voxelSize)
  {
    buckets, order := map[], [];
    for i := 0 to |points|
      invariant Bucketed(points, voxelSize, i, buckets, order)
    {
      buckets, order := AddPoint(points, voxelSize, i, buckets, order);
    }
    centers := seq(|order|, m requires 0 <= m < |order| => Center(order[m], voxelSize));
  }

  /** One step of the bucketing loop: point `i` joins the bucket of its voxel. */
  method AddPoint(points: seq<Point>, voxelSize: real, i: nat, buckets: map<Cell, seq<nat>>, order: seq<Cell>)
    returns (buckets': map<Cell, seq<nat>>, order': seq<Cell>)
    requires voxelSize > 0.0 && i < |points| && Bucketed(points, voxelSize, i, buckets, order)
    ensures Bucketed(points, voxelSize, i + 1, buckets', order')
  {
    var c := VoxelOf(points[i], voxelSize);
    if c in buckets {
      BucketAppend(points, voxelSize, i, buckets, order, c);
      buckets', order' := buckets[c := buckets[c] + [i]], order;
    } else {
      BucketInsert(points, voxelSize, i, buckets, order, c);
      buckets', order' := buckets[c := [i]], order + [c];
    }
  }

  lemma BucketAppend(points: seq<Point>, voxelSize: real, i: nat, buckets: map<Cell, seq<nat>>, order: seq<Cell>, c: Cell)
    requires voxelSize > 0.0 && i < |points| && Bucketed(points, voxelSize, i, buckets, order)
    requires c == VoxelOf(points[i], voxelSize) && c in buckets
    ensures Bucketed(points, voxelSize, i + 1, buckets[c := buckets[c] + [i]], order)
  {
    var next := buckets[c := buckets[c] + [i]];
    forall d | d in next ensures BucketOf(points, voxelSize, i + 1, d, next[d]) {
      if d == c {
        BucketGrow(points, voxelSize, i, c, buckets[c]);
      } else {
        BucketWiden(points, voxelSize, i, d, buckets[d]);
      }
    }
    forall m, m' | 0 <= m < m' < |order| ensures next[order[m]][0] < next[order[m']][0] {
      assert next[order[m]][0] == buckets[order[m]][0];
      assert next[order[m']][0] == buckets[order[m']][0];
    }
  }

  lemma BucketGrow(points: seq<Point>, voxelSize: real, i: nat, c: Cell, bucket: seq<nat>)
    requires voxelSize > 0.0 && i < |points| && BucketOf(points, voxelSize, i, c, bucket)
    requires c == VoxelOf(points[i], voxelSize)
    ensures BucketOf(points, voxelSize, i + 1, c, bucket + [i])
  {
  }

  lemma BucketWiden(points: seq<Point>, voxelSize: real, i: nat, c: Cell, bucket: seq<nat>)
    requires voxelSize > 0.0 && i < |points| && BucketOf(points, voxelSize, i, c, bucket)
    ensures BucketOf(points, voxelSize, i + 1, c, bucket)
  {
  }

  lemma BucketInsert(points: seq<Point>, voxelSize: real, i: nat, buckets: map<Cell, seq<nat>>, order: seq<Cell>, c: Cell)
    requires voxelSize > 0.0 && i < |points| && Bucketed(points, voxelSize, i, buckets, order)
    requires c == VoxelOf(points[i], voxelSize) && c !in buckets
    ensures Bucketed(points, voxelSize, i + 1, buckets[c := [i]], order + [c])
  {
    var next, order' := buckets[c := [i]], order + [c];
    forall d | d in next ensures BucketOf(points, voxelSize, i + 1, d, next[d]) {
      if d != c {
        BucketWiden(points, voxelSize, i, d, buckets[d]);
      }
    }
    assert next.Keys == set d | d in order';
    forall m, m' | 0 <= m < m' < |order'|
      ensures order'[m] in next && order'[m'] in next && next[order'[m]][0] < next[order'[m']][0]
    {
      assert order'[m] == order[m] && order[m] in order;
      assert order[m] in buckets;
      if m' < |order| {
        assert order'[m'] == order[m'];
      } else {
        assert order'[m'] == c;
        assert BucketOf(points, voxelSize, i, order[m], buckets[order[m]]);
      }
    }
  }

  /**
   * Every point index lies in exactly one bucket, the one of its own voxel,
   * and the dictionary lists each voxel once.
   */
  lemma OneBucketPerPoint(points: seq<Point>, voxelSize: real, buckets: map<Cell, seq<nat>>, order: seq<Cell>, i: nat, c: Cell)
    requires voxelSize > 0.0 && Bucketed(points, voxelSize, |points|, buckets, order) && i < |points|
    ensures c in buckets && i in buckets[c] <==> c == VoxelOf(points[i], voxelSize)
    ensures forall m, m' :: 0 <= m < m' < |order| ==> order[m] != order[m']
  {
    if c in buckets && i in buckets[c] {
      assert BucketOf(points, voxelSize, |points|, c, buckets[c]);
      var t :| 0 <= t < |buckets[c]| && buckets[c][t] == i;
    }
  }

  lemma FloorBounds(x: real, size: real)
    requires size > 0.0
    ensures ((x / size).Floor as real) * size <= x < ((x / size).Floor as real + 1.0) * size
  {
    var q := x / size;
    var k := q.Floor as real;
    assert k <= q < k + 1.0;
    assert q * size == x;
    var d := k + 1.0 - q;
    ProductPositive(d, size);
    assert (k + 1.0) * size == q * size + d * size;
    assert x < (k + 1.0) * size;
  }

  lemma ProductPositive(a: real, b: real)
    requires a > 0.0 && b > 0.0
    ensures a * b > 0.0
  {
  }

  /**
   * A point lies in the half-open cube of its voxel, and so within half a
   * voxel of that voxel's centre on every axis.
   */
  lemma PointInsideItsVoxel(p: Point, voxelSize: real)
    requires voxelSize > 0.0
    ensures var c := VoxelOf(p, voxelSize);
      c.0 as real * voxelSize <= p.x < (c.0 as real + 1.0) * voxelSize &&
      c.1 as real * voxelSize <= p.y < (c.1 as real + 1.0) * voxelSize &&
      c.2 as real * voxelSize <= p.z < (c.2 as real + 1.0) * voxelSize
  {
    FloorBounds(p.x, voxelSize);
    FloorBounds(p.y, voxelSize);
    FloorBounds(p.z, voxelSize);
  }

  // ---------------------------------------------------------------------
  // compute_opening_features: the guard and the swap
  // ---------------------------------------------------------------------

  datatype OpeningFeatures = OpeningFeatures(area: real, perimeter: real, width: real, height: real,
                                             aspectRatio: real, circularity: real)

  const NoFeatures := OpeningFeatures(0.0, 0.0, 0.0, 0.0, 0.0, 0.0)

  /** `np.pi` to double precision. */
  const Pi: real := 3.141592653589793

  function Xs(pts: seq<(real, real)>): (xs: seq<real>)
    ensures |xs| == |pts| && forall t :: 0 <= t < |pts| ==> xs[t] == pts[t].0
  {
    seq(|pts|, t requires 0 <= t < |pts| => pts[t].0)
  }

  function Ys(pts: seq<(real, real)>): (ys: seq<real>)
    ensures |ys| == |pts| && forall t :: 0 <= t < |pts| ==> ys[t] == pts[t].1
  {
    seq(|pts|, t requires 0 <= t < |pts| => pts[t].1)
  }

  /** `max - min` of a non-empty sequence. */
  function Span(xs: seq<real>): (r: real)
    requires |xs| > 0
    ensures r >= 0.0 && forall t, u :: 0 <= t < |xs| && 0 <= u < |xs| ==> xs[t] - xs[u] <= r
  {
    MaxOf(xs) - MinOf(xs)
  }

  /** `width, height = height, width` when the width is the smaller. */
  function Oriented(w: real, h: real): (r: (real, real))
    ensures r.1 <= r.0 && multiset{r.0, r.1} == multiset{w, h}
  {
    if w < h then (h, w) else (w, h)
  }

  /** `width / height if height > 0 else 0`. */
  function AspectRatio(width: real, height: real): (a: real)
    ensures 0.0 < height <= width ==> a * height == width && a >= 1.0
    ensures height <= 0.0 ==> a == 0.0
  {
    if height > 0.0 then width / height else 0.0
  }

  /** `4 * pi * area / perimeter**2 if perimeter > 0 else 0`. */
  function Circularity(area: real, perimeter: real): (c: real)
    ensures perimeter > 0.0 ==> c * (perimeter * perimeter) == 4.0 * Pi * area
    ensures perimeter <= 0.0 ==> c == 0.0
  {
    if perimeter > 0.0 then 4.0 * Pi * area / (perimeter * perimeter) else 0.0
  }

  /**
   * The features of an opening outline with `vertexCount` vertices.
   * `projected` holds the vertices projected onto their principal plane,
   * and `area` and `perimeter` are those of its convex hull; the plane and
   * the hull are computed by numeric libraries and come in as inputs.
   */
  function ComputeOpeningFeatures(vertexCount: nat, projected: seq<(real, real)>, area: real, perimeter: real): (f: OpeningFeatures)
    requires vertexCount >= 3 ==> |projected| == vertexCount
    ensures vertexCount < 3 ==> f == NoFeatures
    ensures vertexCount >= 3 ==>
      f.area == area && f.perimeter == perimeter &&
      0.0 <= f.height <= f.width &&
      multiset{f.width, f.height} == multiset{Span(Xs(projected)), Span(Ys(projected))}
    ensures vertexCount >= 3 ==>
      f.aspectRatio == AspectRatio(f.width, f.height) && f.circularity == Circularity(area, perimeter)
  {
    if vertexCount < 3 then NoFeatures
    else
      var size := Oriented(Span(Xs(projected)), Span(Ys(projected)));
      OpeningFeatures(area, perimeter, size.0, size.1, AspectRatio(size.0, size.1), Circularity(area, perimeter))
  }

  // ---------------------------------------------------------------------
  // ray_casting: the parity rule
  // ---------------------------------------------------------------------

  /** Total number of intersections over the rays. */
  function TotalHits(counts: seq<nat>): nat
  {
    if counts == [] then 0 else TotalHits(counts[..|counts| - 1]) + counts[|counts| - 1]
  }

  /** Number of rays that cross the surface an odd number of times. */
  function OddRays(counts: seq<nat>): nat
  {
    if counts == [] then 0
    else OddRays(counts[..|counts| - 1]) + (if counts[|counts| - 1] % 2 == 1 then 1 else 0)
  }

  /**
   * Whether a point is inside a closed mesh: `counts[d]` is the number of
   * intersections of the ray in direction `d` with the mesh, which the
   * mesh library computes.
   */
  method RayCasting(counts: seq<nat>) returns (inside: bool)
    ensures inside <==> OddRays(counts) % 2 == 1
  {
    var intersections := 0;
    for d := 0 to |counts|
      invariant intersections == TotalHits(counts[..d])
    {
      assert counts[..d + 1][..d] == counts[..d];
      intersections := intersections + counts[d];
    }
    assert counts[..|counts|] == counts;
    HitsParity(counts);
    inside := intersections % 2 == 1;
  }

  /** The total is odd exactly when an odd number of rays has an odd count. */
  lemma {:induction false} HitsParity(counts: seq<nat>)
    ensures TotalHits(counts) % 2 == OddRays(counts) % 2
  {
    if counts != [] {
      HitsParity(counts[..|counts| - 1]);
    }
  }
}
