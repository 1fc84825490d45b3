/**
 * The adaptive voxelizer: the choice between the uniform grid and the
 * octree, the bounds filter on refinement voxels, the in-place refinement
 * of voxel sizes, and the octree itself (subdivision and collection of the
 * occupied leaves). Whether a point lies inside the mesh is an oracle
 * `contains`, since the mesh library answers it.
 */
module Voxelization {
  import opened Numbers
  import GeometryUtils

  type Point = GeometryUtils.Point
  type Cell = GeometryUtils.Cell

  // ---------------------------------------------------------------------
  // The octree as a value
  // ---------------------------------------------------------------------

  /** An octree node: a cube of half-size `halfSize` around `center`. */
  datatype Octree = Octree(center: Point, halfSize: real, level: nat, isLeaf: bool, isOccupied: bool,
                           children: seq<Octree>)

  /** The inputs of the subdivision: the inside test, the depth limit and the smallest voxel. */
  datatype OctreeParams = OctreeParams(contains: Point -> bool, maxLevel: nat, minVoxelSize: real)

  /**
   * The signs of the eight corners of a cube, and of its eight octants, in
   * the order the source lists them: x varies fastest, then y, then z.
   */
  function Signs(k: nat): (real, real, real)
    requires k < 8
  {
    [(-1.0, -1.0, -1.0), (1.0, -1.0, -1.0), (-1.0, 1.0, -1.0), (1.0, 1.0, -1.0),
     (-1.0, -1.0, 1.0), (1.0, -1.0, 1.0), (-1.0, 1.0, 1.0), (1.0, 1.0, 1.0)][k]
  }

  /** `center + signs * d`. */
  function Displace(c: Point, k: nat, d: real): Point
    requires k < 8
  {
    var s := Signs(k);
    GeometryUtils.Point(c.x + s.0 * d, c.y + s.1 * d, c.z + s.2 * d)
  }

  /** Corner `k` of the node's cube. */
  function Corner(c: Point, h: real, k: nat): Point
    requires k < 8
  {
    Displace(c, k, h)
  }

  /** Centre of child `k`: a quarter of the node's edge from its centre. */
  function ChildCenter(c: Point, h: real, k: nat): Point
    requires k < 8
  {
    Displace(c, k, h / 2.0)
  }

  /** `mesh.contains(node_corners)`. */
  function CornersInside(c: Point, h: real, contains: Point -> bool): (inside: seq<bool>)
    ensures |inside| == 8 && forall k :: 0 <= k < 8 ==> inside[k] == contains(Corner(c, h, k))
  {
    seq(8, k requires 0 <= k < 8 => contains(Corner(c, h, k)))
  }

  predicate AllInside(inside: seq<bool>)
  {
    forall k :: 0 <= k < |inside| ==> inside[k]
  }

  predicate AnyInside(inside: seq<bool>)
  {
    exists k :: 0 <= k < |inside| && inside[k]
  }

  /** A node at the depth limit or at the smallest voxel size is not subdivided. */
  predicate AtLimit(level: nat, h: real, p: OctreeParams)
  {
    level >= p.maxLevel || h * 2.0 <= p.minVoxelSize
  }

  /**
   * The subtree `_build_octree` makes of a node with centre `c`, half-size
   * `h`, level `level` and initial occupancy `occupied`.
   */
  function Build(c: Point, h: real, level: nat, occupied: bool, p: OctreeParams): Octree
    decreases p.maxLevel - level, 1, 0
  {
    if AtLimit(level, h, p) then Octree(c, h, level, true, occupied, [])
    else
      var inside := CornersInside(c, h, p.contains);
      if AllInside(inside) || !AnyInside(inside) then Octree(c, h, level, true, AnyInside(inside), [])
      else Octree(c, h, level, false, true, BuildChildren(c, h, level, p, 8))
  }

  /** The first `n` children of a subdivided node; a new child starts unoccupied. */
  function BuildChildren(c: Point, h: real, level: nat, p: OctreeParams, n: nat): (cs: seq<Octree>)
    requires level < p.maxLevel && n <= 8
    ensures |cs| == n
    decreases p.maxLevel - level, 0, n
  {
    if n == 0 then []
    else BuildChildren(c, h, level, p, n - 1) + [Build(ChildCenter(c, h, n - 1), h / 2.0, level + 1, false, p)]
  }

  /**
   * The subdivision rule at one node: a node at the limit is a leaf;
   * otherwise it is a leaf exactly when its corners are all inside or all
   * outside, occupied when any is inside; a subdivided node is occupied and
   * has eight children, one per octant, of half its size one level down.
   */
  predicate NodeRule(t: Octree, p: OctreeParams)
  {
    var inside := CornersInside(t.center, t.halfSize, p.contains);
    (AtLimit(t.level, t.halfSize, p) ==> t.isLeaf && t.children == []) &&
    (!AtLimit(t.level, t.halfSize, p) && (AllInside(inside) || !AnyInside(inside)) ==>
      t.isLeaf && t.isOccupied == AnyInside(inside) && t.children == []) &&
    (!AtLimit(t.level, t.halfSize, p) && !(AllInside(inside) || !AnyInside(inside)) ==>
      !t.isLeaf && t.isOccupied && |t.children| == 8 &&
      forall k :: 0 <= k < 8 ==>
        t.children[k].center == ChildCenter(t.center, t.halfSize, k) &&
        t.children[k].halfSize == t.halfSize / 2.0 && t.children[k].level == t.level + 1 &&
        (AtLimit(t.children[k].level, t.children[k].halfSize, p) ==> !t.children[k].isOccupied))
  }

  /** Every node of the tree follows the subdivision rule. */
  predicate FollowsRules(t: Octree, p: OctreeParams)
    decreases t
  {
    NodeRule(t, p) && forall i :: 0 <= i < |t.children| ==> FollowsRules(t.children[i], p)
  }

  /** No node lies deeper than `maxLevel`. */
  predicate DepthBounded(t: Octree, maxLevel: nat)
    decreases t
  {
    t.level <= maxLevel && forall i :: 0 <= i < |t.children| ==> DepthBounded(t.children[i], maxLevel)
  }

  lemma {:induction false} BuildChildrenAt(c: Point, h: real, level: nat, p: OctreeParams, n: nat, k: nat)
    requires level < p.maxLevel && k < n <= 8
    ensures BuildChildren(c, h, level, p, n)[k] == Build(ChildCenter(c, h, k), h / 2.0, level + 1, false, p)
    decreases n
  {
    if k < n - 1 {
      BuildChildrenAt(c, h, level, p, n - 1, k);
    }
  }

  lemma BuildRoot(c: Point, h: real, level: nat, occupied: bool, p: OctreeParams)
    ensures var t := Build(c, h, level, occupied, p);
      t.center == c && t.halfSize == h && t.level == level &&
      (AtLimit(level, h, p) ==> t.isOccupied == occupied)
  {
  }

  lemma BuildNodeRule(c: Point, h: real, level: nat, occupied: bool, p: OctreeParams)
    ensures NodeRule(Build(c, h, level, occupied, p), p)
  {
    var t := Build(c, h, level, occupied, p);
    var inside := CornersInside(c, h, p.contains);
    if !AtLimit(level, h, p) && !(AllInside(inside) || !AnyInside(inside)) {
      forall k | 0 <= k < 8
        ensures t.children[k].center == ChildCenter(c, h, k) && t.children[k].halfSize == h / 2.0
        ensures t.children[k].level == level + 1
        ensures AtLimit(level + 1, h / 2.0, p) ==> !t.children[k].isOccupied
      {
        BuildChildrenAt(c, h, level, p, 8, k);
        BuildRoot(ChildCenter(c, h, k), h / 2.0, level + 1, false, p);
      }
    }
  }

  /** A child of a built node is the tree built from its octant, one level down. */
  lemma BuildChild(c: Point, h: real, level: nat, occupied: bool, p: OctreeParams, k: nat)
    requires k < |Build(c, h, level, occupied, p).children|
    ensures level < p.maxLevel && k < 8
    ensures Build(c, h, level, occupied, p).children[k] == Build(ChildCenter(c, h, k), h / 2.0, level + 1, false, p)
  {
    BuildChildrenAt(c, h, level, p, 8, k);
  }

  /** The built tree follows the subdivision rule at every node. */
  lemma {:induction false} BuildFollowsRules(c: Point, h: real, level: nat, occupied: bool, p: OctreeParams)
    ensures FollowsRules(Build(c, h, level, occupied, p), p)
    decreases p.maxLevel - level
  {
    var t := Build(c, h, level, occupied, p);
    BuildNodeRule(c, h, level, occupied, p);
    forall k | 0 <= k < |t.children|
      ensures FollowsRules(t.children[k], p)
    {
      BuildChild(c, h, level, occupied, p, k);
      BuildFollowsRules(ChildCenter(c, h, k), h / 2.0, level + 1, false, p);
    }
  }

  /** A tree built from a node within the depth limit never grows deeper than that limit. */
  lemma {:induction false} BuildDepthBounded(c: Point, h: real, level: nat, occupied: bool, p: OctreeParams)
    requires level <= p.maxLevel
    ensures DepthBounded(Build(c, h, level, occupied, p), p.maxLevel)
    decreases p.maxLevel - level
  {
    var t := Build(c, h, level, occupied, p);
    forall k | 0 <= k < |t.children|
      ensures DepthBounded(t.children[k], p.maxLevel)
    {
      BuildChild(c, h, level, occupied, p, k);
      BuildDepthBounded(ChildCenter(c, h, k), h / 2.0, level + 1, false, p);
    }
  }

  /** Every leaf of the tree has no children. */
  predicate LeavesChildless(t: Octree)
    decreases t
  {
    (t.isLeaf ==> t.children == []) && forall i :: 0 <= i < |t.children| ==> LeavesChildless(t.children[i])
  }

  lemma {:induction false} RulesLeavesChildless(t: Octree, p: OctreeParams)
    requires FollowsRules(t, p)
    ensures LeavesChildless(t)
    decreases t
  {
    forall i | 0 <= i < |t.children|
      ensures LeavesChildless(t.children[i])
    {
      RulesLeavesChildless(t.children[i], p);
    }
  }

  // ---------------------------------------------------------------------
  // Leaf collection
  // ---------------------------------------------------------------------

  /** An output voxel: the centre, the edge length and the level of a leaf. */
  datatype Voxel = Voxel(center: Point, size: real, level: nat)

  /** What `_collect_leaf_voxels` appends for tree `t`. */
  function LeafVoxels(t: Octree): seq<Voxel>
    decreases t, 1, 0
  {
    if t.isLeaf then (if t.isOccupied then [Voxel(t.center, t.halfSize * 2.0, t.level)] else [])
    else ChildVoxels(t, |t.children|)
  }

  /** What the first `n` children of `t` append, in order. */
  function ChildVoxels(t: Octree, n: nat): seq<Voxel>
    requires n <= |t.children|
    decreases t, 0, n
  {
    if n == 0 then [] else ChildVoxels(t, n - 1) + LeafVoxels(t.children[n - 1])
  }

  /** The nodes of `t` in pre-order: a node, then each child's subtree in turn. */
  function PreOrder(t: Octree): (nodes: seq<Octree>)
    ensures |nodes| >= 1 && nodes[0] == t
    decreases t, 1, 0
  {
    [t] + PreOrderChildren(t, |t.children|)
  }

  function PreOrderChildren(t: Octree, n: nat): seq<Octree>
    requires n <= |t.children|
    decreases t, 0, n
  {
    if n == 0 then [] else PreOrderChildren(t, n - 1) + PreOrder(t.children[n - 1])
  }

  /** The voxels of the occupied leaves among `nodes`, in their order. */
  function OccupiedLeaves(nodes: seq<Octree>): (vs: seq<Voxel>)
    ensures |vs| <= |nodes|
  {
    if nodes == [] then []
    else
      var t := nodes[|nodes| - 1];
      OccupiedLeaves(nodes[..|nodes| - 1]) +
      (if t.isLeaf && t.isOccupied then [Voxel(t.center, t.halfSize * 2.0, t.level)] else [])
  }

  lemma {:induction false} OccupiedLeavesAppend(a: seq<Octree>, b: seq<Octree>)
    ensures OccupiedLeaves(a + b) == OccupiedLeaves(a) + OccupiedLeaves(b)
    decreases |b|
  {
    if b == [] {
      assert a + b == a;
    } else {
      var b' := b[..|b| - 1];
      assert (a + b)[..|a + b| - 1] == a + b';
      OccupiedLeavesAppend(a, b');
    }
  }

  /**
   * In a tree whose leaves have no children, the collected voxels are
   * exactly the occupied leaves in pre-order, each of edge `2 * halfSize`.
   */
  lemma {:induction false} LeafVoxelsInPreOrder(t: Octree)
    requires LeavesChildless(t)
    ensures LeafVoxels(t) == OccupiedLeaves(PreOrder(t))
    decreases t, 1, 0
  {
    OccupiedLeavesAppend([t], PreOrderChildren(t, |t.children|));
    assert OccupiedLeaves([t]) == OccupiedLeaves([]) +
      (if t.isLeaf && t.isOccupied then [Voxel(t.center, t.halfSize * 2.0, t.level)] else []);
    if !t.isLeaf {
      ChildVoxelsInPreOrder(t, |t.children|);
    }
  }

  lemma {:induction false} ChildVoxelsInPreOrder(t: Octree, n: nat)
    requires LeavesChildless(t) && n <= |t.children|
    ensures ChildVoxels(t, n) == OccupiedLeaves(PreOrderChildren(t, n))
    decreases t, 0, n
  {
    if n > 0 {
      ChildVoxelsInPreOrder(t, n - 1);
      LeafVoxelsInPreOrder(t.children[n - 1]);
      OccupiedLeavesAppend(PreOrderChildren(t, n - 1), PreOrder(t.children[n - 1]));
    }
  }

  /** No collected voxel of a tree within the depth limit lies deeper than that limit. */
  lemma {:induction false} LeafVoxelsWithinDepth(t: Octree, maxLevel: nat)
    requires DepthBounded(t, maxLevel)
    ensures forall v :: v in LeafVoxels(t) ==> v.level <= maxLevel
    decreases t, 1, 0
  {
    if !t.isLeaf {
      ChildVoxelsWithinDepth(t, |t.children|, maxLevel);
    }
  }

  lemma {:induction false} ChildVoxelsWithinDepth(t: Octree, n: nat, maxLevel: nat)
    requires DepthBounded(t, maxLevel) && n <= |t.children|
    ensures forall v :: v in ChildVoxels(t, n) ==> v.level <= maxLevel
    decreases t, 0, n
  {
    if n > 0 {
      ChildVoxelsWithinDepth(t, n - 1, maxLevel);
      LeafVoxelsWithinDepth(t.children[n - 1], maxLevel);
    }
  }

  // ---------------------------------------------------------------------
  // The octree as linked nodes
  // ---------------------------------------------------------------------

  /**
   * An octree node whose fields `_build_octree` sets in place and whose
   * children list it appends to. `model` is the tree the node stands for
   * and `repr` the nodes of its subtree.
   */
  class OctreeNode {
    var center: Point
    var halfSize: real
    var level: nat
    var isLeaf: bool
    var isOccupied: bool
    var children: seq<OctreeNode>
    ghost var model: Octree
    ghost var repr: set<object>

    /** The fields agree with `model`, and the children form disjoint valid subtrees. */
    ghost predicate Valid()
      reads this, repr
      decreases repr, 1
    {
      this in repr &&
      model.center == center && model.halfSize == halfSize && model.level == level &&
      model.isLeaf == isLeaf && model.isOccupied == isOccupied &&
      ChildrenValid(model.children)
    }

    /** The children stand for the trees `ms` and own disjoint parts of `repr` not holding this node. */
    ghost predicate ChildrenValid(ms: seq<Octree>)
      reads this, repr
      decreases repr, 0
    {
      this in repr && |children| == |ms| &&
      (forall i :: 0 <= i < |children| ==>
        children[i] in repr && children[i].repr <= repr && this !in children[i].repr &&
        children[i].model == ms[i] && children[i].Valid()) &&
      (forall i, j :: 0 <= i < j < |children| ==> children[i].repr !! children[j].repr)
    }

    /** A node with no children, as the source's constructor calls make. */
    constructor (c: Point, h: real, lv: nat, leaf: bool, occupied: bool)
      ensures Valid() && fresh(repr) && repr == {this}
      ensures center == c && halfSize == h && level == lv && isLeaf == leaf && isOccupied == occupied
      ensures children == [] && model == Octree(c, h, lv, leaf, occupied, [])
    {
      center, halfSize, level, isLeaf, isOccupied, children := c, h, lv, leaf, occupied, [];
      model := Octree(c, h, lv, leaf, occupied, []);
      repr := {this};
    }
  }

  /**
   * `_build_octree`: grows the subtree of a childless node in place; the
   * node then stands for the tree `Build` makes from its centre, size,
   * level and initial occupancy.
   */
  method BuildOctree(node: OctreeNode, p: OctreeParams)
    requires node.Valid() && node.children == []
    modifies node
    ensures node.Valid() && fresh(node.repr - old(node.repr))
    ensures node.model == Build(old(node.center), old(node.halfSize), old(node.level), old(node.isOccupied), p)
    decreases p.maxLevel - node.level, 1
  {
    if AtLimit(node.level, node.halfSize, p) {
      node.isLeaf := true;
      node.model := node.model.(isLeaf := true);
      return;
    }
    var inside := CornersInside(node.center, node.halfSize, p.contains);
    if AllInside(inside) || !AnyInside(inside) {
      node.isLeaf := true;
      node.isOccupied := AnyInside(inside);
      node.model := node.model.(isLeaf := true, isOccupied := node.isOccupied);
      return;
    }
    node.isLeaf := false;
    node.isOccupied := true;
    ghost var built: seq<Octree> := [];
    var k := 0;
    while k < 8
      invariant node.center == old(node.center) && node.halfSize == old(node.halfSize) && node.level == old(node.level)
      invariant node.level < p.maxLevel
      invariant 0 <= k <= 8 && |built| == k && built == BuildChildren(node.center, node.halfSize, node.level, p, k)
      invariant !node.isLeaf && node.isOccupied && node.ChildrenValid(built)
      invariant fresh(node.repr - old(node.repr))
    {
      built := AddChild(node, p, built);
      k := k + 1;
    }
    node.model := Octree(node.center, node.halfSize, node.level, false, true, built);
  }

  /** One turn of the child loop: makes child `|built|`, appends it and builds its subtree. */
  method AddChild(node: OctreeNode, p: OctreeParams, ghost built: seq<Octree>) returns (ghost built': seq<Octree>)
    requires node.level < p.maxLevel && |built| < 8 && node.ChildrenValid(built)
    requires built == BuildChildren(node.center, node.halfSize, node.level, p, |built|)
    modifies node
    ensures node.center == old(node.center) && node.halfSize == old(node.halfSize) && node.level == old(node.level)
    ensures node.isLeaf == old(node.isLeaf) && node.isOccupied == old(node.isOccupied)
    ensures node.ChildrenValid(built') && fresh(node.repr - old(node.repr))
    ensures built' == BuildChildren(node.center, node.halfSize, node.level, p, |built| + 1)
    decreases p.maxLevel - node.level, 0
  {
    var k := |node.children|;
    var child := new OctreeNode(ChildCenter(node.center, node.halfSize, k), node.halfSize / 2.0, node.level + 1, false, false);
    node.children := node.children + [child];
    BuildOctree(child, p);
    node.repr := node.repr + child.repr;
    built' := built + [child.model];
  }

  /**
   * `_collect_leaf_voxels`: appends to `voxels` the voxel of every occupied
   * leaf below `node`, visiting children in order.
   */
  method CollectLeafVoxels(node: OctreeNode, voxels: seq<Voxel>) returns (out: seq<Voxel>)
    requires node.Valid()
    ensures out == voxels + LeafVoxels(node.model)
    decreases node.repr
  {
    if node.isLeaf && node.isOccupied {
      out := voxels + [Voxel(node.center, node.halfSize * 2.0, node.level)];
    } else if !node.isLeaf {
      out := voxels;
      var i := 0;
      while i < |node.children|
        invariant 0 <= i <= |node.children|
        invariant out == voxels + ChildVoxels(node.model, i)
      {
        out := CollectLeafVoxels(node.children[i], out);
        i := i + 1;
      }
    } else {
      out := voxels;
    }
  }

  /** `_octree_to_voxels`: the voxels of the occupied leaves of the whole tree. */
  method OctreeToVoxels(root: OctreeNode) returns (voxels: seq<Voxel>)
    requires root.Valid()
    ensures voxels == LeafVoxels(root.model)
  {
    voxels := CollectLeafVoxels(root, []);
  }

  /**
   * `_voxelize_octree`: a root cube around the centre of the bounding box,
   * of half the box's largest extent, occupied at level 0; the tree is built
   * and its occupied leaves collected.
   */
  method VoxelizeOctree(bboxMin: Point, bboxMax: Point, p: OctreeParams)
    returns (root: OctreeNode, voxels: seq<Voxel>)
    ensures fresh(root) && root.Valid()
    ensures root.model == Build(RootCenter(bboxMin, bboxMax), RootHalfSize(bboxMin, bboxMax), 0, true, p)
    ensures voxels == LeafVoxels(root.model)
  {
    root := new OctreeNode(RootCenter(bboxMin, bboxMax), RootHalfSize(bboxMin, bboxMax), 0, false, true);
    BuildOctree(root, p);
    voxels := OctreeToVoxels(root);
  }

  /** The centre of the bounding box. */
  function RootCenter(bboxMin: Point, bboxMax: Point): Point
  {
    GeometryUtils.Point((bboxMin.x + bboxMax.x) / 2.0, (bboxMin.y + bboxMax.y) / 2.0, (bboxMin.z + bboxMax.z) / 2.0)
  }

  /** Half the largest extent of the bounding box. */
  function RootHalfSize(bboxMin: Point, bboxMax: Point): (h: real)
    ensures h * 2.0 >= bboxMax.x - bboxMin.x && h * 2.0 >= bboxMax.y - bboxMin.y && h * 2.0 >= bboxMax.z - bboxMin.z
    ensures h * 2.0 == bboxMax.x - bboxMin.x || h * 2.0 == bboxMax.y - bboxMin.y || h * 2.0 == bboxMax.z - bboxMin.z
  {
    Max2(Max2(bboxMax.x - bboxMin.x, bboxMax.y - bboxMin.y), bboxMax.z - bboxMin.z) / 2.0
  }

  /**
   * The octree's voxels are the occupied leaves of the built tree in
   * pre-order, none deeper than the depth limit.
   */
  lemma OctreeVoxels(c: Point, h: real, p: OctreeParams)
    ensures var t := Build(c, h, 0, true, p);
      LeafVoxels(t) == OccupiedLeaves(PreOrder(t)) && forall v :: v in LeafVoxels(t) ==> v.level <= p.maxLevel
  {
    var t := Build(c, h, 0, true, p);
    BuildFollowsRules(c, h, 0, true, p);
    RulesLeavesChildless(t, p);
    LeafVoxelsInPreOrder(t);
    BuildDepthBounded(c, h, 0, true, p);
    LeafVoxelsWithinDepth(t, p.maxLevel);
  }

  // ---------------------------------------------------------------------
  // The uniform grid: fallback choice, refinement voxels, refinement
  // ---------------------------------------------------------------------

  /** `ceil(x)`. */
  function Ceil(x: real): (n: int)
    ensures n as real >= x && (n - 1) as real < x
  {
    -((-x).Floor)
  }

  /** `np.ceil(dimensions / base_voxel_size)`: the number of voxels along each axis. */
  function GridShape(bboxMin: Point, bboxMax: Point, baseVoxelSize: real): (shape: Cell)
    requires baseVoxelSize > 0.0
  {
    (Ceil((bboxMax.x - bboxMin.x) / baseVoxelSize), Ceil((bboxMax.y - bboxMin.y) / baseVoxelSize),
     Ceil((bboxMax.z - bboxMin.z) / baseVoxelSize))
  }

  /** The grid of shape `GridShape` covers the box with less than one voxel to spare per axis. */
  lemma GridCoversBox(bboxMin: Point, bboxMax: Point, baseVoxelSize: real)
    requires baseVoxelSize > 0.0
    ensures var shape := GridShape(bboxMin, bboxMax, baseVoxelSize);
      shape.0 as real * baseVoxelSize >= bboxMax.x - bboxMin.x &&
      (shape.0 - 1) as real * baseVoxelSize < bboxMax.x - bboxMin.x &&
      shape.1 as real * baseVoxelSize >= bboxMax.y - bboxMin.y &&
      (shape.1 - 1) as real * baseVoxelSize < bboxMax.y - bboxMin.y &&
      shape.2 as real * baseVoxelSize >= bboxMax.z - bboxMin.z &&
      (shape.2 - 1) as real * baseVoxelSize < bboxMax.z - bboxMin.z
  {
    CeilScaled(bboxMax.x - bboxMin.x, baseVoxelSize);
    CeilScaled(bboxMax.y - bboxMin.y, baseVoxelSize);
    CeilScaled(bboxMax.z - bboxMin.z, baseVoxelSize);
  }

  lemma CeilScaled(d: real, size: real)
    requires size > 0.0
    ensures Ceil(d / size) as real * size >= d
    ensures (Ceil(d / size) - 1) as real * size < d
  {
    var q := d / size;
    assert q * size == d;
    var n := Ceil(q);
    ScaleMonotone(q, n as real, size);
    var m := (n - 1) as real;
    assert m < q;
    ScaleStrict(m, q, size);
    assert m * size < d;
  }

  lemma ScaleMonotone(a: real, b: real, size: real)
    requires a <= b && size > 0.0
    ensures a * size <= b * size
  {
    if a < b {
      GeometryUtils.ProductPositive(b - a, size);
      assert b * size - a * size == (b - a) * size;
    }
  }

  lemma ScaleStrict(a: real, b: real, size: real)
    requires a < b && size > 0.0
    ensures a * size < b * size
  {
    GeometryUtils.ProductPositive(b - a, size);
    assert b * size - a * size == (b - a) * size;
  }

  /** `np.prod(grid_size) * 3 * 8`: three grids of eight-byte cells. */
  function MemoryEstimate(shape: Cell): int
  {
    shape.0 * shape.1 * shape.2 * 3 * 8
  }

  /**
   * `voxelize` switches to the octree when the estimate exceeds the smaller
   * of 80% of the available memory and the configured limit in bytes.
   */
  predicate UseOctree(shape: Cell, availableMemory: real, maxMemory: real)
  {
    MemoryEstimate(shape) as real > Min2(availableMemory * 0.8, maxMemory)
  }

  /**
   * The octree is chosen exactly when the estimate exceeds either bound, and
   * the choice stands when memory gets scarcer or the limit lower.
   */
  lemma OctreeFallback(shape: Cell, availableMemory: real, maxMemory: real, available': real, max': real)
    ensures UseOctree(shape, availableMemory, maxMemory) <==>
      MemoryEstimate(shape) as real > availableMemory * 0.8 || MemoryEstimate(shape) as real > maxMemory
    ensures UseOctree(shape, availableMemory, maxMemory) && available' <= availableMemory && max' <= maxMemory ==>
      UseOctree(shape, available', max')
  {
  }

  /** `np.floor((point - bbox_min) / base_voxel_size)`: the grid voxel holding a point. */
  function VoxelIndex(point: Point, bboxMin: Point, baseVoxelSize: real): Cell
    requires baseVoxelSize > 0.0
  {
    GeometryUtils.VoxelOf(GeometryUtils.Point(point.x - bboxMin.x, point.y - bboxMin.y, point.z - bboxMin.z),
                          baseVoxelSize)
  }

  /** `0 <= idx[i] < grid_shape[i]` on every axis. */
  predicate InGrid(c: Cell, shape: Cell)
  {
    0 <= c.0 < shape.0 && 0 <= c.1 < shape.1 && 0 <= c.2 < shape.2
  }

  /** The voxels of the points in `points`. */
  ghost function IndicesOf(points: seq<Point>, bboxMin: Point, baseVoxelSize: real): set<Cell>
    requires baseVoxelSize > 0.0
  {
    set i | 0 <= i < |points| :: VoxelIndex(points[i], bboxMin, baseVoxelSize)
  }

  /**
   * The refinement voxels: the voxels of the refinement points that lie
   * inside the grid, each once.
   */
  method RefinementVoxels(points: seq<Point>, bboxMin: Point, baseVoxelSize: real, shape: Cell)
    returns (voxels: set<Cell>)
    requires baseVoxelSize > 0.0
    ensures forall c :: c in voxels <==> c in IndicesOf(points, bboxMin, baseVoxelSize) && InGrid(c, shape)
  {
    voxels := {};
    var n := 0;
    while n < |points|
      invariant 0 <= n <= |points|
      invariant forall c :: c in voxels <==> c in IndicesOf(points[..n], bboxMin, baseVoxelSize) && InGrid(c, shape)
    {
      var index := VoxelIndex(points[n], bboxMin, baseVoxelSize);
      if InGrid(index, shape) {
        voxels := voxels + {index};
      }
      IndicesOfSnoc(points, n, bboxMin, baseVoxelSize);
      n := n + 1;
    }
    assert points[..n] == points;
  }

  lemma IndicesOfSnoc(points: seq<Point>, n: nat, bboxMin: Point, baseVoxelSize: real)
    requires baseVoxelSize > 0.0 && n < |points|
    ensures IndicesOf(points[..n + 1], bboxMin, baseVoxelSize) ==
      IndicesOf(points[..n], bboxMin, baseVoxelSize) + {VoxelIndex(points[n], bboxMin, baseVoxelSize)}
  {
    var a := points[..n];
    var b := points[..n + 1];
    forall c | c in IndicesOf(b, bboxMin, baseVoxelSize)
      ensures c in IndicesOf(a, bboxMin, baseVoxelSize) + {VoxelIndex(points[n], bboxMin, baseVoxelSize)}
    {
      var i :| 0 <= i < |b| && VoxelIndex(b[i], bboxMin, baseVoxelSize) == c;
      if i < n {
        assert a[i] == b[i];
      }
    }
    forall c | c in IndicesOf(a, bboxMin, baseVoxelSize)
      ensures c in IndicesOf(b, bboxMin, baseVoxelSize)
    {
      var i :| 0 <= i < |a| && VoxelIndex(a[i], bboxMin, baseVoxelSize) == c;
      assert b[i] == a[i];
    }
    assert b[n] == points[n];
  }

  /** `np.linspace(start, stop, n)`: `n` evenly spaced values from `start` to `stop`. */
  function Linspace(start: real, stop: real, n: nat): (xs: seq<real>)
    ensures |xs| == n && (n >= 1 ==> xs[0] == start)
    ensures forall t :: 0 <= t < n ==> xs[t] == if n == 1 then start else start + t as real * ((stop - start) / (n - 1) as real)
  {
    seq(n, t requires 0 <= t < n => if n == 1 then start else start + t as real * ((stop - start) / (n - 1) as real))
  }

  /** The values of a linspace lie between its ends. */
  lemma LinspaceBetween(start: real, stop: real, n: nat, t: nat)
    requires start <= stop && t < n
    ensures start <= Linspace(start, stop, n)[t] <= stop
  {
    if n > 1 {
      var step := (stop - start) / (n - 1) as real;
      assert step >= 0.0;
      assert t as real * step <= (n - 1) as real * step by {
        assert ((n - 1) as real - t as real) * step >= 0.0 by {
          if step > 0.0 && (n - 1) as real - t as real > 0.0 {
            GeometryUtils.ProductPositive((n - 1) as real - t as real, step);
          }
        }
      }
      assert (n - 1) as real * step == stop - start;
      if t > 0 && step > 0.0 {
        GeometryUtils.ProductPositive(t as real, step);
      }
    }
  }

  /** `np.meshgrid(xs, ys, zs, indexing='ij')` flattened: z fastest, then y, then x. */
  function MeshPoints(xs: seq<real>, ys: seq<real>, zs: seq<real>): (ps: seq<Point>)
    ensures |ps| == |xs| * PlaneCount(ys, zs)
  {
    if xs == [] then [] else MeshPlane(xs[0], ys, zs) + MeshPoints(xs[1..], ys, zs)
  }

  function PlaneCount(ys: seq<real>, zs: seq<real>): nat
  {
    |ys| * |zs|
  }

  function MeshPlane(x: real, ys: seq<real>, zs: seq<real>): (ps: seq<Point>)
    ensures |ps| == PlaneCount(ys, zs)
  {
    if ys == [] then [] else MeshRow(x, ys[0], zs) + MeshPlane(x, ys[1..], zs)
  }

  function MeshRow(x: real, y: real, zs: seq<real>): (ps: seq<Point>)
    ensures |ps| == |zs| && forall k :: 0 <= k < |zs| ==> ps[k] == GeometryUtils.Point(x, y, zs[k])
  {
    seq(|zs|, k requires 0 <= k < |zs| => GeometryUtils.Point(x, y, zs[k]))
  }

  /** `int(base_voxel_size / min_voxel_size)`: the samples per axis of a refined voxel. */
  function SubdivisionFactor(baseVoxelSize: real, minVoxelSize: real): nat
    requires baseVoxelSize > 0.0 && minVoxelSize > 0.0
  {
    (baseVoxelSize / minVoxelSize).Floor
  }

  /** `bbox_min + idx * base_voxel_size`: the low corner of grid voxel `c`. */
  function VoxelLow(origin: Point, c: Cell, baseVoxelSize: real): Point
  {
    GeometryUtils.Point(origin.x + c.0 as real * baseVoxelSize, origin.y + c.1 as real * baseVoxelSize,
                        origin.z + c.2 as real * baseVoxelSize)
  }

  /**
   * The sample points of voxel `c`: a `factor`-per-axis grid from half a
   * fine voxel inside the voxel's low corner to half a fine voxel inside
   * its high corner.
   */
  function SamplePoints(origin: Point, c: Cell, baseVoxelSize: real, minVoxelSize: real): (ps: seq<Point>)
    requires baseVoxelSize > 0.0 && minVoxelSize > 0.0
  {
    var lo := VoxelLow(origin, c, baseVoxelSize);
    var n := SubdivisionFactor(baseVoxelSize, minVoxelSize);
    MeshPoints(SampleAxis(lo.x, baseVoxelSize, minVoxelSize, n), SampleAxis(lo.y, baseVoxelSize, minVoxelSize, n),
               SampleAxis(lo.z, baseVoxelSize, minVoxelSize, n))
  }

  /** The sample coordinates along one axis of a voxel starting at `lo`. */
  function SampleAxis(lo: real, baseVoxelSize: real, minVoxelSize: real, n: nat): (xs: seq<real>)
    ensures |xs| == n
  {
    Linspace(lo + minVoxelSize / 2.0, lo + baseVoxelSize - minVoxelSize / 2.0, n)
  }

  /** `mesh.contains(points)`. */
  function ContainsAll(contains: Point -> bool, ps: seq<Point>): (inside: seq<bool>)
    ensures |inside| == |ps| && forall k :: 0 <= k < |ps| ==> inside[k] == contains(ps[k])
  {
    seq(|ps|, k requires 0 <= k < |ps| => contains(ps[k]))
  }

  /** Some but not all samples are inside. */
  predicate PartlyInside(inside: seq<bool>)
  {
    AnyInside(inside) && !AllInside(inside)
  }

  /** The uniform-grid state of the adaptive voxelizer. */
  class Voxelizer {
    const baseVoxelSize: real
    const minVoxelSize: real
    var origin: Point
    var voxelGrid: array3<bool>
    var voxelSizeGrid: array3<real>

    /** Both grids have the same shape, and the voxel sizes are positive. */
    predicate Valid()
      reads this
    {
      baseVoxelSize > 0.0 && minVoxelSize > 0.0 &&
      voxelGrid.Length0 == voxelSizeGrid.Length0 && voxelGrid.Length1 == voxelSizeGrid.Length1 &&
      voxelGrid.Length2 == voxelSizeGrid.Length2
    }

    predicate InBounds(c: Cell)
      reads this
    {
      0 <= c.0 < voxelGrid.Length0 && 0 <= c.1 < voxelGrid.Length1 && 0 <= c.2 < voxelGrid.Length2
    }

    /** The configured voxel sizes, and empty grids until `InitGrids`. */
    constructor (base: real, min: real)
      requires base > 0.0 && min > 0.0
      ensures Valid() && baseVoxelSize == base && minVoxelSize == min
      ensures fresh(voxelGrid) && fresh(voxelSizeGrid)
    {
      baseVoxelSize, minVoxelSize := base, min;
      origin := GeometryUtils.Point(0.0, 0.0, 0.0);
      voxelGrid := new bool[0, 0, 0];
      voxelSizeGrid := new real[0, 0, 0];
    }

    /**
     * The uniform grids of `voxelize`: every voxel empty and of the base
     * size, with the grid's origin at the low corner of the bounding box.
     */
    method InitGrids(bboxMin: Point, shape: (nat, nat, nat))
      requires Valid()
      modifies this
      ensures Valid() && origin == bboxMin && fresh(voxelGrid) && fresh(voxelSizeGrid)
      ensures voxelGrid.Length0 == shape.0 && voxelGrid.Length1 == shape.1 && voxelGrid.Length2 == shape.2
      ensures forall i, j, k :: 0 <= i < shape.0 && 0 <= j < shape.1 && 0 <= k < shape.2 ==>
        !voxelGrid[i, j, k] && voxelSizeGrid[i, j, k] == baseVoxelSize
    {
      origin := bboxMin;
      voxelGrid := new bool[shape.0, shape.1, shape.2]((i, j, k) => false);
      voxelSizeGrid := new real[shape.0, shape.1, shape.2]((i, j, k) => baseVoxelSize);
    }

    /** Voxel `c` is refined: it is listed, occupied and only partly inside the mesh. */
    predicate Refines(c: Cell, refinement: set<Cell>, contains: Point -> bool)
      requires Valid() && InBounds(c)
      reads this, voxelGrid
    {
      c in refinement && voxelGrid[c.0, c.1, c.2] &&
      PartlyInside(ContainsAll(contains, SamplePoints(origin, c, baseVoxelSize, minVoxelSize)))
    }

    /**
     * `_refine_regions`: the size of every refined voxel becomes the
     * minimum voxel size; every other voxel, and the occupancy grid, stay
     * as they were.
     */
    method RefineRegions(refinement: set<Cell>, contains: Point -> bool)
      requires Valid() && forall c :: c in refinement ==> InBounds(c)
      modifies voxelSizeGrid
      ensures forall i, j, k ::
        0 <= i < voxelSizeGrid.Length0 && 0 <= j < voxelSizeGrid.Length1 && 0 <= k < voxelSizeGrid.Length2 ==>
        voxelSizeGrid[i, j, k] ==
          if Refines((i, j, k), refinement, contains) then minVoxelSize else old(voxelSizeGrid[i, j, k])
    {
      var rest := refinement;
      while rest != {}
        invariant rest <= refinement
        invariant forall i, j, k ::
          0 <= i < voxelSizeGrid.Length0 && 0 <= j < voxelSizeGrid.Length1 && 0 <= k < voxelSizeGrid.Length2 ==>
          voxelSizeGrid[i, j, k] ==
            if (i, j, k) !in rest && Refines((i, j, k), refinement, contains) then minVoxelSize
            else old(voxelSizeGrid[i, j, k])
        decreases rest
      {
        var c :| c in rest;
        if voxelGrid[c.0, c.1, c.2] {
          var inside := ContainsAll(contains, SamplePoints(origin, c, baseVoxelSize, minVoxelSize));
          if AnyInside(inside) && !AllInside(inside) {
            voxelSizeGrid[c.0, c.1, c.2] := minVoxelSize;
          }
        }
        rest := rest - {c};
      }
    }
  }

  /** Every sample point of a voxel lies inside that voxel. */
  lemma SamplesInsideVoxel(origin: Point, c: Cell, baseVoxelSize: real, minVoxelSize: real, t: nat)
    requires 0.0 < minVoxelSize <= baseVoxelSize
    requires t < |SamplePoints(origin, c, baseVoxelSize, minVoxelSize)|
    ensures var q := SamplePoints(origin, c, baseVoxelSize, minVoxelSize)[t];
      var lo := VoxelLow(origin, c, baseVoxelSize);
      lo.x <= q.x <= lo.x + baseVoxelSize && lo.y <= q.y <= lo.y + baseVoxelSize &&
      lo.z <= q.z <= lo.z + baseVoxelSize
  {
    var lo := VoxelLow(origin, c, baseVoxelSize);
    var n := SubdivisionFactor(baseVoxelSize, minVoxelSize);
    var xs := SampleAxis(lo.x, baseVoxelSize, minVoxelSize, n);
    var ys := SampleAxis(lo.y, baseVoxelSize, minVoxelSize, n);
    var zs := SampleAxis(lo.z, baseVoxelSize, minVoxelSize, n);
    assert SamplePoints(origin, c, baseVoxelSize, minVoxelSize) == MeshPoints(xs, ys, zs);
    var a, b, d := MeshPointAt(xs, ys, zs, t);
    AxisSample(lo.x, baseVoxelSize, minVoxelSize, n, a);
    AxisSample(lo.y, baseVoxelSize, minVoxelSize, n, b);
    AxisSample(lo.z, baseVoxelSize, minVoxelSize, n, d);
  }

  lemma AxisSample(lo: real, baseVoxelSize: real, minVoxelSize: real, n: nat, a: nat)
    requires 0.0 < minVoxelSize <= baseVoxelSize && a < n
    ensures lo <= SampleAxis(lo, baseVoxelSize, minVoxelSize, n)[a] <= lo + baseVoxelSize
  {
    LinspaceBetween(lo + minVoxelSize / 2.0, lo + baseVoxelSize - minVoxelSize / 2.0, n, a);
  }

  /** Every mesh point takes its coordinates from the three axes. */
  lemma {:induction false} MeshPointAt(xs: seq<real>, ys: seq<real>, zs: seq<real>, t: nat)
    returns (a: nat, b: nat, d: nat)
    requires t < |MeshPoints(xs, ys, zs)|
    ensures a < |xs| && b < |ys| && d < |zs|
    ensures MeshPoints(xs, ys, zs)[t] == GeometryUtils.Point(xs[a], ys[b], zs[d])
    decreases |xs|
  {
    var plane := MeshPlane(xs[0], ys, zs);
    if t < |plane| {
      a := 0;
      b, d := MeshPlaneAt(xs[0], ys, zs, t);
    } else {
      a, b, d := MeshPointAt(xs[1..], ys, zs, t - |plane|);
      a := a + 1;
    }
  }

  lemma {:induction false} MeshPlaneAt(x: real, ys: seq<real>, zs: seq<real>, t: nat)
    returns (b: nat, d: nat)
    requires t < |MeshPlane(x, ys, zs)|
    ensures b < |ys| && d < |zs| && MeshPlane(x, ys, zs)[t] == GeometryUtils.Point(x, ys[b], zs[d])
    decreases |ys|
  {
    var row := MeshRow(x, ys[0], zs);
    if t < |row| {
      b, d := 0, t;
    } else {
      b, d := MeshPlaneAt(x, ys[1..], zs, t - |row|);
      b := b + 1;
    }
  }
}
