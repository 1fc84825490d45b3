/**
 * The opening detector of `opening_detector.py`: the interface voxels between
 * two adjacent spaces, their split into clusters, one opening per cluster
 * with a sequential ID, the door/passage decision table, door states, and
 * the per-space and per-pair views of the openings.
 *
 * DBSCAN's labels (`dbscan`) and the measurements of a cluster
 * (`compute_opening_features`, `measure`) are given; the KD-tree nearest
 * neighbour query is stated by its meaning, the least distance.
 */
module OpeningDetection {
  import opened Wrappers
  import opened Strings
  import opened Grid
  import opened Graphs
  import opened Openings

  /** The `openings` entries of the configuration the detector reads. */
  datatype Limits = Limits(standardDoorAreaLimit: real, wideDoorAreaLimit: real, passageAspectRatio: real)

  /** A detected space: its ID and its voxel indices. */
  datatype SpaceVoxels = SpaceVoxels(id: string, voxels: seq<Cell>)

  /** What `compute_opening_features` reports for a cluster. */
  datatype Features = Features(area: real, width: real, height: real, aspectRatio: real)

  // ---------------------------------------------------------------------------
  // The interface between two spaces

  function SqDist(a: Cell, b: Cell): int
  {
    (a.0 - b.0) * (a.0 - b.0) + (a.1 - b.1) * (a.1 - b.1) + (a.2 - b.2) * (a.2 - b.2)
  }

  /** The squared distance from `v` to its nearest voxel among `others`, none when there are none. */
  function NearestSqDist(v: Cell, others: seq<Cell>): (d: Option<int>)
    ensures d.None? <==> others == []
    ensures d.Some? ==> (exists w :: w in others && SqDist(v, w) == d.value) &&
                        forall w :: w in others ==> d.value <= SqDist(v, w)
  {
    if others == [] then None
    else
      var rest := NearestSqDist(v, others[..|others| - 1]);
      var last := SqDist(v, others[|others| - 1]);
      assert forall w :: w in others ==> w in others[..|others| - 1] || w == others[|others| - 1];
      if rest.Some? && rest.value <= last then rest else Some(last)
  }

  /** The nearest voxel of `others` lies at distance exactly 1 from `v`. */
  predicate NearestAtOne(v: Cell, others: seq<Cell>)
  {
    NearestSqDist(v, others) == Some(1)
  }

  /** Distance 1 between voxels means sharing a face. */
  lemma UnitDistanceIsFaceAdjacent(a: Cell, b: Cell)
    ensures SqDist(a, b) == 1 <==> FaceAdjacent(a, b)
  {
    var dx, dy, dz := a.0 - b.0, a.1 - b.1, a.2 - b.2;
    SquareAtLeastAbs(dx);
    SquareAtLeastAbs(dy);
    SquareAtLeastAbs(dz);
  }

  lemma SquareAtLeastAbs(n: int)
    ensures n * n >= Abs(n) && n * n >= 0
    ensures n * n <= 1 <==> Abs(n) <= 1
    ensures Abs(n) <= 1 ==> n * n == Abs(n)
  {
    if n > 1 {
      assert n * n >= 2 * n;
    } else if n < -1 {
      assert n * n >= -2 * n;
    }
  }

  /**
   * A voxel is on the interface exactly when no voxel of the other space
   * coincides with it and one of them shares a face with it.
   */
  lemma NearestAtOneMeaning(v: Cell, others: seq<Cell>)
    ensures NearestAtOne(v, others) <==>
      (forall w :: w in others ==> w != v) && exists w :: w in others && FaceAdjacent(v, w)
  {
    if NearestAtOne(v, others) {
      NearestAtOneGives(v, others);
    }
    if (forall w :: w in others ==> w != v) && exists w :: w in others && FaceAdjacent(v, w) {
      NearestAtOneFrom(v, others);
    }
  }

  /** Squared distance is zero only between equal voxels. */
  lemma SqDistZero(v: Cell, w: Cell)
    ensures SqDist(v, w) >= 0 && (SqDist(v, w) == 0 <==> w == v)
  {
    SquareAtLeastAbs(v.0 - w.0);
    SquareAtLeastAbs(v.1 - w.1);
    SquareAtLeastAbs(v.2 - w.2);
  }

  lemma NearestAtOneGives(v: Cell, others: seq<Cell>)
    requires NearestAtOne(v, others)
    ensures (forall w :: w in others ==> w != v) && exists w :: w in others && FaceAdjacent(v, w)
  {
    var d := NearestSqDist(v, others);
    forall w | w in others ensures w != v {
      SqDistZero(v, w);
    }
    var u :| u in others && SqDist(v, u) == d.value;
    UnitDistanceIsFaceAdjacent(v, u);
  }

  lemma NearestAtOneFrom(v: Cell, others: seq<Cell>)
    requires forall w :: w in others ==> w != v
    requires exists w :: w in others && FaceAdjacent(v, w)
    ensures NearestAtOne(v, others)
  {
    var w :| w in others && FaceAdjacent(v, w);
    UnitDistanceIsFaceAdjacent(v, w);
    var d := NearestSqDist(v, others);
    assert d.Some? && d.value <= 1;
    var u :| u in others && SqDist(v, u) == d.value;
    SqDistZero(v, u);
  }

  /** The voxels of `vs` whose nearest voxel in `others` is at distance 1, in order. */
  function Boundary(vs: seq<Cell>, others: seq<Cell>): seq<Cell>
  {
    if vs == [] then []
    else Boundary(vs[..|vs| - 1], others) + (if NearestAtOne(vs[|vs| - 1], others) then [vs[|vs| - 1]] else [])
  }

  /** The boundary holds exactly the voxels whose nearest neighbour is at distance 1. */
  lemma {:induction false} BoundaryMembers(vs: seq<Cell>, others: seq<Cell>)
    ensures |Boundary(vs, others)| <= |vs|
    ensures forall v :: v in Boundary(vs, others) <==> v in vs && NearestAtOne(v, others)
    decreases |vs|
  {
    if vs != [] {
      BoundaryMembers(vs[..|vs| - 1], others);
      assert forall v :: v in vs <==> v in vs[..|vs| - 1] || v == vs[|vs| - 1];
    }
  }

  /** The interface: the boundary of the first space followed by that of the second. */
  function Interface(v1: seq<Cell>, v2: seq<Cell>): seq<Cell>
  {
    Boundary(v1, v2) + Boundary(v2, v1)
  }

  /** `_find_space_interface`: one pass over each space, keeping the voxels whose nearest neighbour is at distance 1. */
  method FindSpaceInterface(v1: seq<Cell>, v2: seq<Cell>) returns (r: seq<Cell>)
    ensures r == Interface(v1, v2)
  {
    var n1 := BoundaryVoxels(v1, v2);
    var n2 := BoundaryVoxels(v2, v1);
    if |n1| > 0 && |n2| > 0 {
      r := n1 + n2;
    } else if |n1| > 0 {
      r := n1;
    } else if |n2| > 0 {
      r := n2;
    } else {
      r := [];
    }
  }

  /** The interface holds exactly the voxels of either space whose nearest voxel of the other is at distance 1. */
  lemma InterfaceMembers(v1: seq<Cell>, v2: seq<Cell>)
    ensures forall v :: v in Interface(v1, v2) <==> (v in v1 && NearestAtOne(v, v2)) || (v in v2 && NearestAtOne(v, v1))
  {
    BoundaryMembers(v1, v2);
    BoundaryMembers(v2, v1);
  }

  method BoundaryVoxels(vs: seq<Cell>, others: seq<Cell>) returns (r: seq<Cell>)
    ensures r == Boundary(vs, others)
  {
    r := [];
    var i := 0;
    while i < |vs|
      invariant i <= |vs| && r == Boundary(vs[..i], others)
    {
      assert vs[..i + 1][..i] == vs[..i];
      if NearestSqDist(vs[i], others) == Some(1) {
        r := r + [vs[i]];
      }
      i := i + 1;
    }
    assert vs[..i] == vs;
  }

  // ---------------------------------------------------------------------------
  // Clusters of interface voxels

  /** DBSCAN's label of the `i`-th voxel; a voxel without a label counts as noise. */
  function LabelAt(labels: seq<int>, i: nat): int
  {
    if i < |labels| then labels[i] else -1
  }

  /** The voxels labelled `l`, in order: `interface_voxels[labels == label]`. */
  function ClusterOf(voxels: seq<Cell>, labels: seq<int>, l: int): seq<Cell>
    decreases |voxels|
  {
    if voxels == [] then []
    else ClusterOf(voxels[..|voxels| - 1], labels, l) + if LabelAt(labels, |voxels| - 1) == l then [voxels[|voxels| - 1]] else []
  }

  /** A cluster holds exactly the voxels carrying its label. */
  lemma {:induction false} ClusterOfMembers(voxels: seq<Cell>, labels: seq<int>, l: int)
    ensures forall v :: v in ClusterOf(voxels, labels, l) ==> exists i :: 0 <= i < |voxels| && voxels[i] == v && LabelAt(labels, i) == l
    ensures forall i :: 0 <= i < |voxels| && LabelAt(labels, i) == l ==> voxels[i] in ClusterOf(voxels, labels, l)
    decreases |voxels|
  {
    if voxels != [] {
      var init := voxels[..|voxels| - 1];
      ClusterOfMembers(init, labels, l);
      assert forall i :: 0 <= i < |init| ==> init[i] == voxels[i];
    }
  }

  /** The greatest label, -1 when there is none. */
  function MaxLabel(labels: seq<int>): (m: int)
    ensures m >= -1 && forall i :: 0 <= i < |labels| ==> labels[i] <= m
    ensures m >= 0 ==> exists i :: 0 <= i < |labels| && labels[i] == m
  {
    if labels == [] then -1
    else
      var rest := MaxLabel(labels[..|labels| - 1]);
      assert forall i :: 0 <= i < |labels| - 1 ==> labels[i] == labels[..|labels| - 1][i];
      if labels[|labels| - 1] > rest then labels[|labels| - 1] else rest
  }

  /** The clusters of labels `0` to `n - 1` with at least three voxels, by ascending label. */
  function ClustersBelow(voxels: seq<Cell>, labels: seq<int>, n: nat): seq<seq<Cell>>
  {
    if n == 0 then []
    else
      var c := ClusterOf(voxels, labels, n - 1);
      ClustersBelow(voxels, labels, n - 1) + if |c| >= 3 then [c] else []
  }

  /**
   * The clusters kept from DBSCAN's labels: nothing for no voxels, otherwise
   * every non-noise label's voxels, when there are at least three of them.
   * DBSCAN numbers its clusters 0, 1, …, and a Python set of such small
   * integers iterates in ascending order, which is the order used here.
   */
  function Clusters(voxels: seq<Cell>, labels: seq<int>): seq<seq<Cell>>
  {
    if voxels == [] then [] else ClustersBelow(voxels, labels, MaxLabel(labels) + 1)
  }

  /** `c` is the cluster of some label from `0` to `n - 1`. */
  ghost predicate LabelledBelow(voxels: seq<Cell>, labels: seq<int>, c: seq<Cell>, n: nat)
  {
    exists l :: 0 <= l < n && c == ClusterOf(voxels, labels, l)
  }

  /** `c` is the cluster of a label that is not noise. */
  ghost predicate Labelled(voxels: seq<Cell>, labels: seq<int>, c: seq<Cell>)
  {
    exists l :: 0 <= l && c == ClusterOf(voxels, labels, l)
  }

  lemma {:induction false} ClustersBelowFacts(voxels: seq<Cell>, labels: seq<int>, n: nat)
    ensures forall c :: c in ClustersBelow(voxels, labels, n) ==> |c| >= 3 && LabelledBelow(voxels, labels, c, n)
    ensures forall l :: 0 <= l < n && |ClusterOf(voxels, labels, l)| >= 3 ==>
      ClusterOf(voxels, labels, l) in ClustersBelow(voxels, labels, n)
  {
    if n > 0 {
      ClustersBelowFacts(voxels, labels, n - 1);
      var c := ClusterOf(voxels, labels, n - 1);
      var below := ClustersBelow(voxels, labels, n - 1);
      assert ClustersBelow(voxels, labels, n) == below + if |c| >= 3 then [c] else [];
      forall x | x in ClustersBelow(voxels, labels, n)
        ensures |x| >= 3 && LabelledBelow(voxels, labels, x, n)
      {
        if x in below {
          var l :| 0 <= l < n - 1 && x == ClusterOf(voxels, labels, l);
          assert 0 <= l < n;
        } else {
          assert x == c;
        }
      }
      forall l | 0 <= l < n && |ClusterOf(voxels, labels, l)| >= 3
        ensures ClusterOf(voxels, labels, l) in ClustersBelow(voxels, labels, n)
      {
        if l < n - 1 {
          assert ClusterOf(voxels, labels, l) in below;
        }
      }
    }
  }

  /**
   * Every kept cluster has at least three voxels, all carrying one label
   * that is not noise; every label with at least three voxels gives a
   * cluster; noise never does.
   */
  lemma ClustersFacts(voxels: seq<Cell>, labels: seq<int>)
    ensures voxels == [] ==> Clusters(voxels, labels) == []
    ensures forall c :: c in Clusters(voxels, labels) ==> |c| >= 3 && Labelled(voxels, labels, c)
    ensures forall l :: 0 <= l && |ClusterOf(voxels, labels, l)| >= 3 ==> ClusterOf(voxels, labels, l) in Clusters(voxels, labels)
    ensures forall c :: c in Clusters(voxels, labels) ==>
      forall v :: v in c ==> exists i :: 0 <= i < |voxels| && voxels[i] == v && LabelAt(labels, i) >= 0
  {
    if voxels == [] {
      assert Clusters(voxels, labels) == [];
      return;
    }
    var n := MaxLabel(labels) + 1;
    ClustersBelowFacts(voxels, labels, n);
    assert Clusters(voxels, labels) == ClustersBelow(voxels, labels, n);
    forall c | c in Clusters(voxels, labels) ensures |c| >= 3 && Labelled(voxels, labels, c) {
      var l :| 0 <= l < n && c == ClusterOf(voxels, labels, l);
    }
    forall l | 0 <= l && |ClusterOf(voxels, labels, l)| >= 3 ensures l < n {
      var v := ClusterOf(voxels, labels, l)[0];
      ClusterOfMembers(voxels, labels, l);
      assert v in ClusterOf(voxels, labels, l);
      var i :| 0 <= i < |voxels| && voxels[i] == v && LabelAt(labels, i) == l;
    }
    forall c, v | c in Clusters(voxels, labels) && v in c
      ensures exists i :: 0 <= i < |voxels| && voxels[i] == v && LabelAt(labels, i) >= 0
    {
      var l :| 0 <= l && c == ClusterOf(voxels, labels, l);
      ClusterOfMembers(voxels, labels, l);
      var i :| 0 <= i < |voxels| && voxels[i] == v && LabelAt(labels, i) == l;
    }
  }

  /** `_cluster_interface_voxels`: one pass over the labels, keeping the clusters of at least three voxels. */
  method ClusterInterfaceVoxels(voxels: seq<Cell>, labels: seq<int>) returns (clusters: seq<seq<Cell>>)
    ensures clusters == Clusters(voxels, labels)
  {
    if |voxels| == 0 {
      return [];
    }
    var top := MaxLabel(labels);
    clusters := [];
    var l := 0;
    while l <= top
      invariant 0 <= l <= top + 1 || (top == -1 && l == 0)
      invariant clusters == ClustersBelow(voxels, labels, l)
    {
      var points := ClusterOf(voxels, labels, l);
      if |points| >= 3 {
        clusters := clusters + [points];
      }
      l := l + 1;
    }
  }

  // ---------------------------------------------------------------------------
  // Classification

  /** The decision table of `_classify_openings`, rules tried in order. */
  function Classify(limits: Limits, area: real, width: real, aspectRatio: real): (t: string)
    ensures t == "standard_door" || t == "wide_door" || t == "passage"
    ensures area <= limits.standardDoorAreaLimit && aspectRatio >= 1.5 ==> t == "standard_door"
    ensures t == "wide_door" <==>
      !(area <= limits.standardDoorAreaLimit && aspectRatio >= 1.5) && area <= limits.wideDoorAreaLimit && width < 3.0
    ensures t == "passage" <==>
      !(area <= limits.standardDoorAreaLimit && aspectRatio >= 1.5) && !(area <= limits.wideDoorAreaLimit && width < 3.0) &&
      (area > limits.wideDoorAreaLimit || aspectRatio >= limits.passageAspectRatio)
  {
    if area <= limits.standardDoorAreaLimit && aspectRatio >= 1.5 then "standard_door"
    else if area <= limits.wideDoorAreaLimit && width < 3.0 then "wide_door"
    else if area > limits.wideDoorAreaLimit || aspectRatio >= limits.passageAspectRatio then "passage"
    else "standard_door"
  }

  /** An opening larger than the wide-door limit is always a passage, and a door otherwise. */
  lemma LargeIsPassage(limits: Limits, area: real, width: real, aspectRatio: real)
    requires limits.standardDoorAreaLimit <= limits.wideDoorAreaLimit
    ensures area > limits.wideDoorAreaLimit <==> Classify(limits, area, width, aspectRatio) == "passage" && area > limits.wideDoorAreaLimit
    ensures area <= limits.wideDoorAreaLimit && width < 3.0 ==> Contains(Classify(limits, area, width, aspectRatio), "door")
  {
    var t := Classify(limits, area, width, aspectRatio);
    if area <= limits.wideDoorAreaLimit && width < 3.0 {
      DoorNames(t);
    }
  }

  /** Which of the three types name a door. */
  lemma DoorNames(t: string)
    requires t == "standard_door" || t == "wide_door" || t == "passage"
    ensures Contains(t, "door") <==> t != "passage"
  {
    if t == "standard_door" {
      ContainsAt(t, "door", 9);
    } else if t == "wide_door" {
      ContainsAt(t, "door", 5);
    } else {
      NotContains(t, "door");
    }
  }

  function Classified(limits: Limits, r: OpeningRecord): (c: OpeningRecord)
    ensures c == r.(kind := c.kind)
    ensures r.area.Some? ==> c.kind == Classify(limits, r.area.value, r.width, r.aspectRatio)
    ensures r.area.None? ==> c == r
  {
    if r.area.Some? then r.(kind := Classify(limits, r.area.value, r.width, r.aspectRatio)) else r
  }

  function ClassifyAll(limits: Limits, rs: seq<OpeningRecord>): seq<OpeningRecord>
  {
    seq(|rs|, k requires 0 <= k < |rs| => Classified(limits, rs[k]))
  }

  /** The state a door gets in `detect_door_states`. */
  function DoorOpened(r: OpeningRecord): (c: OpeningRecord)
    ensures Contains(r.kind, "door") ==> c == r.(state := "open")
    ensures !Contains(r.kind, "door") ==> c == r
  {
    if Contains(r.kind, "door") then r.(state := "open") else r
  }

  function DoorsOpened(rs: seq<OpeningRecord>): (r: seq<OpeningRecord>)
    ensures |r| == |rs| && forall k :: 0 <= k < |rs| ==> r[k] == DoorOpened(rs[k])
  {
    seq(|rs|, k requires 0 <= k < |rs| => DoorOpened(rs[k]))
  }

  // ---------------------------------------------------------------------------
  // What the detector finds

  /** An opening found between two spaces, before its ID and type. */
  datatype Detection = Detection(a: string, b: string, voxels: seq<Cell>, features: Features)

  /** `next(s for s in spaces if s["id"] == id)`: the first space with that ID. */
  function FindSpace(spaces: seq<SpaceVoxels>, id: string): Option<SpaceVoxels>
  {
    if spaces == [] then None
    else if spaces[0].id == id then Some(spaces[0])
    else FindSpace(spaces[1..], id)
  }

  /** `spaces[k]` is the first space with ID `id`. */
  ghost predicate FirstWith(spaces: seq<SpaceVoxels>, id: string, k: int)
  {
    0 <= k < |spaces| && spaces[k].id == id && forall j :: 0 <= j < k ==> spaces[j].id != id
  }

  /** The search finds nothing exactly when no space has the ID, and otherwise the first that has it. */
  lemma {:induction false} FindSpaceMeaning(spaces: seq<SpaceVoxels>, id: string)
    ensures FindSpace(spaces, id).None? <==> forall k :: 0 <= k < |spaces| ==> spaces[k].id != id
    ensures FindSpace(spaces, id).Some? ==> exists k :: FirstWith(spaces, id, k) && spaces[k] == FindSpace(spaces, id).value
    decreases |spaces|
  {
    if spaces != [] && spaces[0].id != id {
      var rest := spaces[1..];
      FindSpaceMeaning(rest, id);
      if FindSpace(rest, id).Some? {
        var k :| FirstWith(rest, id, k) && rest[k] == FindSpace(rest, id).value;
        forall j | 0 <= j < k + 1 ensures spaces[j].id != id {
          if j > 0 {
            assert spaces[j] == rest[j - 1];
          }
        }
        assert FirstWith(spaces, id, k + 1);
      }
      forall k | 0 < k < |spaces| ensures spaces[k] == rest[k - 1] {
      }
    } else if spaces != [] {
      assert FirstWith(spaces, id, 0);
    }
  }

  /** One opening per cluster, joining `a` and `b`. */
  function Detect(a: string, b: string, cs: seq<seq<Cell>>, measure: seq<Cell> -> Features): (ds: seq<Detection>)
    ensures |ds| == |cs| && forall i :: 0 <= i < |cs| ==> ds[i] == Detection(a, b, cs[i], measure(cs[i]))
  {
    seq(|cs|, i requires 0 <= i < |cs| => Detection(a, b, cs[i], measure(cs[i])))
  }

  /** The openings `_detect_openings_between_spaces` finds, one per cluster of the interface. */
  function PairDetections(s1: SpaceVoxels, s2: SpaceVoxels, dbscan: seq<Cell> -> seq<int>,
                          measure: seq<Cell> -> Features): seq<Detection>
  {
    var iface := Interface(s1.voxels, s2.voxels);
    if iface == [] then []
    else
      Detect(s1.id, s2.id, Clusters(iface, dbscan(iface)), measure)
  }

  /** An adjacency edge naming a space that is not listed. */
  predicate Missing(spaces: seq<SpaceVoxels>, e: (string, string))
  {
    FindSpace(spaces, e.0).None? || FindSpace(spaces, e.1).None?
  }

  predicate AllListed(spaces: seq<SpaceVoxels>, edges: seq<(string, string)>)
  {
    forall i :: 0 <= i < |edges| ==> !Missing(spaces, edges[i])
  }

  /**
   * The position of the first adjacency edge naming a space that is not
   * listed, or the number of edges when there is none: where `next` raises.
   */
  function FirstMissing(spaces: seq<SpaceVoxels>, edges: seq<(string, string)>): (i: nat)
    ensures i <= |edges| && AllListed(spaces, edges[..i])
    ensures i < |edges| ==> Missing(spaces, edges[i])
    ensures i == |edges| <==> AllListed(spaces, edges)
    decreases |edges|
  {
    if edges == [] || Missing(spaces, edges[0]) then 0
    else
      var rest := FirstMissing(spaces, edges[1..]);
      var pre, tail := edges[..1 + rest], edges[1..][..rest];
      assert AllListed(spaces, pre) by {
        forall j | 0 <= j < |pre| ensures !Missing(spaces, pre[j]) {
          if j > 0 {
            assert pre[j] == tail[j - 1];
          }
        }
      }
      assert AllListed(spaces, edges) ==> AllListed(spaces, edges[1..]) by {
        if AllListed(spaces, edges) {
          forall j | 0 <= j < |edges| - 1 ensures !Missing(spaces, edges[1..][j]) {
            assert edges[1..][j] == edges[j + 1];
          }
        }
      }
      assert AllListed(spaces, edges[1..]) ==> AllListed(spaces, edges) by {
        if AllListed(spaces, edges[1..]) {
          forall j | 0 <= j < |edges| ensures !Missing(spaces, edges[j]) {
            if j > 0 {
              assert edges[j] == edges[1..][j - 1];
            }
          }
        }
      }
      1 + rest
  }

  /** The loop stops at an edge naming an unlisted space only at the first such edge. */
  lemma FirstMissingAt(spaces: seq<SpaceVoxels>, edges: seq<(string, string)>, i: nat)
    requires i < |edges| && i <= FirstMissing(spaces, edges) && Missing(spaces, edges[i])
    ensures FirstMissing(spaces, edges) == i
  {
  }

  /** Passing an edge whose spaces are listed stays within the first missing position. */
  lemma FirstMissingBeyond(spaces: seq<SpaceVoxels>, edges: seq<(string, string)>, i: nat)
    requires i < |edges| && i <= FirstMissing(spaces, edges) && !Missing(spaces, edges[i])
    ensures i + 1 <= FirstMissing(spaces, edges)
  {
  }

  /** `_detect_openings_between_spaces` as a function of the two spaces. */
  function Between(dbscan: seq<Cell> -> seq<int>, measure: seq<Cell> -> Features): (SpaceVoxels, SpaceVoxels) -> seq<Detection>
  {
    (s1, s2) => PairDetections(s1, s2, dbscan, measure)
  }

  /** The openings `pair` finds over the adjacency edges, in order. */
  function Found(spaces: seq<SpaceVoxels>, edges: seq<(string, string)>,
                 pair: (SpaceVoxels, SpaceVoxels) -> seq<Detection>): seq<Detection>
    requires AllListed(spaces, edges)
    decreases |edges|
  {
    if edges == [] then []
    else
      var init, e := edges[..|edges| - 1], edges[|edges| - 1];
      assert AllListed(spaces, init) by {
        forall i | 0 <= i < |init| ensures !Missing(spaces, init[i]) {
          assert init[i] == edges[i];
        }
      }
      assert !Missing(spaces, e);
      Found(spaces, init, pair) + pair(FindSpace(spaces, e.0).value, FindSpace(spaces, e.1).value)
  }

  /** The search over the edges; `next` raises for an edge naming a space that is not listed. */
  function Detections(spaces: seq<SpaceVoxels>, edges: seq<(string, string)>, dbscan: seq<Cell> -> seq<int>,
                      measure: seq<Cell> -> Features): (r: Result<seq<Detection>, string>)
    ensures r.Err? <==> exists i :: 0 <= i < |edges| && Missing(spaces, edges[i])
  {
    if AllListed(spaces, edges) then Ok(Found(spaces, edges, Between(dbscan, measure))) else Err("StopIteration")
  }

  lemma FoundStep(spaces: seq<SpaceVoxels>, edges: seq<(string, string)>,
                  pair: (SpaceVoxels, SpaceVoxels) -> seq<Detection>, i: nat)
    requires i < |edges| && AllListed(spaces, edges[..i]) && !Missing(spaces, edges[i])
    ensures AllListed(spaces, edges[..i + 1])
    ensures Found(spaces, edges[..i + 1], pair) ==
      Found(spaces, edges[..i], pair) + pair(FindSpace(spaces, edges[i].0).value, FindSpace(spaces, edges[i].1).value)
  {
    assert edges[..i + 1][..i] == edges[..i];
    assert edges[..i + 1][i] == edges[i];
    var prefix, next := edges[..i], edges[..i + 1];
    forall j | 0 <= j < |next| ensures !Missing(spaces, next[j]) {
      if j < i {
        assert next[j] == prefix[j];
      }
    }
  }

  /** `opening_001`, `opening_002`, …: the ID of the `n`-th opening. */
  function OpeningId(n: nat): string
  {
    "opening_" + Format03(n)
  }

  lemma OpeningIdsDistinct(m: nat, n: nat)
    ensures OpeningId(m) == OpeningId(n) <==> m == n
  {
    PrefixedCounterInjective("opening_", m, n);
  }

  /** The record of the `n`-th opening found, before classification. */
  function Fresh(d: Detection, n: nat): (r: OpeningRecord)
    ensures r.id == OpeningId(n) && r.connects == [d.a, d.b] && r.kind == "unknown" && r.state == "open"
    ensures r.voxelIndices == d.voxels && r.area == Some(d.features.area)
  {
    OpeningRecord(OpeningId(n), "unknown", [d.a, d.b], d.voxels, Some(d.features.area),
                  d.features.width, d.features.height, d.features.aspectRatio, "open")
  }

  /** The records of the openings found, numbered from `start + 1`. */
  function Numbered(ds: seq<Detection>, start: nat): seq<OpeningRecord>
  {
    seq(|ds|, k requires 0 <= k < |ds| => Fresh(ds[k], start + k + 1))
  }

  lemma NumberedAppend(a: seq<Detection>, b: seq<Detection>, start: nat)
    ensures Numbered(a + b, start) == Numbered(a, start) + Numbered(b, start + |a|)
  {
  }

  /** The openings as `detect_openings` leaves them: numbered in order of discovery, then classified. */
  function DetectedRecords(limits: Limits, ds: seq<Detection>): seq<OpeningRecord>
  {
    ClassifyAll(limits, Numbered(ds, 0))
  }

  /**
   * The `k`-th opening has ID `opening_{k+1:03d}`, joins the two spaces of
   * its edge, is open, keeps its cluster's voxels and area, and has the type
   * the decision table gives for its measurements.
   */
  lemma DetectedRecordsFacts(limits: Limits, ds: seq<Detection>)
    ensures var r := DetectedRecords(limits, ds);
      |r| == |ds| &&
      forall k :: 0 <= k < |ds| ==>
        r[k].id == OpeningId(k + 1) && r[k].connects == [ds[k].a, ds[k].b] && r[k].state == "open" &&
        r[k].voxelIndices == ds[k].voxels && r[k].area == Some(ds[k].features.area) &&
        r[k].kind == Classify(limits, ds[k].features.area, ds[k].features.width, ds[k].features.aspectRatio)
  {
  }

  // ---------------------------------------------------------------------------
  // Views over the openings

  /** The positions of the openings that name `id`, in order. */
  ghost function Naming(ops: seq<Opening>, id: string): (idx: seq<nat>)
    reads set o | o in ops
    ensures |idx| <= |ops|
  {
    if ops == [] then []
    else Naming(ops[..|ops| - 1], id) + if id in ops[|ops| - 1].connects then [|ops| - 1] else []
  }

  /** The positions are ascending, and are exactly those whose `connects` contains `id`. */
  lemma {:induction false} NamingMeaning(ops: seq<Opening>, id: string)
    ensures var idx := Naming(ops, id);
      (forall k :: 0 <= k < |idx| ==> idx[k] < |ops| && id in ops[idx[k]].connects) &&
      (forall j, k :: 0 <= j < k < |idx| ==> idx[j] < idx[k]) &&
      (forall j :: 0 <= j < |ops| ==> (j in idx <==> id in ops[j].connects))
    decreases |ops|
  {
    if ops != [] {
      var init := ops[..|ops| - 1];
      NamingMeaning(init, id);
      assert forall a :: 0 <= a < |init| ==> init[a] == ops[a];
    }
  }

  /** `r` lists the openings at the positions `idx`, in that order. */
  ghost predicate AtPositions(r: seq<Opening>, ops: seq<Opening>, idx: seq<nat>)
  {
    |r| == |idx| && forall k :: 0 <= k < |r| ==> idx[k] < |ops| && r[k] == ops[idx[k]]
  }

  /** One more opening adds its position when it names the space. */
  lemma NamingStep(ops: seq<Opening>, id: string)
    requires ops != []
    ensures Naming(ops, id) ==
      Naming(ops[..|ops| - 1], id) + if id in ops[|ops| - 1].connects then [|ops| - 1] else []
  {
  }

  /** Extending the openings by one extends the selection by that one when it names the space. */
  lemma ForSpaceStep(ops: seq<Opening>, id: string, prev: seq<Opening>)
    requires ops != []
    requires AtPositions(prev, ops[..|ops| - 1], Naming(ops[..|ops| - 1], id))
    ensures AtPositions(prev + if id in ops[|ops| - 1].connects then [ops[|ops| - 1]] else [], ops, Naming(ops, id))
  {
    var init, last := ops[..|ops| - 1], ops[|ops| - 1];
    var named := id in last.connects;
    var tail := if named then [last] else [];
    var idx := Naming(ops, id);
    NamingStep(ops, id);
    forall k | 0 <= k < |prev + tail|
      ensures idx[k] < |ops| && (prev + tail)[k] == ops[idx[k]]
    {
      if k < |prev| {
        assert init[idx[k]] == ops[idx[k]];
      }
    }
  }

  /** Openings at the positions that name the space are exactly the openings of `ops` that name it. */
  lemma AtNamingMembers(r: seq<Opening>, ops: seq<Opening>, id: string)
    requires AtPositions(r, ops, Naming(ops, id))
    ensures forall k :: 0 <= k < |r| ==> r[k] in ops && id in r[k].connects
    ensures forall k :: 0 <= k < |ops| && id in ops[k].connects ==> ops[k] in r
  {
    var idx := Naming(ops, id);
    NamingMeaning(ops, id);
    forall k | 0 <= k < |ops| && id in ops[k].connects
      ensures ops[k] in r
    {
      var m :| 0 <= m < |idx| && idx[m] == k;
      assert r[m] == ops[k];
    }
  }

  /**
   * `[o for o in openings if space_id in o["connects"]]`: the openings at the
   * positions that name the space, each once and in their original order.
   */
  function ForSpace(ops: seq<Opening>, id: string): (r: seq<Opening>)
    reads set o | o in ops
    ensures |r| == |Naming(ops, id)| <= |ops|
    ensures forall k :: 0 <= k < |r| ==> Naming(ops, id)[k] < |ops| && r[k] == ops[Naming(ops, id)[k]]
    ensures forall k :: 0 <= k < |r| ==> r[k] in ops && id in r[k].connects
    ensures forall k :: 0 <= k < |ops| && id in ops[k].connects ==> ops[k] in r
  {
    if ops == [] then []
    else
      var last := ops[|ops| - 1];
      var prev := ForSpace(ops[..|ops| - 1], id);
      var r := prev + if id in last.connects then [last] else [];
      ForSpaceStep(ops, id, prev);
      AtNamingMembers(r, ops, id);
      r
  }

  /** The attributes `get_connectivity_graph` keeps per pair of spaces. */
  datatype Connection = Connection(openings: seq<string>, count: nat, kind: string)

  /** The pair an opening joins, when it names exactly two spaces. */
  function Pair(r: OpeningRecord): set<string>
    requires |r.connects| == 2
  {
    {r.connects[0], r.connects[1]}
  }

  predicate TwoSided(rs: seq<OpeningRecord>)
  {
    forall k :: 0 <= k < |rs| ==> |rs[k].connects| == 2
  }

  function Connect(g: Graph<Connection>, r: OpeningRecord): Graph<Connection>
    requires |r.connects| == 2
  {
    var (a, b) := (r.connects[0], r.connects[1]);
    if {a, b} in g.edges then
      var prev := g.edges[{a, b}];
      g.(edges := g.edges[{a, b} := prev.(openings := prev.openings + [r.id], count := |prev.openings| + 1)])
    else AddEdge(g, a, b, Connection([r.id], 1, r.kind))
  }

  /**
   * The graph `get_connectivity_graph` builds; unpacking `connects` fails for
   * an opening that does not name exactly two spaces.
   */
  function Connectivity(rs: seq<OpeningRecord>): (r: Result<Graph<Connection>, string>)
    ensures r.Ok? <==> TwoSided(rs)
    decreases |rs|
  {
    if rs == [] then Ok(Graph([], map[]))
    else
      match Connectivity(rs[..|rs| - 1])
      case Err(e) => Err(e)
      case Ok(g) =>
        assert TwoSided(rs[..|rs| - 1]);
        if |rs[|rs| - 1].connects| != 2 then Err("ValueError")
        else
          assert TwoSided(rs) by {
            forall k | 0 <= k < |rs| ensures |rs[k].connects| == 2 {
              if k < |rs| - 1 {
                assert rs[k] == rs[..|rs| - 1][k];
              }
            }
          }
          Ok(Connect(g, rs[|rs| - 1]))
  }

  /** The two-sided openings on pair `e`, in order. */
  function On(rs: seq<OpeningRecord>, e: set<string>): seq<OpeningRecord>
    requires TwoSided(rs)
  {
    if rs == [] then []
    else
      assert TwoSided(rs[..|rs| - 1]);
      On(rs[..|rs| - 1], e) + if Pair(rs[|rs| - 1]) == e then [rs[|rs| - 1]] else []
  }

  function Ids(rs: seq<OpeningRecord>): (r: seq<string>)
    ensures |r| == |rs| && forall k :: 0 <= k < |rs| ==> r[k] == rs[k].id
  {
    seq(|rs|, k requires 0 <= k < |rs| => rs[k].id)
  }

  /** The spaces the openings name. */
  function Endpoints(rs: seq<OpeningRecord>): set<string>
  {
    set k, x | 0 <= k < |rs| && x in rs[k].connects :: x
  }

  /** Merging one opening adds its pair as an edge, or extends the edge already there. */
  lemma ConnectStep(g: Graph<Connection>, r: OpeningRecord)
    requires WellFormed(g) && |r.connects| == 2
    ensures var h := Connect(g, r);
      WellFormed(h) && NodeSet(h) == NodeSet(g) + {r.connects[0], r.connects[1]} &&
      h.edges.Keys == g.edges.Keys + {Pair(r)} &&
      (forall e :: e in g.edges && e != Pair(r) ==> h.edges[e] == g.edges[e]) &&
      (Pair(r) !in g.edges ==> h.edges[Pair(r)] == Connection([r.id], 1, r.kind)) &&
      (Pair(r) in g.edges ==>
        h.edges[Pair(r)] == g.edges[Pair(r)].(openings := g.edges[Pair(r)].openings + [r.id], count := |g.edges[Pair(r)].openings| + 1))
  {
    if Pair(r) in g.edges {
      assert r.connects[0] in Pair(r) && r.connects[1] in Pair(r);
    }
  }

  lemma EndpointsStep(rs: seq<OpeningRecord>)
    requires |rs| > 0 && |rs[|rs| - 1].connects| == 2
    ensures Endpoints(rs) == Endpoints(rs[..|rs| - 1]) + {rs[|rs| - 1].connects[0], rs[|rs| - 1].connects[1]}
  {
    var init, r := rs[..|rs| - 1], rs[|rs| - 1];
    forall x | x in Endpoints(rs) ensures x in Endpoints(init) || x == r.connects[0] || x == r.connects[1] {
      var k :| 0 <= k < |rs| && x in rs[k].connects;
      if k < |init| {
        assert init[k] == rs[k];
      }
    }
    forall x | x in Endpoints(init) ensures x in Endpoints(rs) {
      var k :| 0 <= k < |init| && x in init[k].connects;
      assert rs[k] == init[k];
    }
    assert r.connects[0] in rs[|rs| - 1].connects && r.connects[1] in rs[|rs| - 1].connects;
  }

  /** The graph is well formed and its nodes are exactly the spaces the openings name. */
  lemma {:induction false} ConnectivityNodes(rs: seq<OpeningRecord>)
    requires TwoSided(rs)
    ensures WellFormed(Connectivity(rs).value) && NodeSet(Connectivity(rs).value) == Endpoints(rs)
    decreases |rs|
  {
    if rs != [] {
      var init := rs[..|rs| - 1];
      assert TwoSided(init);
      ConnectivityNodes(init);
      ConnectStep(Connectivity(init).value, rs[|rs| - 1]);
      EndpointsStep(rs);
    } else {
      assert Endpoints(rs) == {};
    }
  }

  lemma OnStep(rs: seq<OpeningRecord>, e: set<string>)
    requires |rs| > 0 && TwoSided(rs)
    ensures TwoSided(rs[..|rs| - 1])
    ensures On(rs, e) == On(rs[..|rs| - 1], e) + if Pair(rs[|rs| - 1]) == e then [rs[|rs| - 1]] else []
  {
  }

  /**
   * Each pair of spaces joined by an opening has one edge: its `openings` are
   * the IDs of the openings on that pair in order, its `count` their number,
   * and its `type` that of the first of them. No other edge exists.
   */
  lemma {:induction false} ConnectivityEdges(rs: seq<OpeningRecord>, e: set<string>)
    requires TwoSided(rs)
    ensures var g := Connectivity(rs).value;
      (e in g.edges <==> On(rs, e) != []) &&
      (e in g.edges ==> g.edges[e] == Connection(Ids(On(rs, e)), |On(rs, e)|, On(rs, e)[0].kind))
    decreases |rs|
  {
    if rs != [] {
      var init, r := rs[..|rs| - 1], rs[|rs| - 1];
      OnStep(rs, e);
      ConnectivityEdges(init, e);
      var g0 := Connectivity(init).value;
      assert Connectivity(rs).value == Connect(g0, r);
      if Pair(r) != e {
        ConnectOther(g0, r, e);
      } else if On(init, e) == [] {
        ConnectNew(g0, r);
      } else {
        ConnectMerge(g0, r);
        assert Ids(On(rs, e)) == Ids(On(init, e)) + [r.id];
      }
    }
  }

  lemma ConnectOther(g: Graph<Connection>, r: OpeningRecord, e: set<string>)
    requires |r.connects| == 2 && e != Pair(r)
    ensures e in Connect(g, r).edges <==> e in g.edges
    ensures e in g.edges ==> Connect(g, r).edges[e] == g.edges[e]
  {
  }

  lemma ConnectNew(g: Graph<Connection>, r: OpeningRecord)
    requires |r.connects| == 2 && Pair(r) !in g.edges
    ensures Pair(r) in Connect(g, r).edges && Connect(g, r).edges[Pair(r)] == Connection([r.id], 1, r.kind)
  {
  }

  lemma ConnectMerge(g: Graph<Connection>, r: OpeningRecord)
    requires |r.connects| == 2 && Pair(r) in g.edges
    ensures Pair(r) in Connect(g, r).edges
    ensures var c := g.edges[Pair(r)];
      Connect(g, r).edges[Pair(r)] == c.(openings := c.openings + [r.id], count := |c.openings| + 1)
  {
  }

  lemma {:induction false} OnFacts(rs: seq<OpeningRecord>, e: set<string>)
    requires TwoSided(rs)
    ensures forall o :: o in On(rs, e) ==> o in rs && Pair(o) == e
    decreases |rs|
  {
    if rs != [] {
      assert TwoSided(rs[..|rs| - 1]);
      OnFacts(rs[..|rs| - 1], e);
    }
  }

  // ---------------------------------------------------------------------------
  // The detector

  /** The update of one opening in a loop over distinct openings. */
  method SetKind(ops: seq<Opening>, i: nat, kind: string)
    requires i < |ops| && Distinct(ops)
    modifies ops[i]
    ensures Records(ops) == old(Records(ops))[i := old(Record(ops[i])).(kind := kind)]
  {
    ops[i].kind := kind;
    assert forall k :: 0 <= k < |ops| && k != i ==> ops[k] != ops[i];
  }

  method SetState(ops: seq<Opening>, i: nat, state: string)
    requires i < |ops| && Distinct(ops)
    modifies ops[i]
    ensures Records(ops) == old(Records(ops))[i := old(Record(ops[i])).(state := state)]
  {
    ops[i].state := state;
    assert forall k :: 0 <= k < |ops| && k != i ==> ops[k] != ops[i];
  }

  /** The opening of one detection, a new object with its ID and endpoints already set. */
  method NewOpening(d: Detection, n: nat) returns (o: Opening)
    ensures fresh(o) && Record(o) == Fresh(d, n)
  {
    o := new Opening(d.voxels, d.features.area, d.features.width, d.features.height, d.features.aspectRatio);
    o.id := OpeningId(n);
    o.connects := [d.a, d.b];
  }

  /** The openings of one detection, numbered from `start + 1`. */
  method NewOpenings(ds: seq<Detection>, start: nat) returns (ops: seq<Opening>)
    ensures Distinct(ops) && forall k :: 0 <= k < |ops| ==> fresh(ops[k])
    ensures Records(ops) == Numbered(ds, start)
  {
    ops := [];
    var k := 0;
    while k < |ds|
      invariant k <= |ds| && |ops| == k && Distinct(ops)
      invariant forall j :: 0 <= j < k ==> fresh(ops[j])
      invariant NumberedFrom(ops, ds, start)
    {
      ops := AppendOpening(ops, ds[k], start + k + 1);
      k := k + 1;
    }
    NumberedRecords(ops, ds, start);
  }

  /** Each opening carries the record of the detection at its position. */
  ghost predicate NumberedFrom(ops: seq<Opening>, ds: seq<Detection>, start: nat)
    reads set o | o in ops
  {
    |ops| <= |ds| && forall j :: 0 <= j < |ops| ==> Record(ops[j]) == Fresh(ds[j], start + j + 1)
  }

  lemma NumberedRecords(ops: seq<Opening>, ds: seq<Detection>, start: nat)
    requires |ops| == |ds| && NumberedFrom(ops, ds, start)
    ensures Records(ops) == Numbered(ds, start)
  {
    var r, n := Records(ops), Numbered(ds, start);
    assert |r| == |n|;
    forall k | 0 <= k < |r| ensures r[k] == n[k] {
      assert r[k] == Record(ops[k]);
    }
  }

  /** `openings.append(...)` of the opening of one detection. */
  method AppendOpening(ops: seq<Opening>, d: Detection, n: nat) returns (next: seq<Opening>)
    requires Distinct(ops)
    ensures |next| == |ops| + 1 && Distinct(next)
    ensures forall j :: 0 <= j < |ops| ==> next[j] == ops[j]
    ensures fresh(next[|ops|]) && Record(next[|ops|]) == Fresh(d, n)
  {
    var o := NewOpening(d, n);
    DistinctSnoc(ops, o);
    next := ops + [o];
  }

  lemma DistinctSnoc(ops: seq<Opening>, o: Opening)
    requires Distinct(ops) && forall j :: 0 <= j < |ops| ==> ops[j] != o
    ensures Distinct(ops + [o])
  {
  }

  lemma RecordsSnoc(ops: seq<Opening>, o: Opening)
    ensures Records(ops + [o]) == Records(ops) + [Record(o)]
  {
    assert (ops + [o])[..|ops|] == ops;
  }

  class OpeningDetector {
    const limits: Limits
    var openings: seq<Opening>

    /** The detector's openings are distinct objects, each measured. */
    ghost predicate Valid()
      reads this, set o | o in openings
    {
      Distinct(openings) && Measured(Records(openings))
    }

    constructor (limits: Limits)
      ensures Valid() && this.limits == limits && openings == []
    {
      this.limits := limits;
      openings := [];
    }

    /**
     * `detect_openings`: the list is emptied; without a voxel grid or spaces
     * it stays empty. Otherwise every adjacency edge in turn adds one new
     * opening per cluster of its interface, numbered consecutively, joining
     * the edge's two spaces; then all are classified. An edge naming a space
     * that is not listed makes `next` raise, leaving the openings of the
     * edges before it.
     */
    method DetectOpenings(gridPresent: bool, spaces: seq<SpaceVoxels>, edges: seq<(string, string)>,
                          dbscan: seq<Cell> -> seq<int>, measure: seq<Cell> -> Features)
      returns (r: Result<seq<Opening>, string>)
      modifies this
      ensures !gridPresent || spaces == [] ==> r == Ok([]) && openings == []
      ensures gridPresent && spaces != [] ==> (r.Ok? <==> AllListed(spaces, edges))
      ensures Valid() && forall k :: 0 <= k < |openings| ==> fresh(openings[k])
      ensures r.Ok? ==> r.value == openings
      ensures r.Ok? && gridPresent && spaces != [] ==>
        Records(openings) == DetectedRecords(limits, Found(spaces, edges, Between(dbscan, measure)))
      ensures r.Err? ==>
        r.error == "StopIteration" && Records(openings) == Numbered(Found(spaces, edges[..FirstMissing(spaces, edges)], Between(dbscan, measure)), 0)
    {
      var ops;
      ops, r := DetectOpeningsIn(limits, gridPresent, spaces, edges, dbscan, measure);
      ghost var recs := Records(ops);
      openings := ops;
      assert Records(openings) == recs;
    }

    /** `_classify_openings`: every opening gets the type the decision table gives; nothing else changes. */
    method ClassifyOpenings()
      requires Valid()
      modifies set o | o in openings
      ensures Valid()
      ensures Records(openings) == ClassifyAll(limits, old(Records(openings)))
    {
      ClassifyEach(limits, openings);
    }

    /** `detect_door_states`: nothing without a voxel grid; otherwise every door is set open. */
    method DetectDoorStates(gridPresent: bool)
      requires Valid()
      modifies set o | o in openings
      ensures Valid()
      ensures !gridPresent ==> Records(openings) == old(Records(openings))
      ensures gridPresent ==> Records(openings) == DoorsOpened(old(Records(openings)))
    {
      if gridPresent {
        OpenDoors(openings);
      }
    }

    /** `get_openings_for_space`. */
    function OpeningsForSpace(id: string): (r: seq<Opening>)
      reads this, set o | o in openings
      ensures |r| == |Naming(openings, id)|
      ensures forall k :: 0 <= k < |r| ==> Naming(openings, id)[k] < |openings| && r[k] == openings[Naming(openings, id)[k]]
      ensures forall k :: 0 <= k < |r| ==> r[k] in openings && id in r[k].connects
      ensures forall k :: 0 <= k < |openings| && id in openings[k].connects ==> openings[k] in r
    {
      ForSpace(openings, id)
    }

    /** `get_connectivity_graph`: one pass over the openings, merging openings on the same pair. */
    method ConnectivityGraph() returns (r: Result<Graph<Connection>, string>)
      ensures r == Connectivity(Records(openings))
    {
      var g: Graph<Connection> := Graph([], map[]);
      ghost var rs := Records(openings);
      var i := 0;
      while i < |openings|
        invariant i <= |openings| && Connectivity(rs[..i]) == Ok(g)
      {
        assert rs[..i + 1][..i] == rs[..i];
        var o := openings[i];
        assert Record(o) == rs[i];
        if |o.connects| != 2 {
          assert rs[..i + 1][i] == rs[i];
          assert !TwoSided(rs);
          ConnectivityFails(rs);
          return Err("ValueError");
        }
        var a, b := o.connects[0], o.connects[1];
        if {a, b} in g.edges {
          var d := g.edges[{a, b}];
          var ids := d.openings + [o.id];
          g := g.(edges := g.edges[{a, b} := d.(openings := ids, count := |ids|)]);
        } else {
          g := AddEdge(g, a, b, Connection([o.id], 1, o.kind));
        }
        i := i + 1;
      }
      assert rs[..i] == rs;
      r := Ok(g);
    }
  }

  /**
   * The loop of `detect_openings` over the adjacency edges: what each edge's
   * interface yields, in order, and whether an edge named a space that is not
   * listed (the loop stops there, keeping what it found before).
   */
  method DetectAll(spaces: seq<SpaceVoxels>, edges: seq<(string, string)>,
                   dbscan: seq<Cell> -> seq<int>, measure: seq<Cell> -> Features)
    returns (found: seq<Detection>, failed: bool)
    ensures failed <==> !AllListed(spaces, edges)
    ensures !failed ==> found == Found(spaces, edges, Between(dbscan, measure))
    ensures failed ==> found == Found(spaces, edges[..FirstMissing(spaces, edges)], Between(dbscan, measure))
  {
    found := [];
    ghost var stop := FirstMissing(spaces, edges);
    var i := 0;
    while i < |edges|
      invariant i <= |edges| && AllListed(spaces, edges[..i]) && i <= stop
      invariant found == Found(spaces, edges[..i], Between(dbscan, measure))
    {
      var ds := DetectEdge(spaces, edges[i], dbscan, measure);
      if ds.None? {
        FirstMissingAt(spaces, edges, i);
        return found, true;
      }
      FirstMissingBeyond(spaces, edges, i);
      FoundStep(spaces, edges, Between(dbscan, measure), i);
      found := found + ds.value;
      i := i + 1;
    }
    assert edges[..i] == edges;
    failed := false;
  }

  /** The openings of all adjacency edges, new objects numbered from 1, before classification. */
  method DetectNumbered(spaces: seq<SpaceVoxels>, edges: seq<(string, string)>,
                        dbscan: seq<Cell> -> seq<int>, measure: seq<Cell> -> Features)
    returns (ops: seq<Opening>, failed: bool)
    ensures failed <==> !AllListed(spaces, edges)
    ensures Distinct(ops) && Measured(Records(ops)) && forall k :: 0 <= k < |ops| ==> fresh(ops[k])
    ensures !failed ==> Records(ops) == Numbered(Found(spaces, edges, Between(dbscan, measure)), 0)
    ensures failed ==>
      Records(ops) == Numbered(Found(spaces, edges[..FirstMissing(spaces, edges)], Between(dbscan, measure)), 0)
  {
    var found;
    found, failed := DetectAll(spaces, edges, dbscan, measure);
    ops := NewOpenings(found, 0);
    NumberedMeasured(found, 0);
  }

  /** The body of `detect_openings`, returning the new list of openings and the outcome. */
  method DetectOpeningsIn(limits: Limits, gridPresent: bool, spaces: seq<SpaceVoxels>, edges: seq<(string, string)>,
                          dbscan: seq<Cell> -> seq<int>, measure: seq<Cell> -> Features)
    returns (ops: seq<Opening>, r: Result<seq<Opening>, string>)
    ensures !gridPresent || spaces == [] ==> r == Ok([]) && ops == []
    ensures gridPresent && spaces != [] ==> (r.Ok? <==> AllListed(spaces, edges))
    ensures Distinct(ops) && Measured(Records(ops)) && forall k :: 0 <= k < |ops| ==> fresh(ops[k])
    ensures r.Ok? ==> r.value == ops
    ensures r.Ok? && gridPresent && spaces != [] ==>
      Records(ops) == DetectedRecords(limits, Found(spaces, edges, Between(dbscan, measure)))
    ensures r.Err? ==>
      r.error == "StopIteration" && Records(ops) == Numbered(Found(spaces, edges[..FirstMissing(spaces, edges)], Between(dbscan, measure)), 0)
  {
    if !gridPresent || spaces == [] {
      return [], Ok([]);
    }
    var failed;
    ops, failed := DetectAndClassify(limits, spaces, edges, dbscan, measure);
    if failed {
      return ops, Err("StopIteration");
    }
    DetectedMeasured(limits, Found(spaces, edges, Between(dbscan, measure)));
    r := Ok(ops);
  }

  /**
   * The openings of all adjacency edges, numbered from 1 and then classified
   * as `_classify_openings` does; on a missing space, the openings of the
   * edges before it, unclassified.
   */
  method DetectAndClassify(limits: Limits, spaces: seq<SpaceVoxels>, edges: seq<(string, string)>,
                           dbscan: seq<Cell> -> seq<int>, measure: seq<Cell> -> Features)
    returns (ops: seq<Opening>, failed: bool)
    ensures failed <==> !AllListed(spaces, edges)
    ensures Distinct(ops) && Measured(Records(ops)) && forall k :: 0 <= k < |ops| ==> fresh(ops[k])
    ensures !failed ==> Records(ops) == DetectedRecords(limits, Found(spaces, edges, Between(dbscan, measure)))
    ensures failed ==>
      Records(ops) == Numbered(Found(spaces, edges[..FirstMissing(spaces, edges)], Between(dbscan, measure)), 0)
  {
    ops, failed := DetectNumbered(spaces, edges, dbscan, measure);
    if !failed {
      ClassifyEach(limits, ops);
    }
  }

  /** The openings found on one adjacency edge, or `None` when `next` finds no space for one end. */
  method DetectEdge(spaces: seq<SpaceVoxels>, e: (string, string), dbscan: seq<Cell> -> seq<int>,
                    measure: seq<Cell> -> Features)
    returns (ds: Option<seq<Detection>>)
    ensures ds.None? <==> Missing(spaces, e)
    ensures ds.Some? ==>
      ds.value == Between(dbscan, measure)(FindSpace(spaces, e.0).value, FindSpace(spaces, e.1).value)
  {
    var s1, s2 := FindSpace(spaces, e.0), FindSpace(spaces, e.1);
    if s1.None? || s2.None? {
      return None;
    }
    var found := DetectBetween(s1.value, s2.value, dbscan, measure);
    return Some(found);
  }

  lemma NumberedMeasured(ds: seq<Detection>, start: nat)
    ensures Measured(Numbered(ds, start))
  {
  }

  lemma DetectedMeasured(limits: Limits, ds: seq<Detection>)
    ensures Measured(DetectedRecords(limits, ds))
  {
    NumberedMeasured(ds, 0);
  }

  /** Every opening given an area is measured. */
  predicate Measured(rs: seq<OpeningRecord>)
  {
    forall k :: 0 <= k < |rs| ==> rs[k].area.Some?
  }

  /** After `i` steps of a loop that updates record by record with `f`. */
  ghost predicate MappedUpTo(cur: seq<OpeningRecord>, before: seq<OpeningRecord>, i: nat,
                             f: OpeningRecord -> OpeningRecord)
  {
    |cur| == |before| && i <= |cur| &&
    (forall k :: 0 <= k < i ==> cur[k] == f(before[k])) &&
    (forall k :: i <= k < |cur| ==> cur[k] == before[k])
  }

  lemma MappedStep(cur: seq<OpeningRecord>, before: seq<OpeningRecord>, i: nat, f: OpeningRecord -> OpeningRecord)
    requires MappedUpTo(cur, before, i, f) && i < |cur|
    ensures MappedUpTo(cur[i := f(before[i])], before, i + 1, f)
  {
  }

  /** The loop of `_classify_openings` over distinct, measured openings. */
  method ClassifyEach(limits: Limits, ops: seq<Opening>)
    requires Distinct(ops) && Measured(Records(ops))
    modifies set o | o in ops
    ensures Records(ops) == ClassifyAll(limits, old(Records(ops)))
  {
    ghost var before := Records(ops);
    ghost var f := r => Classified(limits, r);
    var i := 0;
    while i < |ops|
      invariant MappedUpTo(Records(ops), before, i, f)
    {
      var o := ops[i];
      ghost var cur := Records(ops);
      assert Record(o) == cur[i] == before[i];
      var t := Classify(limits, o.area.value, o.width, o.aspectRatio);
      SetKind(ops, i, t);
      MappedStep(cur, before, i, f);
      i := i + 1;
    }
    assert Records(ops) == ClassifyAll(limits, before);
  }

  /** The loop of `detect_door_states` over distinct openings. */
  method OpenDoors(ops: seq<Opening>)
    requires Distinct(ops)
    modifies set o | o in ops
    ensures Records(ops) == DoorsOpened(old(Records(ops)))
  {
    ghost var before := Records(ops);
    var i := 0;
    while i < |ops|
      invariant MappedUpTo(Records(ops), before, i, DoorOpened)
    {
      var o := ops[i];
      ghost var cur := Records(ops);
      assert Record(o) == cur[i] == before[i];
      if Contains(o.kind, "door") {
        SetState(ops, i, "open");
      } else {
        assert cur[i := DoorOpened(before[i])] == cur;
      }
      MappedStep(cur, before, i, DoorOpened);
      i := i + 1;
    }
    assert Records(ops) == DoorsOpened(before);
  }

  /** `_detect_openings_between_spaces` up to creating the openings. */
  method DetectBetween(s1: SpaceVoxels, s2: SpaceVoxels, dbscan: seq<Cell> -> seq<int>, measure: seq<Cell> -> Features)
    returns (ds: seq<Detection>)
    ensures ds == PairDetections(s1, s2, dbscan, measure)
  {
    var iface := FindSpaceInterface(s1.voxels, s2.voxels);
    if |iface| == 0 {
      return [];
    }
    var cs := ClusterInterfaceVoxels(iface, dbscan(iface));
    ds := DetectClusters(s1.id, s2.id, cs, measure);
  }

  /** The loop of `_detect_openings_between_spaces` over the clusters: one opening each, measured. */
  method DetectClusters(a: string, b: string, cs: seq<seq<Cell>>, measure: seq<Cell> -> Features)
    returns (ds: seq<Detection>)
    ensures ds == Detect(a, b, cs, measure)
  {
    ds := [];
    var k := 0;
    while k < |cs|
      invariant k <= |cs| && |ds| == k
      invariant forall j :: 0 <= j < k ==> ds[j] == Detection(a, b, cs[j], measure(cs[j]))
    {
      ds := ds + [Detection(a, b, cs[k], measure(cs[k]))];
      k := k + 1;
    }
  }

  lemma RecordsAppend(a: seq<Opening>, b: seq<Opening>)
    ensures Records(a + b) == Records(a) + Records(b)
  {
  }

  /** The only failure is the unpacking of an opening that does not name two spaces. */
  lemma {:induction false} ConnectivityFails(rs: seq<OpeningRecord>)
    requires !TwoSided(rs)
    ensures Connectivity(rs) == Err("ValueError")
    decreases |rs|
  {
    var init := rs[..|rs| - 1];
    if !TwoSided(init) {
      ConnectivityFails(init);
    }
  }
}
