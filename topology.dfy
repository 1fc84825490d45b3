/**
 * The space connection graph of `topology_builder.py`: one node per space
 * and one for the exterior, one edge per pair of spaces joined by openings,
 * weighted by the openings' resistance, repair edges that tie every cut-off
 * group of spaces to the exterior, and the queries asked of the graph.
 */
module Topology {
  import opened Wrappers
  import opened Numbers
  import opened Sorting
  import opened Graphs
  import opened Openings

  const Exterior: string := "space_exterior"

  /** The attributes of an edge: the openings on it, their types and its weight. */
  datatype EdgeData = EdgeData(openings: seq<string>, count: nat, weight: real, openingTypes: seq<string>, isRepair: bool)

  /** The entries of a space record the builder reads (a missing volume reads as 0). */
  datatype SpaceRecord = SpaceRecord(id: string, volume: real, kind: string)

  /** The attributes of a repair edge. */
  const RepairData: EdgeData := EdgeData(["repair_opening"], 1, 2.0, ["repair"], true)

  // ---------------------------------------------------------------------------
  // Nodes

  /** A space record per ID; a later record with the same ID replaces an earlier one. */
  function Remember(props: map<string, SpaceRecord>, spaces: seq<SpaceRecord>): (r: map<string, SpaceRecord>)
    ensures forall v :: v in r <==> v in props || exists k :: 0 <= k < |spaces| && spaces[k].id == v
    ensures forall k :: 0 <= k < |spaces| ==> spaces[k].id in r
  {
    if spaces == [] then props
    else
      var init := spaces[..|spaces| - 1];
      var r := Remember(props, init)[spaces[|spaces| - 1].id := spaces[|spaces| - 1]];
      assert forall k :: 0 <= k < |init| ==> init[k] == spaces[k];
      r
  }

  /** The record kept for a space is the last one listed with its ID. */
  lemma {:induction false} RememberLast(props: map<string, SpaceRecord>, spaces: seq<SpaceRecord>, k: nat)
    requires k < |spaces| && forall j :: k < j < |spaces| ==> spaces[j].id != spaces[k].id
    ensures Remember(props, spaces)[spaces[k].id] == spaces[k]
    decreases |spaces|
  {
    if k < |spaces| - 1 {
      var init := spaces[..|spaces| - 1];
      assert forall j :: k < j < |init| ==> init[j] == spaces[j];
      RememberLast(props, init, k);
    }
  }

  /** The space nodes, added in order; a repeated ID adds no node. */
  function SpaceNodes(g: Graph<EdgeData>, spaces: seq<SpaceRecord>): (r: Graph<EdgeData>)
    ensures r.edges == g.edges
    ensures forall v :: v in r.nodes <==> v in g.nodes || exists k :: 0 <= k < |spaces| && spaces[k].id == v
    ensures WellFormed(g) ==> WellFormed(r)
  {
    if spaces == [] then g
    else
      var init := spaces[..|spaces| - 1];
      var r := AddNode(SpaceNodes(g, init), spaces[|spaces| - 1].id);
      assert forall k :: 0 <= k < |init| ==> init[k] == spaces[k];
      assert forall v :: v in r.nodes <==> v in NodeSet(r);
      r
  }

  /** The graph before any opening: the spaces, then the exterior, and no edge. */
  function BaseGraph(spaces: seq<SpaceRecord>): (g: Graph<EdgeData>)
    ensures WellFormed(g) && g.edges == map[]
    ensures forall v :: v in g.nodes <==> v == Exterior || exists k :: 0 <= k < |spaces| && spaces[k].id == v
  {
    var g := AddNode(SpaceNodes(Graph([], map[]), spaces), Exterior);
    assert forall v :: v in g.nodes <==> v in NodeSet(g);
    g
  }

  // ---------------------------------------------------------------------------
  // Edges from openings

  /** An opening with one endpoint is taken to lead to the exterior. */
  function Completed(connects: seq<string>): (r: seq<string>)
    ensures |connects| == 1 ==> r == connects + [Exterior]
    ensures |connects| != 1 ==> r == connects
  {
    if |connects| == 1 then connects + [Exterior] else connects
  }

  lemma CompletedIdempotent(connects: seq<string>)
    ensures Completed(Completed(connects)) == Completed(connects)
  {
  }

  /**
   * The resistance of an opening: the inverse of a positive area, 10 for
   * an area that is not positive, and 1 when no area was measured.
   */
  function OpeningWeight(area: Option<real>): (w: real)
    ensures w > 0.0
    ensures area.Some? && area.value > 0.0 ==> w * area.value == 1.0
    ensures area.Some? && area.value <= 0.0 ==> w == 10.0
    ensures area.None? ==> w == 1.0
  {
    match area
    case None => 1.0
    case Some(a) => if a > 0.0 then 1.0 / a else 10.0
  }

  /** An opening that makes an edge: two endpoints, both of them nodes. */
  predicate Joins(nodes: seq<string>, v: OpeningView)
  {
    |v.connects| == 2 && v.connects[0] in nodes && v.connects[1] in nodes
  }

  function Key(v: OpeningView): set<string>
    requires |v.connects| == 2
  {
    {v.connects[0], v.connects[1]}
  }

  /** One opening of the edge loop of `build_topology`, its endpoints already completed. */
  function AddOpening(g: Graph<EdgeData>, v: OpeningView): (r: Graph<EdgeData>)
    ensures r.nodes == g.nodes
    ensures WellFormed(g) ==> WellFormed(r)
  {
    if !Joins(g.nodes, v) then g
    else
      var e := Key(v);
      var w := OpeningWeight(v.area);
      if e in g.edges then
        var d := g.edges[e];
        Graph(g.nodes, g.edges[e := d.(openings := d.openings + [v.id], count := |d.openings| + 1,
                                       weight := Min2(d.weight, w), openingTypes := d.openingTypes + [v.kind])])
      else
        Graph(g.nodes, g.edges[e := EdgeData([v.id], 1, w, [v.kind], false)])
  }

  function AddOpenings(g: Graph<EdgeData>, vs: seq<OpeningView>): (r: Graph<EdgeData>)
    ensures r.nodes == g.nodes
    ensures WellFormed(g) ==> WellFormed(r)
  {
    if vs == [] then g else AddOpening(AddOpenings(g, vs[..|vs| - 1]), vs[|vs| - 1])
  }

  /** The openings, in order, that make the edge `e`. */
  function Hits(nodes: seq<string>, vs: seq<OpeningView>, e: set<string>): (r: seq<OpeningView>)
    ensures forall k :: 0 <= k < |r| ==> Joins(nodes, r[k]) && Key(r[k]) == e
  {
    if vs == [] then []
    else
      var init := Hits(nodes, vs[..|vs| - 1], e);
      var v := vs[|vs| - 1];
      if Joins(nodes, v) && Key(v) == e then init + [v] else init
  }

  function HitIds(hs: seq<OpeningView>): (r: seq<string>)
    ensures |r| == |hs| && forall k :: 0 <= k < |hs| ==> r[k] == hs[k].id
  {
    if hs == [] then [] else HitIds(hs[..|hs| - 1]) + [hs[|hs| - 1].id]
  }

  function HitKinds(hs: seq<OpeningView>): (r: seq<string>)
    ensures |r| == |hs| && forall k :: 0 <= k < |hs| ==> r[k] == hs[k].kind
  {
    if hs == [] then [] else HitKinds(hs[..|hs| - 1]) + [hs[|hs| - 1].kind]
  }

  function HitWeights(hs: seq<OpeningView>): (r: seq<real>)
    ensures |r| == |hs| && forall k :: 0 <= k < |hs| ==> r[k] == OpeningWeight(hs[k].area)
  {
    if hs == [] then [] else HitWeights(hs[..|hs| - 1]) + [OpeningWeight(hs[|hs| - 1].area)]
  }

  /** The edge a non-empty list of openings on one pair makes. */
  function Summary(hs: seq<OpeningView>): EdgeData
    requires |hs| > 0
  {
    EdgeData(HitIds(hs), |hs|, MinOf(HitWeights(hs)), HitKinds(hs), false)
  }

  /**
   * The edges the openings make: a pair is joined exactly when some opening
   * with two existing endpoints names it (in either order), and its edge
   * lists those openings' IDs and types in order, counts them and has the
   * least of their weights.
   */
  lemma OpeningEdges(g: Graph<EdgeData>, vs: seq<OpeningView>)
    requires g.edges == map[]
    ensures var r := AddOpenings(g, vs);
      forall e :: (e in r.edges <==> |Hits(g.nodes, vs, e)| > 0) &&
                  (e in r.edges ==> r.edges[e] == Summary(Hits(g.nodes, vs, e)))
  {
    forall e ensures var r := AddOpenings(g, vs);
      (e in r.edges <==> |Hits(g.nodes, vs, e)| > 0) &&
      (e in r.edges ==> r.edges[e] == Summary(Hits(g.nodes, vs, e)))
    {
      OpeningEdgeAt(g, vs, e);
    }
  }

  /** `OpeningEdges` for one pair. */
  lemma {:induction false} OpeningEdgeAt(g: Graph<EdgeData>, vs: seq<OpeningView>, e: set<string>)
    requires g.edges == map[]
    ensures var r := AddOpenings(g, vs);
      (e in r.edges <==> |Hits(g.nodes, vs, e)| > 0) &&
      (e in r.edges ==> r.edges[e] == Summary(Hits(g.nodes, vs, e)))
    decreases |vs|
  {
    if vs != [] {
      var n := |vs| - 1;
      var init, v := vs[..n], vs[n];
      OpeningEdgeAt(g, init, e);
      var h0 := Hits(g.nodes, init, e);
      assert AddOpenings(g, vs) == AddOpening(AddOpenings(g, init), v);
      if Joins(g.nodes, v) && Key(v) == e {
        assert Hits(g.nodes, vs, e) == h0 + [v];
        SummarySnoc(h0, v);
      } else {
        assert Hits(g.nodes, vs, e) == h0;
      }
    }
  }

  /** One more opening on a pair extends its edge's lists and keeps the least weight. */
  lemma SummarySnoc(h0: seq<OpeningView>, v: OpeningView)
    ensures var w := OpeningWeight(v.area);
      h0 == [] ==> Summary(h0 + [v]) == EdgeData([v.id], 1, w, [v.kind], false)
    ensures var w, d := OpeningWeight(v.area), if h0 == [] then RepairData else Summary(h0);
      h0 != [] ==> Summary(h0 + [v]) == d.(openings := d.openings + [v.id], count := |d.openings| + 1,
                                          weight := Min2(d.weight, w), openingTypes := d.openingTypes + [v.kind])
  {
    var hs := h0 + [v];
    assert hs[..|hs| - 1] == h0;
    assert HitIds(hs) == HitIds(h0) + [v.id];
    assert HitKinds(hs) == HitKinds(h0) + [v.kind];
    assert HitWeights(hs) == HitWeights(h0) + [OpeningWeight(v.area)];
    if h0 == [] {
      assert HitWeights(hs) == [OpeningWeight(v.area)];
    } else {
      assert HitWeights(hs)[..|hs| - 1] == HitWeights(h0);
    }
  }

  /** Every edge's count is the length of its opening list, and its weight is positive. */
  lemma OpeningEdgesConsistent(g: Graph<EdgeData>, vs: seq<OpeningView>, e: set<string>)
    requires g.edges == map[] && e in AddOpenings(g, vs).edges
    ensures var d := AddOpenings(g, vs).edges[e];
      d.count == |d.openings| == |d.openingTypes| > 0 && d.weight > 0.0 && !d.isRepair
  {
    OpeningEdges(g, vs);
    var hs := Hits(g.nodes, vs, e);
    var ws := HitWeights(hs);
    assert ws[0] > 0.0;
    var m := MinOf(ws);
    var i :| 0 <= i < |ws| && ws[i] == m;
  }

  // ---------------------------------------------------------------------------
  // Centrality

  /** `G.degree(v)`: the edges at `v`, a self-loop counted twice. */
  function Degree(g: Graph<EdgeData>, v: string): nat
  {
    |set e | e in g.edges && v in e| + (if {v} in g.edges then 1 else 0)
  }

  function NodeValues(nodes: seq<string>, f: string -> real): (r: seq<real>)
    ensures |r| == |nodes| && forall k :: 0 <= k < |nodes| ==> r[k] == f(nodes[k])
  {
    seq(|nodes|, k requires 0 <= k < |nodes| => f(nodes[k]))
  }

  function DegreeValues(g: Graph<EdgeData>): (r: seq<real>)
    ensures |r| == |g.nodes| && forall k :: 0 <= k < |g.nodes| ==> r[k] == Degree(g, g.nodes[k]) as real
  {
    seq(|g.nodes|, k requires 0 <= k < |g.nodes| => Degree(g, g.nodes[k]) as real)
  }

  /** `x / m`, with a zero maximum taken to mean that every value is zero. */
  function Ratio(x: real, m: real): real
  {
    if m == 0.0 then 0.0 else x / m
  }

  lemma RatioBounds(x: real, m: real)
    requires 0.0 <= x <= m
    ensures 0.0 <= Ratio(x, m) <= 1.0
  {
    if m != 0.0 {
      var q := x / m;
      assert q * m == x;
    }
  }

  /** The three maxima the centrality score divides by. */
  function Maxima(g: Graph<EdgeData>, betweenness: string -> real, closeness: string -> real): (real, real, real)
    requires |g.nodes| > 0
  {
    (MaxOf(NodeValues(g.nodes, betweenness)), MaxOf(NodeValues(g.nodes, closeness)), MaxOf(DegreeValues(g)))
  }

  /** The centrality score of a node, each measure scaled by its maximum over the nodes. */
  function Score(g: Graph<EdgeData>, betweenness: string -> real, closeness: string -> real, v: string): real
    requires |g.nodes| > 0
  {
    var (mb, mc, md) := Maxima(g, betweenness, closeness);
    0.4 * Ratio(betweenness(v), mb) + 0.4 * Ratio(closeness(v), mc) + 0.2 * Ratio(Degree(g, v) as real, md)
  }

  /** `_calculate_topology_properties`: the score of every node. */
  function Scores(g: Graph<EdgeData>, betweenness: string -> real, closeness: string -> real): (r: map<string, real>)
    requires |g.nodes| > 0
    ensures forall v :: v in r <==> v in g.nodes
  {
    map v | v in g.nodes :: Score(g, betweenness, closeness, v)
  }

  /** With non-negative measures, every score lies between 0 and 1. */
  lemma ScoreBounds(g: Graph<EdgeData>, betweenness: string -> real, closeness: string -> real, v: string)
    requires v in g.nodes
    requires forall u :: u in g.nodes ==> betweenness(u) >= 0.0 && closeness(u) >= 0.0
    ensures 0.0 <= Score(g, betweenness, closeness, v) <= 1.0
  {
    var i :| 0 <= i < |g.nodes| && g.nodes[i] == v;
    var (mb, mc, md) := Maxima(g, betweenness, closeness);
    assert NodeValues(g.nodes, betweenness)[i] == betweenness(v);
    assert NodeValues(g.nodes, closeness)[i] == closeness(v);
    assert DegreeValues(g)[i] == Degree(g, v) as real;
    RatioBounds(betweenness(v), mb);
    RatioBounds(closeness(v), mc);
    RatioBounds(Degree(g, v) as real, md);
  }

  /**
   * The score as `_calculate_topology_properties` computes it: it divides
   * by each maximum, so a zero maximum raises ZeroDivisionError, and
   * `build_topology` with it.
   */
  function ScoresAsWritten(g: Graph<EdgeData>, betweenness: string -> real, closeness: string -> real): (r: Result<map<string, real>, string>)
    requires |g.nodes| > 0
    ensures var (mb, mc, md) := Maxima(g, betweenness, closeness);
      r.Err? <==> mb == 0.0 || mc == 0.0 || md == 0.0
  {
    var (mb, mc, md) := Maxima(g, betweenness, closeness);
    if mb == 0.0 || mc == 0.0 || md == 0.0 then Err("ZeroDivisionError")
    else Ok(Scores(g, betweenness, closeness))
  }

  /** Where the written score does not raise, it is the corrected one. */
  lemma ScoresAgree(g: Graph<EdgeData>, betweenness: string -> real, closeness: string -> real)
    requires |g.nodes| > 0 && ScoresAsWritten(g, betweenness, closeness).Ok?
    ensures ScoresAsWritten(g, betweenness, closeness).value == Scores(g, betweenness, closeness)
  {
  }

  /**
   * The written score raises for any model whose openings make no edge, for
   * instance one space and no opening: every degree is then 0.
   */
  lemma NoOpeningsRaises(spaces: seq<SpaceRecord>, betweenness: string -> real, closeness: string -> real)
    ensures ScoresAsWritten(BaseGraph(spaces), betweenness, closeness).Err?
  {
    var g := BaseGraph(spaces);
    var ds := DegreeValues(g);
    forall k | 0 <= k < |ds|
      ensures ds[k] == 0.0
    {
      assert (set e | e in g.edges && g.nodes[k] in e) == {};
    }
  }

  // ---------------------------------------------------------------------------
  // Repair of cut-off components

  /** Some space of `c` has a positive recorded volume. */
  ghost predicate HasVolume(c: set<string>, props: map<string, SpaceRecord>)
  {
    exists n :: n in c && n in props && props[n].volume > 0.0
  }

  /**
   * A space `_validate_topology` may tie to the exterior: cut off from it,
   * with a non-empty ID, and with the largest positive volume of its component.
   */
  ghost predicate RepairPick(g: Graph<EdgeData>, props: map<string, SpaceRecord>, l: string)
  {
    l in g.nodes && l != Exterior && l != "" && !Reach(g, l, Exterior) &&
    l in props && props[l].volume > 0.0 &&
    forall n :: Reach(g, l, n) && n in props ==> props[n].volume <= props[l].volume
  }

  /** `r` has an edge from `l` to the exterior that `g` lacks. */
  ghost predicate NewRepair(g: Graph<EdgeData>, r: Graph<EdgeData>, l: string)
  {
    {l, Exterior} in r.edges && {l, Exterior} !in g.edges
  }

  /** `v` reaches a space with a positive recorded volume. */
  ghost predicate ReachesVolume(g: Graph<EdgeData>, props: map<string, SpaceRecord>, v: string)
  {
    exists n :: Reach(g, v, n) && n in props && props[n].volume > 0.0
  }

  /**
   * `r` is `g` after the repair: the same nodes, every edge of `g` kept as it
   * was, and every other edge a repair edge from a `RepairPick` to the
   * exterior, at most one per component. Every node cut off from the exterior
   * whose component holds a space of positive volume (and no space with an
   * empty ID, which Python's truth test would refuse) gets one.
   */
  ghost predicate Repaired(g: Graph<EdgeData>, props: map<string, SpaceRecord>, r: Graph<EdgeData>)
  {
    r.nodes == g.nodes &&
    (forall e :: e in g.edges ==> e in r.edges && r.edges[e] == g.edges[e]) &&
    (forall e :: e in r.edges && e !in g.edges ==>
       r.edges[e] == RepairData && exists l :: e == {l, Exterior} && RepairPick(g, props, l)) &&
    (forall l, l' :: NewRepair(g, r, l) && NewRepair(g, r, l') && Reach(g, l, l') ==> l == l') &&
    (forall v :: v in g.nodes && !Reach(g, v, Exterior) && !Reach(g, v, "") && ReachesVolume(g, props, v) ==>
       exists l :: Reach(g, v, l) && {l, Exterior} in r.edges)
  }

  /** The inner loop of `_validate_topology`: a space of strictly largest positive volume, first found in set order. */
  method LargestSpace(c: set<string>, props: map<string, SpaceRecord>) returns (largest: Option<string>)
    ensures largest.None? <==> !HasVolume(c, props)
    ensures largest.Some? ==> largest.value in c && largest.value in props && props[largest.value].volume > 0.0
    ensures largest.Some? ==> forall n :: n in c && n in props ==> props[n].volume <= props[largest.value].volume
  {
    largest := None;
    var maxVolume := 0.0;
    var rest := c;
    while rest != {}
      invariant rest <= c
      invariant largest.None? ==> maxVolume == 0.0
      invariant largest.Some? ==> largest.value in c && largest.value in props && props[largest.value].volume == maxVolume > 0.0
      invariant forall n :: n in c - rest && n in props ==> props[n].volume <= maxVolume
      decreases |rest|
    {
      var node :| node in rest;
      if node in props {
        var volume := props[node].volume;
        if volume > maxVolume {
          maxVolume := volume;
          largest := Some(node);
        }
      }
      rest := rest - {node};
    }
  }

  /** The repair keeps the nodes and every edge of `g`. */
  ghost predicate KeepsGraph(g: Graph<EdgeData>, r: Graph<EdgeData>)
  {
    r.nodes == g.nodes && WellFormed(r) &&
    forall e :: e in g.edges ==> e in r.edges && r.edges[e] == g.edges[e]
  }

  /** Every edge the repair adds is a repair edge from a `RepairPick` to the exterior. */
  ghost predicate AddsPicks(g: Graph<EdgeData>, props: map<string, SpaceRecord>, r: Graph<EdgeData>)
  {
    forall e :: e in r.edges && e !in g.edges ==>
      r.edges[e] == RepairData && exists l :: e == {l, Exterior} && RepairPick(g, props, l)
  }

  /** Repair edges start only in the first `k` components. */
  ghost predicate PicksWithin(g: Graph<EdgeData>, r: Graph<EdgeData>, comps: seq<set<string>>, k: nat)
  {
    forall l :: NewRepair(g, r, l) ==> exists j :: 0 <= j < k && j < |comps| && l in comps[j]
  }

  /** At most one repair edge per component. */
  ghost predicate OnePerComponent(g: Graph<EdgeData>, r: Graph<EdgeData>, comps: seq<set<string>>)
  {
    forall j, l, l' :: 0 <= j < |comps| && l in comps[j] && l' in comps[j] && NewRepair(g, r, l) && NewRepair(g, r, l') ==> l == l'
  }

  /** Every cut-off component among the first `k` with a positive volume and no empty ID has an edge to the exterior. */
  ghost predicate TiedBelow(props: map<string, SpaceRecord>, comps: seq<set<string>>, k: nat, r: Graph<EdgeData>)
  {
    forall j :: 0 <= j < k && j < |comps| && Exterior !in comps[j] && "" !in comps[j] && HasVolume(comps[j], props) ==>
      exists l :: l in comps[j] && {l, Exterior} in r.edges
  }

  /** What the repair loop has done after the first `k` components. */
  ghost predicate RepairSoFar(g: Graph<EdgeData>, props: map<string, SpaceRecord>, comps: seq<set<string>>, k: nat, r: Graph<EdgeData>)
  {
    KeepsGraph(g, r) && AddsPicks(g, props, r) && PicksWithin(g, r, comps, k) &&
    OnePerComponent(g, r, comps) && TiedBelow(props, comps, k, r)
  }

  lemma RepairStart(g: Graph<EdgeData>, props: map<string, SpaceRecord>, comps: seq<set<string>>)
    requires WellFormed(g)
    ensures RepairSoFar(g, props, comps, 0, g)
  {
  }

  /** A component the loop leaves alone. */
  lemma RepairSkip(g: Graph<EdgeData>, props: map<string, SpaceRecord>, comps: seq<set<string>>, k: nat, r: Graph<EdgeData>)
    requires k < |comps| && RepairSoFar(g, props, comps, k, r)
    requires Exterior in comps[k] || "" in comps[k] || !HasVolume(comps[k], props)
    ensures RepairSoFar(g, props, comps, k + 1, r)
  {
    assert PicksWithin(g, r, comps, k + 1);
  }

  /** The space the loop ties to the exterior for the cut-off component `k`. */
  ghost predicate LargestOf(g: Graph<EdgeData>, props: map<string, SpaceRecord>, comps: seq<set<string>>, k: nat, l: string)
  {
    k < |comps| && IsComponent(g, comps[k]) && Exterior !in comps[k] &&
    l in comps[k] && l != "" && l in props && props[l].volume > 0.0 &&
    forall n :: n in comps[k] && n in props ==> props[n].volume <= props[l].volume
  }

  lemma LargestIsPick(g: Graph<EdgeData>, props: map<string, SpaceRecord>, comps: seq<set<string>>, k: nat, l: string)
    requires WellFormed(g) && LargestOf(g, props, comps, k, l)
    ensures RepairPick(g, props, l)
    ensures {l, Exterior} !in g.edges
  {
    assert l in g.nodes by { ReachEndsAreNodes(g, l, l); }
    if {l, Exterior} in g.edges {
      ReachSelf(g, l);
      ReachStep(g, l, l, Exterior);
    }
  }

  /** Adding the edge for component `k` keeps the graph and adds a pick. */
  lemma RepairAddKeeps(g: Graph<EdgeData>, props: map<string, SpaceRecord>, comps: seq<set<string>>, k: nat, r: Graph<EdgeData>, l: string)
    requires WellFormed(g) && Exterior in g.nodes && LargestOf(g, props, comps, k, l)
    requires KeepsGraph(g, r) && AddsPicks(g, props, r)
    ensures KeepsGraph(g, AddEdge(r, l, Exterior, RepairData))
    ensures AddsPicks(g, props, AddEdge(r, l, Exterior, RepairData))
  {
    LargestIsPick(g, props, comps, k, l);
    var r' := AddEdge(r, l, Exterior, RepairData);
    assert l in g.nodes;
    assert NodeSet(r') == NodeSet(r) by {
      assert l in NodeSet(r) && Exterior in NodeSet(r);
    }
    assert r'.nodes == g.nodes;
  }

  /** The only new repair edge after the step for component `k` is the one from `l`. */
  lemma RepairAddNew(g: Graph<EdgeData>, props: map<string, SpaceRecord>, comps: seq<set<string>>, k: nat, r: Graph<EdgeData>, l: string, l1: string)
    requires WellFormed(g) && LargestOf(g, props, comps, k, l)
    requires NewRepair(g, AddEdge(r, l, Exterior, RepairData), l1)
    ensures l1 == l || NewRepair(g, r, l1)
  {
    LargestIsPick(g, props, comps, k, l);
  }

  lemma RepairAddWithin(g: Graph<EdgeData>, props: map<string, SpaceRecord>, comps: seq<set<string>>, k: nat, r: Graph<EdgeData>, l: string)
    requires WellFormed(g) && LargestOf(g, props, comps, k, l) && PicksWithin(g, r, comps, k)
    ensures PicksWithin(g, AddEdge(r, l, Exterior, RepairData), comps, k + 1)
  {
    var r' := AddEdge(r, l, Exterior, RepairData);
    forall l1 | NewRepair(g, r', l1)
      ensures exists j :: 0 <= j < k + 1 && j < |comps| && l1 in comps[j]
    {
      RepairAddNew(g, props, comps, k, r, l, l1);
      if l1 != l {
        assert NewRepair(g, r, l1);
      }
    }
  }

  lemma RepairAddUnique(g: Graph<EdgeData>, props: map<string, SpaceRecord>, comps: seq<set<string>>, k: nat, r: Graph<EdgeData>, l: string)
    requires WellFormed(g) && Partition(g, comps) && LargestOf(g, props, comps, k, l)
    requires PicksWithin(g, r, comps, k) && OnePerComponent(g, r, comps)
    ensures OnePerComponent(g, AddEdge(r, l, Exterior, RepairData), comps)
  {
    var r' := AddEdge(r, l, Exterior, RepairData);
    OlderPicksElsewhere(g, comps, k, r);
    forall j, l1, l2 | 0 <= j < |comps| && l1 in comps[j] && l2 in comps[j] && NewRepair(g, r', l1) && NewRepair(g, r', l2)
      ensures l1 == l2
    {
      RepairAddNew(g, props, comps, k, r, l, l1);
      RepairAddNew(g, props, comps, k, r, l, l2);
      if l1 == l || l2 == l {
        RepairSameComponent(comps, j, k, l);
      }
    }
  }

  /** An earlier pick never lies in the component now being repaired. */
  lemma OlderPicksElsewhere(g: Graph<EdgeData>, comps: seq<set<string>>, k: nat, r: Graph<EdgeData>)
    requires Partition(g, comps) && PicksWithin(g, r, comps, k) && k < |comps|
    ensures forall l2 :: NewRepair(g, r, l2) ==> l2 !in comps[k]
  {
    forall l2 | NewRepair(g, r, l2)
      ensures l2 !in comps[k]
    {
      var j' :| 0 <= j' < k && j' < |comps| && l2 in comps[j'];
      assert comps[j'] !! comps[k];
    }
  }

  /** The loop ties the space `l` of the cut-off component `k` to the exterior. */
  lemma RepairAdd(g: Graph<EdgeData>, props: map<string, SpaceRecord>, comps: seq<set<string>>, k: nat, r: Graph<EdgeData>, l: string)
    requires WellFormed(g) && Exterior in g.nodes && Partition(g, comps) && RepairSoFar(g, props, comps, k, r)
    requires LargestOf(g, props, comps, k, l)
    ensures RepairSoFar(g, props, comps, k + 1, AddEdge(r, l, Exterior, RepairData))
  {
    RepairAddKeeps(g, props, comps, k, r, l);
    RepairAddWithin(g, props, comps, k, r, l);
    RepairAddUnique(g, props, comps, k, r, l);
    RepairAddTied(g, props, comps, k, r, l);
  }

  /** After the step for component `k`, components up to `k` are tied to the exterior. */
  lemma RepairAddTied(g: Graph<EdgeData>, props: map<string, SpaceRecord>, comps: seq<set<string>>, k: nat, r: Graph<EdgeData>, l: string)
    requires WellFormed(g) && TiedBelow(props, comps, k, r) && LargestOf(g, props, comps, k, l)
    ensures TiedBelow(props, comps, k + 1, AddEdge(r, l, Exterior, RepairData))
  {
    var r' := AddEdge(r, l, Exterior, RepairData);
    assert forall e :: e in r.edges ==> e in r'.edges;
    assert {l, Exterior} in r'.edges;
  }

  /** Components that share a node are the same component. */
  lemma RepairSameComponent(comps: seq<set<string>>, j: nat, j': nat, v: string)
    requires forall a, b :: 0 <= a < b < |comps| ==> comps[a] !! comps[b]
    requires j < |comps| && j' < |comps| && v in comps[j] && v in comps[j']
    ensures j == j'
  {
  }

  /** A node lies in one component only. */
  lemma OnlyComponentOf(comps: seq<set<string>>, x: nat, v: string)
    requires forall a, b :: 0 <= a < b < |comps| ==> comps[a] !! comps[b]
    requires x < |comps| && v in comps[x]
    ensures forall k :: 0 <= k < |comps| && v in comps[k] ==> k == x
  {
    forall k | 0 <= k < |comps| && v in comps[k]
      ensures k == x
    {
      RepairSameComponent(comps, k, x, v);
    }
  }

  /** Once every component has been visited, the graph is `Repaired`. */
  lemma RepairDone(g: Graph<EdgeData>, props: map<string, SpaceRecord>, comps: seq<set<string>>, r: Graph<EdgeData>)
    requires WellFormed(g) && Partition(g, comps) && RepairSoFar(g, props, comps, |comps|, r)
    ensures Repaired(g, props, r)
  {
    forall l, l' | NewRepair(g, r, l) && NewRepair(g, r, l') && Reach(g, l, l')
      ensures l == l'
    {
      var j :| 0 <= j < |comps| && l in comps[j];
      assert IsComponent(g, comps[j]);
    }
    forall v | v in g.nodes && !Reach(g, v, Exterior) && !Reach(g, v, "") && ReachesVolume(g, props, v)
      ensures exists l :: Reach(g, v, l) && {l, Exterior} in r.edges
    {
      var j := ComponentOf(g, comps, v);
      assert IsComponent(g, comps[j]);
      var n :| Reach(g, v, n) && n in props && props[n].volume > 0.0;
      assert n in comps[j];
      assert HasVolume(comps[j], props);
      var l :| l in comps[j] && {l, Exterior} in r.edges;
      assert Reach(g, v, l);
    }
  }

  /** With a single component, which holds the exterior, nothing is cut off. */
  lemma SingleComponentRepaired(g: Graph<EdgeData>, props: map<string, SpaceRecord>, comps: seq<set<string>>)
    requires WellFormed(g) && Exterior in g.nodes && Partition(g, comps) && |comps| <= 1
    ensures Repaired(g, props, g)
  {
    forall v | v in g.nodes
      ensures Reach(g, v, Exterior)
    {
      var j := ComponentOf(g, comps, v);
      var x := ComponentOf(g, comps, Exterior);
      assert IsComponent(g, comps[j]);
    }
  }

  /** One turn of the repair loop: component `k`, unless it holds the exterior, is tied to the exterior by its largest space. */
  method RepairComponent(g: Graph<EdgeData>, props: map<string, SpaceRecord>, comps: seq<set<string>>, x: nat, k: nat,
                         r: Graph<EdgeData>) returns (r': Graph<EdgeData>)
    requires WellFormed(g) && Exterior in g.nodes && Partition(g, comps)
    requires x < |comps| && Exterior in comps[x] && forall j :: 0 <= j < |comps| && Exterior in comps[j] ==> j == x
    requires k < |comps| && RepairSoFar(g, props, comps, k, r)
    ensures RepairSoFar(g, props, comps, k + 1, r')
  {
    r' := r;
    if comps[k] != comps[x] {
      var largest := LargestSpace(comps[k], props);
      if largest.Some? && largest.value != "" {
        assert IsComponent(g, comps[k]);
        RepairAdd(g, props, comps, k, r, largest.value);
        r' := AddEdge(r, largest.value, Exterior, RepairData);
      } else {
        RepairSkip(g, props, comps, k, r);
      }
    } else {
      RepairSkip(g, props, comps, k, r);
    }
  }

  /**
   * The repair loop of `_validate_topology` over the components (taken as
   * given, from `nx.connected_components`): when there is more than one, every
   * component other than the exterior's ties its largest space to the exterior.
   */
  method RepairEdges(g: Graph<EdgeData>, props: map<string, SpaceRecord>, comps: seq<set<string>>) returns (r: Graph<EdgeData>)
    requires WellFormed(g) && Exterior in g.nodes && Partition(g, comps)
    ensures WellFormed(r) && Repaired(g, props, r)
  {
    r := g;
    if |comps| > 1 {
      var x := 0;
      var xe := ComponentOf(g, comps, Exterior);
      while x < |comps| && Exterior !in comps[x]
        invariant x <= xe
      {
        x := x + 1;
      }
      OnlyComponentOf(comps, x, Exterior);
      RepairStart(g, props, comps);
      var k := 0;
      while k < |comps|
        invariant k <= |comps| && RepairSoFar(g, props, comps, k, r)
      {
        r := RepairComponent(g, props, comps, x, k, r);
        k := k + 1;
      }
      RepairDone(g, props, comps, r);
    } else {
      SingleComponentRepaired(g, props, comps);
    }
  }

  /** After the repair, every space whose component holds a positive volume (and no empty ID) reaches the exterior. */
  lemma RepairedReachesExterior(g: Graph<EdgeData>, props: map<string, SpaceRecord>, r: Graph<EdgeData>, v: string)
    requires Repaired(g, props, r) && v in g.nodes
    requires !Reach(g, v, "") && ReachesVolume(g, props, v)
    ensures Reach(r, v, Exterior)
  {
    if Reach(g, v, Exterior) {
      ReachMonotone(g, r, v, Exterior);
    } else {
      var l :| Reach(g, v, l) && {l, Exterior} in r.edges;
      ReachMonotone(g, r, v, l);
      ReachStep(r, v, l, Exterior);
    }
  }

  /** A repair edge never joins two spaces: it always ends at the exterior, away from the exterior's component. */
  lemma RepairEdgesTouchExterior(g: Graph<EdgeData>, props: map<string, SpaceRecord>, r: Graph<EdgeData>, e: set<string>)
    requires Repaired(g, props, r) && e in r.edges && e !in g.edges
    ensures Exterior in e && r.edges[e].isRepair
    ensures exists l :: l in e && l != Exterior && !Reach(g, l, Exterior)
  {
  }

  // ---------------------------------------------------------------------------
  // Queries

  /** A node outside `ext` that reaches none of the nodes of `ext`. */
  ghost predicate CutOff(g: Graph<EdgeData>, ext: set<string>, v: string)
  {
    v !in ext && forall x :: x in ext ==> !Reach(g, v, x)
  }

  /** The nodes of `ns` that are cut off, in order. */
  ghost function CutOffNodes(g: Graph<EdgeData>, ext: set<string>, ns: seq<string>): (r: seq<string>)
    ensures forall v :: v in r <==> v in ns && CutOff(g, ext, v)
  {
    if ns == [] then []
    else
      var init := CutOffNodes(g, ext, ns[..|ns| - 1]);
      assert forall v :: v in ns <==> v in ns[..|ns| - 1] || v == ns[|ns| - 1];
      if CutOff(g, ext, ns[|ns| - 1]) then init + [ns[|ns| - 1]] else init
  }

  /** The inner loop of `_find_isolated_spaces`: whether `node` has a path to some exterior node, stopping at the first. */
  method ReachesAny(g: Graph<EdgeData>, node: string, ext: set<string>) returns (canReach: bool)
    requires WellFormed(g) && node in g.nodes && forall x :: x in ext ==> x in g.nodes
    ensures canReach <==> exists x :: x in ext && Reach(g, node, x)
  {
    canReach := false;
    var rest := ext;
    while rest != {} && !canReach
      invariant rest <= ext
      invariant canReach ==> exists x :: x in ext && Reach(g, node, x)
      invariant !canReach ==> forall x :: x in ext - rest ==> !Reach(g, node, x)
      decreases |rest|
    {
      var x :| x in rest;
      canReach := HasPath(g, node, x);
      rest := rest - {x};
    }
  }

  /** `_find_isolated_spaces`: the nodes, in order, with no path to an exterior node. */
  method FindIsolatedSpaces(g: Graph<EdgeData>, ext: set<string>) returns (isolated: seq<string>)
    requires WellFormed(g) && forall x :: x in ext ==> x in g.nodes
    ensures isolated == CutOffNodes(g, ext, g.nodes)
  {
    isolated := [];
    var i := 0;
    while i < |g.nodes|
      invariant i <= |g.nodes|
      invariant isolated == CutOffNodes(g, ext, g.nodes[..i])
    {
      var node := g.nodes[i];
      assert g.nodes[..i + 1][..i] == g.nodes[..i];
      if node !in ext {
        var canReach := ReachesAny(g, node, ext);
        if !canReach {
          isolated := isolated + [node];
        }
      }
      i := i + 1;
    }
    assert g.nodes[..i] == g.nodes;
  }

  /** A node left isolated after the repair had, before it, no positive volume in reach (or an empty ID). */
  lemma IsolatedHaveNoVolume(g: Graph<EdgeData>, props: map<string, SpaceRecord>, r: Graph<EdgeData>, v: string)
    requires Repaired(g, props, r) && v in CutOffNodes(r, {Exterior}, r.nodes)
    ensures Reach(g, v, "") || !ReachesVolume(g, props, v)
  {
    if !Reach(g, v, "") && ReachesVolume(g, props, v) {
      RepairedReachesExterior(g, props, r, v);
    }
  }

  /** A route whose consecutive nodes are joined by edges. */
  predicate OnEdges(g: Graph<EdgeData>, route: seq<string>)
  {
    forall j :: 0 <= j < |route| - 1 ==> {route[j], route[j + 1]} in g.edges
  }

  /** The weights of the edges along a route. */
  function EdgeWeights(g: Graph<EdgeData>, route: seq<string>): (r: seq<real>)
    requires OnEdges(g, route)
    ensures |r| == if |route| == 0 then 0 else |route| - 1
  {
    seq(if |route| == 0 then 0 else |route| - 1, j requires 0 <= j < |route| - 1 => g.edges[{route[j], route[j + 1]}].weight)
  }

  /** The openings of the edges along a route, edge by edge. */
  function RouteOpenings(g: Graph<EdgeData>, route: seq<string>): seq<string>
    requires OnEdges(g, route)
    decreases |route|
  {
    if |route| < 2 then []
    else RouteOpenings(g, route[..|route| - 1]) + g.edges[{route[|route| - 2], route[|route| - 1]}].openings
  }

  /** The path record `find_path_to_exterior` builds. */
  datatype ExteriorPath = ExteriorPath(route: seq<string>, via: seq<string>, weight: real, length: int, exterior: string)

  /** The record of one route: its openings, its total weight and its number of edges. */
  method RouteRecord(g: Graph<EdgeData>, route: seq<string>, exterior: string) returns (p: ExteriorPath)
    requires OnEdges(g, route) && |route| > 0
    ensures p.route == route && p.exterior == exterior && p.length == |route| - 1
    ensures p.weight == Sum(EdgeWeights(g, route)) && p.via == RouteOpenings(g, route)
  {
    var total := 0.0;
    var openings: seq<string> := [];
    var j := 0;
    while j < |route| - 1
      invariant 0 <= j <= |route| - 1
      invariant OnEdges(g, route[..j + 1])
      invariant total == Sum(EdgeWeights(g, route[..j + 1]))
      invariant openings == RouteOpenings(g, route[..j + 1])
    {
      var d := g.edges[{route[j], route[j + 1]}];
      RouteStep(g, route, j);
      total := total + d.weight;
      openings := openings + d.openings;
      j := j + 1;
    }
    assert route[..j + 1] == route;
    p := ExteriorPath(route, openings, total, |route| - 1, exterior);
  }

  /** One more edge of a route adds its weight and its openings. */
  lemma RouteStep(g: Graph<EdgeData>, route: seq<string>, j: nat)
    requires OnEdges(g, route) && j < |route| - 1
    ensures OnEdges(g, route[..j + 1]) && OnEdges(g, route[..j + 2])
    ensures var d := g.edges[{route[j], route[j + 1]}];
      Sum(EdgeWeights(g, route[..j + 2])) == Sum(EdgeWeights(g, route[..j + 1])) + d.weight &&
      RouteOpenings(g, route[..j + 2]) == RouteOpenings(g, route[..j + 1]) + d.openings
  {
    RouteWeightStep(g, route, j);
    RouteOpeningsStep(g, route, j);
  }

  /** The prefixes of a route run on edges too, and the longer extends the shorter by one node. */
  lemma RoutePrefixes(g: Graph<EdgeData>, route: seq<string>, j: nat)
    requires OnEdges(g, route) && j < |route| - 1
    ensures OnEdges(g, route[..j + 1]) && OnEdges(g, route[..j + 2])
    ensures route[..j + 2][..j + 1] == route[..j + 1]
    ensures route[..j + 2][j] == route[j] && route[..j + 2][j + 1] == route[j + 1]
  {
  }

  lemma RouteWeightStep(g: Graph<EdgeData>, route: seq<string>, j: nat)
    requires OnEdges(g, route) && j < |route| - 1
    ensures OnEdges(g, route[..j + 1]) && OnEdges(g, route[..j + 2])
    ensures Sum(EdgeWeights(g, route[..j + 2])) ==
      Sum(EdgeWeights(g, route[..j + 1])) + g.edges[{route[j], route[j + 1]}].weight
  {
    RoutePrefixes(g, route, j);
    var a, b := route[..j + 1], route[..j + 2];
    var w := g.edges[{route[j], route[j + 1]}].weight;
    assert EdgeWeights(g, b) == EdgeWeights(g, a) + [w];
    SumAppend(EdgeWeights(g, a), [w]);
  }

  lemma RouteOpeningsStep(g: Graph<EdgeData>, route: seq<string>, j: nat)
    requires OnEdges(g, route) && j < |route| - 1
    ensures OnEdges(g, route[..j + 1]) && OnEdges(g, route[..j + 2])
    ensures RouteOpenings(g, route[..j + 2]) ==
      RouteOpenings(g, route[..j + 1]) + g.edges[{route[j], route[j + 1]}].openings
  {
    RoutePrefixes(g, route, j);
  }

  /** The length of `s[:stop]` for a list of length `n`, with Python's reading of a negative stop. */
  function SliceLength(n: nat, stop: int): (k: nat)
    ensures k <= n
    ensures stop >= 0 ==> k == Min(n, stop)
    ensures stop < 0 ==> k == if n + stop < 0 then 0 else n + stop
  {
    if stop >= 0 then (if stop < n then stop else n)
    else if n + stop < 0 then 0 else n + stop
  }

  function Min(a: int, b: int): int { if a <= b then a else b }

  /** The weight a path record is sorted by. */
  function PathWeight(p: ExteriorPath): real { p.weight }

  /**
   * `find_path_to_exterior` for the one exterior node: nothing for an unknown
   * space or one with no path out; otherwise a record for each of the first
   * `max_paths` shortest routes (given, as `all_shortest_paths` lists them),
   * sorted by ascending weight.
   */
  method FindPathToExterior(g: Graph<EdgeData>, spaceId: string, maxPaths: int, routes: seq<seq<string>>) returns (paths: seq<ExteriorPath>)
    requires WellFormed(g) && Exterior in g.nodes
    requires forall i :: 0 <= i < |routes| ==> OnEdges(g, routes[i]) && |routes[i]| > 0 && routes[i][0] == spaceId && routes[i][|routes[i]| - 1] == Exterior
    ensures spaceId !in g.nodes || !Reach(g, spaceId, Exterior) ==> paths == []
    ensures spaceId in g.nodes && Reach(g, spaceId, Exterior) ==> ListsRoutes(paths, routes, SliceLength(|routes|, maxPaths))
    ensures SortedBy(paths, PathWeight)
    ensures forall i :: 0 <= i < |paths| ==> PathFacts(g, paths[i])
  {
    paths := [];
    if spaceId !in g.nodes {
      return;
    }
    var reach := HasPath(g, spaceId, Exterior);
    if !reach {
      return;
    }
    var n := SliceLength(|routes|, maxPaths);
    var found := RouteRecords(g, routes, n);
    paths := SortBy(found, PathWeight);
    SortedPathsKeep(g, found, paths, routes, n);
  }

  /** The records of the first `n` routes, in order. */
  method RouteRecords(g: Graph<EdgeData>, routes: seq<seq<string>>, n: nat) returns (found: seq<ExteriorPath>)
    requires n <= |routes| && forall i :: 0 <= i < |routes| ==> OnEdges(g, routes[i]) && |routes[i]| > 0
    ensures |found| == n && forall k :: 0 <= k < n ==> found[k].route == routes[k] && PathFacts(g, found[k])
  {
    found := [];
    var i := 0;
    while i < n
      invariant i <= n && |found| == i
      invariant forall k :: 0 <= k < i ==> found[k].route == routes[k] && PathFacts(g, found[k])
    {
      var p := RouteRecord(g, routes[i], Exterior);
      found := found + [p];
      i := i + 1;
    }
  }

  /**
   * What `find_path_to_exterior` records of a route: it ends at the exterior,
   * its length is its number of edges, its weight the sum of their weights,
   * and its openings theirs, edge by edge.
   */
  ghost predicate PathFacts(g: Graph<EdgeData>, p: ExteriorPath)
  {
    p.exterior == Exterior && p.length == |p.route| - 1 &&
    OnEdges(g, p.route) && p.weight == Sum(EdgeWeights(g, p.route)) && p.via == RouteOpenings(g, p.route)
  }

  /** Sorting the records keeps their routes and what is known of each. */
  /** The paths are the records of exactly the first `n` routes, one each. */
  ghost predicate ListsRoutes(paths: seq<ExteriorPath>, routes: seq<seq<string>>, n: nat)
    requires n <= |routes|
  {
    |paths| == n &&
    (forall i :: 0 <= i < |paths| ==> paths[i].route in routes[..n]) &&
    (forall i :: 0 <= i < n ==> exists j :: 0 <= j < |paths| && paths[j].route == routes[i])
  }

  lemma SortedPathsKeep(g: Graph<EdgeData>, found: seq<ExteriorPath>, paths: seq<ExteriorPath>, routes: seq<seq<string>>, n: nat)
    requires n <= |routes| && |found| == n && multiset(paths) == multiset(found)
    requires forall k :: 0 <= k < n ==> found[k].route == routes[k] && PathFacts(g, found[k])
    ensures ListsRoutes(paths, routes, n)
    ensures forall i :: 0 <= i < |paths| ==> PathFacts(g, paths[i])
  {
    assert |paths| == |multiset(paths)| == |multiset(found)| == n;
    forall i | 0 <= i < |paths|
      ensures paths[i].route in routes[..n] && PathFacts(g, paths[i])
    {
      assert paths[i] in multiset(found);
      var k :| 0 <= k < n && found[k] == paths[i];
      assert routes[..n][k] == routes[k];
    }
    forall i | 0 <= i < n
      ensures exists j :: 0 <= j < |paths| && paths[j].route == routes[i]
    {
      assert found[i] in multiset(paths);
      var j :| 0 <= j < |paths| && paths[j] == found[i];
    }
  }

  /** The non-exterior nodes, in order. */
  function NonExterior(nodes: seq<string>, ext: set<string>): (r: seq<string>)
    ensures forall v :: v in r <==> v in nodes && v !in ext
  {
    if nodes == [] then []
    else
      var init := NonExterior(nodes[..|nodes| - 1], ext);
      var v := nodes[|nodes| - 1];
      assert forall u :: u in nodes <==> u in nodes[..|nodes| - 1] || u == v;
      if v in ext then init else init + [v]
  }

  /** A node's `centrality_score`, 0 when it has none. */
  function ScoreOf(scores: map<string, real>, v: string): real
  {
    if v in scores then scores[v] else 0.0
  }

  /** `find_important_spaces`: at most five non-exterior nodes, by descending score (ties in node order). */
  function ImportantSpaces(nodes: seq<string>, ext: set<string>, scores: map<string, real>): (r: seq<string>)
    ensures |r| <= 5
    ensures forall i, j :: 0 <= i < j < |r| ==> ScoreOf(scores, r[i]) >= ScoreOf(scores, r[j])
  {
    TakeFirst(SortByDescending(NonExterior(nodes, ext), v => ScoreOf(scores, v)), 5)
  }

  /**
   * The important spaces are non-exterior nodes, every one of them when there
   * are fewer than five, and no node left out scores higher than one chosen.
   */
  lemma ImportantAreTop(nodes: seq<string>, ext: set<string>, scores: map<string, real>)
    ensures var r := ImportantSpaces(nodes, ext, scores);
      (forall v :: v in r ==> v in nodes && v !in ext) &&
      (forall v, u :: v in nodes && v !in ext && v !in r && u in r ==> ScoreOf(scores, v) <= ScoreOf(scores, u)) &&
      (|r| < 5 ==> forall v :: v in nodes && v !in ext ==> v in r)
  {
    var key := v => ScoreOf(scores, v);
    var cands := NonExterior(nodes, ext);
    var sorted := SortByDescending(cands, key);
    var r := TakeFirst(sorted, 5);
    assert r == ImportantSpaces(nodes, ext, scores);
    assert forall v :: v in r ==> v in multiset(sorted);
    assert forall v :: v in cands ==> v in multiset(sorted);
    forall v | v in nodes && v !in ext
      ensures v in r || forall u :: u in r ==> ScoreOf(scores, v) <= ScoreOf(scores, u)
    {
      TopRanked(cands, key, 5, v);
    }
  }

  /**
   * `identify_critical_connections`: at most ten edges, in the order the edge
   * list gives them, by descending edge betweenness (given); no edge left out
   * has a higher betweenness than one chosen.
   */
  function CriticalConnections(edges: seq<set<string>>, betweenness: set<string> -> real): (r: seq<set<string>>)
    ensures |r| <= 10 && |r| == Min(10, |edges|)
    ensures forall e :: e in r ==> e in edges
    ensures forall i, j :: 0 <= i < j < |r| ==> betweenness(r[i]) >= betweenness(r[j])
    ensures forall e, f :: e in edges && e !in r && f in r ==> betweenness(e) <= betweenness(f)
  {
    var sorted := SortByDescending(edges, betweenness);
    var r := TakeFirst(sorted, 10);
    assert forall e :: e in r ==> e in multiset(sorted);
    forall e | e in edges
      ensures e in r || forall f :: f in r ==> betweenness(e) <= betweenness(f)
    {
      TopRanked(edges, betweenness, 10, e);
    }
    r
  }

  /** How many of the openings are closed. */
  function ClosedCount(openings: seq<string>, states: map<string, string>): nat
  {
    if openings == [] then 0
    else ClosedCount(openings[..|openings| - 1], states) + (if IsClosed(states, openings[|openings| - 1]) then 1 else 0)
  }

  predicate IsClosed(states: map<string, string>, id: string)
  {
    id in states && states[id] == "closed"
  }

  /** An edge of the status graph: its weight multiplied by 10 once per closed opening. */
  function Reweighted(d: EdgeData, states: map<string, string>): EdgeData
  {
    d.(weight := d.weight * Pow(10.0, ClosedCount(d.openings, states)))
  }

  /** The weight of one edge after the inner loop of `get_opening_status_graph`. */
  method ClosedWeight(d: EdgeData, states: map<string, string>) returns (w: real)
    ensures w == d.weight * Pow(10.0, ClosedCount(d.openings, states))
  {
    w := d.weight;
    var j := 0;
    while j < |d.openings|
      invariant j <= |d.openings|
      invariant w == d.weight * Pow(10.0, ClosedCount(d.openings[..j], states))
    {
      assert d.openings[..j + 1][..j] == d.openings[..j];
      var c := ClosedCount(d.openings[..j], states);
      if IsClosed(states, d.openings[j]) {
        assert Pow(10.0, c + 1) == 10.0 * Pow(10.0, c);
        w := w * 10.0;
      }
      j := j + 1;
    }
    assert d.openings[..j] == d.openings;
  }

  /**
   * `get_opening_status_graph`: a copy of the graph with every edge reweighted
   * for its closed openings and nothing else changed; the graph it copies is
   * a value, so it stays as it was.
   */
  method OpeningStatusGraph(g: Graph<EdgeData>, states: map<string, string>) returns (s: Graph<EdgeData>)
    ensures s.nodes == g.nodes && s.edges.Keys == g.edges.Keys
    ensures forall e :: e in g.edges ==> s.edges[e] == Reweighted(g.edges[e], states)
  {
    s := g;
    var rest := g.edges.Keys;
    while rest != {}
      invariant rest <= g.edges.Keys && StatusSoFar(g, states, rest, s)
      decreases |rest|
    {
      var e :| e in rest;
      var w := ClosedWeight(g.edges[e], states);
      StatusStep(g, states, rest, s, e, w);
      s := Graph(s.nodes, s.edges[e := g.edges[e].(weight := w)]);
      rest := rest - {e};
    }
  }

  /** The status graph with the edges outside `rest` reweighted. */
  ghost predicate StatusSoFar(g: Graph<EdgeData>, states: map<string, string>, rest: set<set<string>>, s: Graph<EdgeData>)
  {
    s.nodes == g.nodes && s.edges.Keys == g.edges.Keys &&
    (forall e :: e in g.edges && e !in rest ==> s.edges[e] == Reweighted(g.edges[e], states)) &&
    (forall e :: e in rest && e in g.edges ==> s.edges[e] == g.edges[e])
  }

  lemma StatusStep(g: Graph<EdgeData>, states: map<string, string>, rest: set<set<string>>, s: Graph<EdgeData>, e: set<string>, w: real)
    requires rest <= g.edges.Keys && StatusSoFar(g, states, rest, s) && e in rest
    requires w == g.edges[e].weight * Pow(10.0, ClosedCount(g.edges[e].openings, states))
    ensures StatusSoFar(g, states, rest - {e}, Graph(s.nodes, s.edges[e := g.edges[e].(weight := w)]))
  {
    var s' := Graph(s.nodes, s.edges[e := g.edges[e].(weight := w)]);
    assert s'.edges.Keys == s.edges.Keys;
    assert s'.edges[e] == Reweighted(g.edges[e], states);
  }

  /** With no closed opening the status graph is the graph itself. */
  lemma StatusAllOpen(g: Graph<EdgeData>, states: map<string, string>, s: Graph<EdgeData>)
    requires forall id :: id in states ==> states[id] != "closed"
    requires s.nodes == g.nodes && s.edges.Keys == g.edges.Keys
    requires forall e :: e in g.edges ==> s.edges[e] == Reweighted(g.edges[e], states)
    ensures s == g
  {
    forall e | e in g.edges
      ensures s.edges[e] == g.edges[e]
    {
      NoneClosed(g.edges[e].openings, states);
    }
  }

  lemma {:induction false} NoneClosed(openings: seq<string>, states: map<string, string>)
    requires forall id :: id in states ==> states[id] != "closed"
    ensures ClosedCount(openings, states) == 0
    decreases |openings|
  {
    if openings != [] {
      NoneClosed(openings[..|openings| - 1], states);
    }
  }

  /** Closing openings never lowers a positive weight. */
  lemma {:induction false} ReweightedNotLower(d: EdgeData, states: map<string, string>)
    requires d.weight > 0.0
    ensures Reweighted(d, states).weight >= d.weight
  {
    PowAtLeastOne(ClosedCount(d.openings, states));
  }

  lemma {:induction false} PowAtLeastOne(n: nat)
    ensures Pow(10.0, n) >= 1.0
    decreases n
  {
    if n > 0 {
      PowAtLeastOne(n - 1);
    }
  }

  // ---------------------------------------------------------------------------
  // The builder

  /** An opening as the edge loop sees it, after a one-sided one is completed. */
  function CompletedView(v: OpeningView): OpeningView
  {
    v.(connects := Completed(v.connects))
  }

  function CompletedViews(vs: seq<OpeningView>): (r: seq<OpeningView>)
    ensures |r| == |vs| && forall k :: 0 <= k < |vs| ==> r[k] == CompletedView(vs[k])
  {
    seq(|vs|, k requires 0 <= k < |vs| => CompletedView(vs[k]))
  }

  /** The graph `build_topology` has before the repair: the spaces, the exterior and the edges of the completed openings. */
  function Unrepaired(spaces: seq<SpaceRecord>, vs: seq<OpeningView>): (g: Graph<EdgeData>)
    ensures WellFormed(g) && Exterior in g.nodes
  {
    AddOpenings(BaseGraph(spaces), CompletedViews(vs))
  }

  lemma AddOpeningsStep(g: Graph<EdgeData>, vs: seq<OpeningView>, i: nat)
    requires i < |vs|
    ensures AddOpenings(g, CompletedViews(vs[..i + 1])) == AddOpening(AddOpenings(g, CompletedViews(vs[..i])), CompletedView(vs[i]))
  {
    var c := CompletedViews(vs[..i + 1]);
    assert c[..|c| - 1] == CompletedViews(vs[..i]);
  }

  lemma ScoresStep(g: Graph<EdgeData>, betweenness: string -> real, closeness: string -> real, k: nat)
    requires k < |g.nodes|
    ensures (map v | v in g.nodes[..k + 1] :: Score(g, betweenness, closeness, v)) ==
            (map v | v in g.nodes[..k] :: Score(g, betweenness, closeness, v))[g.nodes[k] := Score(g, betweenness, closeness, g.nodes[k])]
  {
    assert forall v :: v in g.nodes[..k + 1] <==> v in g.nodes[..k] || v == g.nodes[k];
  }

  /** The space nodes and records of the first loop of `build_topology`. */
  method AddSpaces(spaces: seq<SpaceRecord>, props: map<string, SpaceRecord>) returns (g: Graph<EdgeData>, props': map<string, SpaceRecord>)
    ensures g == SpaceNodes(Graph([], map[]), spaces) && props' == Remember(props, spaces)
  {
    g := Graph([], map[]);
    props' := props;
    var i := 0;
    while i < |spaces|
      invariant i <= |spaces|
      invariant g == SpaceNodes(Graph([], map[]), spaces[..i]) && props' == Remember(props, spaces[..i])
    {
      assert spaces[..i + 1][..i] == spaces[..i];
      g := AddNode(g, spaces[i].id);
      props' := props'[spaces[i].id := spaces[i]];
      i := i + 1;
    }
    assert spaces[..i] == spaces;
  }

  /** The scores of `_calculate_topology_properties`, node by node. */
  method NodeScores(g: Graph<EdgeData>, betweenness: string -> real, closeness: string -> real) returns (scores: map<string, real>)
    requires |g.nodes| > 0
    ensures scores == Scores(g, betweenness, closeness)
  {
    scores := map[];
    var k := 0;
    while k < |g.nodes|
      invariant k <= |g.nodes|
      invariant scores == map v | v in g.nodes[..k] :: Score(g, betweenness, closeness, v)
    {
      ScoresStep(g, betweenness, closeness, k);
      scores := scores[g.nodes[k] := Score(g, betweenness, closeness, g.nodes[k])];
      k := k + 1;
    }
    assert g.nodes[..k] == g.nodes;
  }

  /**
   * How far the edge loop has got: the openings before position `i` have
   * their `connects` completed, the others are as they were (`views`), and
   * the entries the loop reads are unchanged.
   */
  ghost predicate CompletedBefore(openings: seq<Opening>, views: seq<OpeningView>, i: nat)
    reads set o | o in openings
  {
    |views| == |openings| && i <= |openings| &&
    forall k :: 0 <= k < |openings| ==>
      openings[k].id == views[k].id && openings[k].kind == views[k].kind && openings[k].area == views[k].area &&
      openings[k].connects == if openings[k] in openings[..i] then Completed(views[k].connects) else views[k].connects
  }

  /** The loop body's update of the `i`-th opening, and the view the edge step then reads. */
  method CompleteAt(openings: seq<Opening>, ghost views: seq<OpeningView>, i: nat) returns (v: OpeningView)
    requires i < |openings| && CompletedBefore(openings, views, i)
    modifies {openings[i]}`connects
    ensures CompletedBefore(openings, views, i + 1)
    ensures OnlyConnectsChanged(openings[i])
    ensures v == View(openings[i]) && v == CompletedView(views[i])
  {
    var o := openings[i];
    CompletedIdempotent(views[i].connects);
    assert openings[..i + 1] == openings[..i] + [o];
    CompleteOpening(o);
    v := View(o);
  }

  /**
   * The edge loop of `build_topology`: every one-sided opening gets the
   * exterior appended to its own `connects` list, and every opening that then
   * joins two nodes adds to its edge.
   */
  method AddOpeningEdges(base: Graph<EdgeData>, openings: seq<Opening>) returns (g: Graph<EdgeData>)
    modifies (set o | o in openings)`connects
    ensures g == AddOpenings(base, CompletedViews(old(Views(openings))))
    ensures forall o :: o in openings ==> o.connects == Completed(old(o.connects)) && OnlyConnectsChanged(o)
  {
    ghost var views := Views(openings);
    g := base;
    var i := 0;
    while i < |openings|
      invariant CompletedBefore(openings, views, i)
      invariant g == AddOpenings(base, CompletedViews(views[..i]))
      invariant forall o :: o in openings ==> OnlyConnectsChanged(o)
    {
      var v := CompleteAt(openings, views, i);
      AddOpeningsStep(base, views, i);
      g := AddOpening(g, v);
      i := i + 1;
    }
    assert views[..i] == views;
    assert openings[..i] == openings;
  }

  /** The nodes and edges `build_topology` adds before scoring: spaces, the exterior, then the openings. */
  method BuildGraph(spaces: seq<SpaceRecord>, props: map<string, SpaceRecord>, openings: seq<Opening>)
    returns (g: Graph<EdgeData>, props': map<string, SpaceRecord>)
    modifies (set o | o in openings)`connects
    ensures g == Unrepaired(spaces, old(Views(openings))) && props' == Remember(props, spaces)
    ensures forall o :: o in openings ==> o.connects == Completed(old(o.connects)) && OnlyConnectsChanged(o)
  {
    g, props' := AddSpaces(spaces, props);
    g := AddNode(g, Exterior);
    assert g == BaseGraph(spaces);
    g := AddOpeningEdges(g, openings);
  }

  /** A one-sided opening is taken to lead to the exterior, on its own `connects` list. */
  method CompleteOpening(o: Opening)
    modifies o`connects
    ensures o.connects == Completed(old(o.connects)) && OnlyConnectsChanged(o)
  {
    if |o.connects| == 1 {
      o.connects := o.connects + [Exterior];
    }
  }

  /** `TopologyBuilder`: the graph it builds and what it keeps beside it. */
  class TopologyBuilder {
    /** `space_graph`, absent until `build_topology` runs. */
    var graph: Option<Graph<EdgeData>>
    var exteriorNodes: set<string>
    /** `space_properties`, which each build adds to. */
    var spaceProperties: map<string, SpaceRecord>
    /** The `centrality_score` attribute of each node. */
    var scores: map<string, real>

    ghost predicate Valid()
      reads this
    {
      exteriorNodes <= {Exterior} &&
      (graph.Some? ==> WellFormed(graph.value) && Exterior in graph.value.nodes && exteriorNodes == {Exterior})
    }

    constructor ()
      ensures Valid() && graph == None && exteriorNodes == {} && spaceProperties == map[] && scores == map[]
    {
      graph := None;
      exteriorNodes := {};
      spaceProperties := map[];
      scores := map[];
    }

    /**
     * `build_topology` with the centrality measures given: the graph of the
     * spaces, the exterior and the openings (each one-sided opening completed
     * in place), scored before the repair with the corrected score and then
     * repaired; the result is the list of isolated spaces. Where the written
     * score would raise, `build_topology` raises and this model carries on.
     */
    method BuildTopology(spaces: seq<SpaceRecord>, openings: seq<Opening>, betweenness: string -> real, closeness: string -> real)
      returns (isolated: seq<string>)
      requires Valid()
      modifies this, (set o | o in openings)`connects
      ensures Valid() && graph.Some? && exteriorNodes == {Exterior}
      ensures spaceProperties == Remember(old(spaceProperties), spaces)
      ensures forall o :: o in openings ==> o.connects == Completed(old(o.connects)) && OnlyConnectsChanged(o)
      ensures scores == Scores(Unrepaired(spaces, old(Views(openings))), betweenness, closeness)
      ensures Repaired(Unrepaired(spaces, old(Views(openings))), spaceProperties, graph.value)
      ensures isolated == CutOffNodes(graph.value, exteriorNodes, graph.value.nodes)
    {
      var g, props := BuildGraph(spaces, spaceProperties, openings);
      isolated := Install(g, props, betweenness, closeness);
    }

    /** The rest of `build_topology` once the graph is built: store, score (corrected), repair, report. */
    method Install(g: Graph<EdgeData>, props: map<string, SpaceRecord>, betweenness: string -> real,
                   closeness: string -> real)
      returns (isolated: seq<string>)
      requires Valid() && WellFormed(g) && Exterior in g.nodes
      modifies this
      ensures Valid() && graph.Some? && exteriorNodes == {Exterior} && spaceProperties == props
      ensures scores == Scores(g, betweenness, closeness)
      ensures Repaired(g, spaceProperties, graph.value)
      ensures isolated == CutOffNodes(graph.value, exteriorNodes, graph.value.nodes)
    {
      spaceProperties := props;
      exteriorNodes := exteriorNodes + {Exterior};
      graph := Some(g);
      CalculateTopologyProperties(betweenness, closeness);
      ValidateTopology();
      isolated := FindIsolatedSpaces(graph.value, exteriorNodes);
    }

    /**
     * `_calculate_topology_properties`, corrected: the score of every node,
     * nothing else changed. Where the written score raises (a zero maximum),
     * this one scores that measure 0; elsewhere the two agree.
     */
    method CalculateTopologyProperties(betweenness: string -> real, closeness: string -> real)
      requires Valid() && graph.Some?
      modifies this
      ensures graph == old(graph) && exteriorNodes == old(exteriorNodes) && spaceProperties == old(spaceProperties)
      ensures scores == Scores(graph.value, betweenness, closeness)
      ensures ScoresAsWritten(graph.value, betweenness, closeness).Ok? ==>
        scores == ScoresAsWritten(graph.value, betweenness, closeness).value
    {
      scores := NodeScores(graph.value, betweenness, closeness);
    }

    /** `_validate_topology`: the repair, over the components of the graph. */
    method ValidateTopology()
      requires Valid() && graph.Some?
      modifies this
      ensures Valid() && graph.Some?
      ensures exteriorNodes == old(exteriorNodes) && spaceProperties == old(spaceProperties) && scores == old(scores)
      ensures Repaired(old(graph.value), spaceProperties, graph.value)
    {
      var comps := ConnectedComponents(graph.value);
      var r := RepairEdges(graph.value, spaceProperties, comps);
      graph := Some(r);
    }
  }
}
