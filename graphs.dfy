/**
 * Undirected graphs as networkx keeps them: nodes in insertion order and one
 * attribute record per edge, keyed by the unordered pair of its endpoints
 * (`{a}` for a self-loop). Reachability is defined by walks, and computed by
 * breadth-first search where the back end asks networkx for `has_path` or
 * `connected_components`.
 */
module Graphs {
  datatype Graph<A> = Graph(nodes: seq<string>, edges: map<set<string>, A>)

  predicate HasNode<A>(g: Graph<A>, v: string) { v in g.nodes }

  predicate HasEdge<A>(g: Graph<A>, a: string, b: string) { {a, b} in g.edges }

  function NodeSet<A>(g: Graph<A>): set<string> { set v | v in g.nodes }

  predicate DistinctNodes(nodes: seq<string>)
  {
    forall i, j :: 0 <= i < j < |nodes| ==> nodes[i] != nodes[j]
  }

  /**
   * `order` is an iteration of `g.edges()`: each listed pair is an edge of
   * `g`, every edge of `g` is listed, and no edge is listed twice.
   */
  ghost predicate ListsEdges<A>(g: Graph<A>, order: seq<(string, string)>)
  {
    (forall k :: 0 <= k < |order| ==> HasEdge(g, order[k].0, order[k].1)) &&
    (forall e :: e in g.edges ==> exists k :: 0 <= k < |order| && e == {order[k].0, order[k].1}) &&
    (forall j, k :: 0 <= j < k < |order| ==> {order[j].0, order[j].1} != {order[k].0, order[k].1})
  }

  /** Nodes are listed once and every edge joins one or two listed nodes. */
  predicate WellFormed<A>(g: Graph<A>)
  {
    DistinctNodes(g.nodes) &&
    forall e, x :: e in g.edges && x in e ==> x in g.nodes
  }

  /** `g.add_node(v)`: appends `v` unless it is already a node. */
  function AddNode<A>(g: Graph<A>, v: string): (r: Graph<A>)
    ensures r.edges == g.edges
    ensures NodeSet(r) == NodeSet(g) + {v}
    ensures WellFormed(g) ==> WellFormed(r)
  {
    if v in g.nodes then g else Graph(g.nodes + [v], g.edges)
  }

  /** `g.add_edge(a, b, **attrs)` for the attributes `attrs`, adding missing endpoints. */
  function AddEdge<A>(g: Graph<A>, a: string, b: string, attrs: A): (r: Graph<A>)
    ensures r.edges == g.edges[{a, b} := attrs]
    ensures NodeSet(r) == NodeSet(g) + {a, b}
    ensures WellFormed(g) ==> WellFormed(r)
  {
    var g' := AddNode(AddNode(g, a), b);
    Graph(g'.nodes, g'.edges[{a, b} := attrs])
  }

  /** A walk: a non-empty node sequence whose consecutive nodes are joined by edges. */
  predicate IsWalk<A>(g: Graph<A>, p: seq<string>)
  {
    |p| > 0 && p[0] in g.nodes &&
    forall i :: 0 <= i < |p| - 1 ==> HasEdge(g, p[i], p[i + 1])
  }

  /** `nx.has_path(g, u, v)` for nodes `u` and `v`. */
  ghost predicate Reach<A>(g: Graph<A>, u: string, v: string)
  {
    exists p :: IsWalk(g, p) && p[0] == u && p[|p| - 1] == v
  }

  lemma ReachSelf<A>(g: Graph<A>, u: string)
    requires u in g.nodes
    ensures Reach(g, u, u)
  {
    assert IsWalk(g, [u]);
  }

  lemma ReachStep<A>(g: Graph<A>, u: string, v: string, w: string)
    requires Reach(g, u, v) && HasEdge(g, v, w)
    ensures Reach(g, u, w)
  {
    var p :| IsWalk(g, p) && p[0] == u && p[|p| - 1] == v;
    assert IsWalk(g, p + [w]);
  }

  lemma {:induction false} ReachSymmetric<A>(g: Graph<A>, u: string, v: string)
    requires WellFormed(g) && Reach(g, u, v)
    ensures Reach(g, v, u)
  {
    var p :| IsWalk(g, p) && p[0] == u && p[|p| - 1] == v;
    var i := |p| - 1;
    if i > 0 {
      assert HasEdge(g, p[i - 1], p[i]);
      assert v in {p[i - 1], p[i]};
    }
    ReachSelf(g, v);
    while i > 0
      invariant 0 <= i < |p| && Reach(g, v, p[i])
    {
      assert {p[i], p[i - 1]} == {p[i - 1], p[i]};
      ReachStep(g, v, p[i], p[i - 1]);
      i := i - 1;
    }
  }

  lemma {:induction false} ReachTrans<A>(g: Graph<A>, u: string, v: string, w: string)
    requires Reach(g, u, v) && Reach(g, v, w)
    ensures Reach(g, u, w)
  {
    var q :| IsWalk(g, q) && q[0] == v && q[|q| - 1] == w;
    var i := 0;
    while i < |q| - 1
      invariant 0 <= i < |q| && Reach(g, u, q[i])
    {
      ReachStep(g, u, q[i], q[i + 1]);
      i := i + 1;
    }
  }

  lemma ReachEndsAreNodes<A>(g: Graph<A>, u: string, v: string)
    requires WellFormed(g) && Reach(g, u, v)
    ensures u in g.nodes && v in g.nodes
  {
    var p :| IsWalk(g, p) && p[0] == u && p[|p| - 1] == v;
    if |p| > 1 {
      assert HasEdge(g, p[|p| - 2], p[|p| - 1]);
      assert v in {p[|p| - 2], p[|p| - 1]};
    }
  }

  /** The nodes joined to `x` by an edge. */
  function Neighbours<A>(g: Graph<A>, x: string): (r: set<string>)
    ensures forall v :: v in r <==> v in g.nodes && HasEdge(g, x, v)
  {
    set v | v in g.nodes && HasEdge(g, x, v)
  }

  /** A set of nodes closed under edges contains everything reachable from its members. */
  lemma {:induction false} ClosedContainsReach<A>(g: Graph<A>, r: set<string>, u: string, v: string)
    requires WellFormed(g) && u in r
    requires forall x, w :: x in r && w in g.nodes && HasEdge(g, x, w) ==> w in r
    requires Reach(g, u, v)
    ensures v in r
  {
    var p :| IsWalk(g, p) && p[0] == u && p[|p| - 1] == v;
    var i := 0;
    while i < |p| - 1
      invariant 0 <= i < |p| && p[i] in r
    {
      assert HasEdge(g, p[i], p[i + 1]);
      assert p[i + 1] in {p[i], p[i + 1]};
      i := i + 1;
    }
  }

  /** Breadth-first search from `u`: the set of nodes reachable from it. */
  method ReachableFrom<A>(g: Graph<A>, u: string) returns (r: set<string>)
    requires WellFormed(g) && u in g.nodes
    ensures forall v :: v in r <==> Reach(g, u, v)
  {
    ReachSelf(g, u);
    r := {u};
    var todo := {u};
    while todo != {}
      invariant todo <= r <= NodeSet(g) && u in r
      invariant forall v :: v in r ==> Reach(g, u, v)
      invariant forall x, w :: x in r - todo && w in g.nodes && HasEdge(g, x, w) ==> w in r
      decreases NodeSet(g) - r, |todo|
    {
      var x :| x in todo;
      var found := Neighbours(g, x) - r;
      forall w | w in found
        ensures Reach(g, u, w)
      {
        ReachStep(g, u, x, w);
      }
      r := r + found;
      todo := todo - {x} + found;
    }
    forall v | Reach(g, u, v)
      ensures v in r
    {
      ClosedContainsReach(g, r, u, v);
    }
  }

  /** `nx.has_path(g, u, v)` for two nodes of `g`. */
  method HasPath<A>(g: Graph<A>, u: string, v: string) returns (b: bool)
    requires WellFormed(g) && u in g.nodes && v in g.nodes
    ensures b <==> Reach(g, u, v)
  {
    var r := ReachableFrom(g, u);
    b := v in r;
  }

  /** A connected component: non-empty, internally connected and closed under reachability. */
  ghost predicate IsComponent<A>(g: Graph<A>, c: set<string>)
  {
    c != {} &&
    (forall a, b :: a in c && b in c ==> Reach(g, a, b)) &&
    (forall a, b :: a in c && Reach(g, a, b) ==> b in c)
  }

  function Union(cs: seq<set<string>>): set<string>
  {
    if cs == [] then {} else Union(cs[..|cs| - 1]) + cs[|cs| - 1]
  }

  lemma {:induction false} InUnion(cs: seq<set<string>>, v: string)
    ensures v in Union(cs) <==> exists k :: 0 <= k < |cs| && v in cs[k]
    decreases |cs|
  {
    if cs != [] {
      InUnion(cs[..|cs| - 1], v);
      if v in Union(cs[..|cs| - 1]) {
        var k :| 0 <= k < |cs| - 1 && v in cs[..|cs| - 1][k];
        assert v in cs[k];
      }
      if k :| 0 <= k < |cs| - 1 && v in cs[k] {
        assert v in cs[..|cs| - 1][k];
      }
    }
  }

  /** The set reached from a node is its component. */
  lemma ReachSetIsComponent<A>(g: Graph<A>, v: string, c: set<string>)
    requires WellFormed(g) && v in g.nodes
    requires forall w :: w in c <==> Reach(g, v, w)
    ensures IsComponent(g, c) && v in c
  {
    ReachSelf(g, v);
    forall a, b | a in c && b in c
      ensures Reach(g, a, b)
    {
      ReachSymmetric(g, v, a);
      ReachTrans(g, a, v, b);
    }
    forall a, b | a in c && Reach(g, a, b)
      ensures b in c
    {
      ReachTrans(g, v, a, b);
    }
  }

  /** Two components that share a node are one and the same. */
  lemma ComponentsMeet<A>(g: Graph<A>, c: set<string>, d: set<string>, v: string)
    requires IsComponent(g, c) && IsComponent(g, d) && v in d
    requires !(c !! d)
    ensures v in c
  {
    var w :| w in c && w in d;
    assert Reach(g, w, v);
  }

  /**
   * `list(nx.connected_components(g))`: one set per component, found by a search
   * from each node, in node order, not yet covered.
   */
  method ConnectedComponents<A>(g: Graph<A>) returns (comps: seq<set<string>>)
    requires WellFormed(g)
    ensures forall k :: 0 <= k < |comps| ==> IsComponent(g, comps[k])
    ensures forall v :: v in g.nodes ==> v in Union(comps)
    ensures forall k, k' :: 0 <= k < k' < |comps| ==> comps[k] !! comps[k']
    ensures g.nodes == [] ==> comps == []
  {
    comps := [];
    var covered: set<string> := {};
    for i := 0 to |g.nodes|
      invariant covered == Union(comps)
      invariant forall k :: 0 <= k < |comps| ==> IsComponent(g, comps[k]) && comps[k] <= covered
      invariant forall j :: 0 <= j < i ==> g.nodes[j] in covered
      invariant forall k, k' :: 0 <= k < k' < |comps| ==> comps[k] !! comps[k']
    {
      var v := g.nodes[i];
      if v !in covered {
        var c := ReachableFrom(g, v);
        ReachSetIsComponent(g, v, c);
        forall k | 0 <= k < |comps|
          ensures comps[k] !! c
        {
          if !(comps[k] !! c) {
            ComponentsMeet(g, comps[k], c, v);
          }
        }
        comps := comps + [c];
        covered := covered + c;
      }
    }
  }

  /** An edge map without attributes is determined by its keys. */
  lemma UnitMapOfKeys(m: map<set<string>, ()>, keys: set<set<string>>)
    requires m.Keys == keys
    ensures m == map e | e in keys :: ()
  {
    var m' := map e | e in keys :: ();
    forall e | e in m ensures m[e] == m'[e] {
      var u: () := m[e];
      match u { case () => }
    }
  }

  /** More edges between the same nodes keep every path. */
  lemma ReachMonotone<A, B>(g: Graph<A>, h: Graph<B>, u: string, v: string)
    requires g.nodes == h.nodes && forall e :: e in g.edges ==> e in h.edges
    requires Reach(g, u, v)
    ensures Reach(h, u, v)
  {
    var p :| IsWalk(g, p) && p[0] == u && p[|p| - 1] == v;
    assert IsWalk(h, p);
  }

  /** The components found split the nodes: each a component, pairwise disjoint, covering every node. */
  ghost predicate Partition<A>(g: Graph<A>, comps: seq<set<string>>)
  {
    (forall k :: 0 <= k < |comps| ==> IsComponent(g, comps[k])) &&
    (forall v :: v in g.nodes ==> v in Union(comps)) &&
    (forall k, k' :: 0 <= k < k' < |comps| ==> comps[k] !! comps[k'])
  }

  /** The component, among those found, that holds a node. */
  lemma ComponentOf<A>(g: Graph<A>, comps: seq<set<string>>, v: string) returns (k: nat)
    requires Partition(g, comps) && v in g.nodes
    ensures k < |comps| && v in comps[k]
  {
    InUnion(comps, v);
    k :| 0 <= k < |comps| && v in comps[k];
  }
}
