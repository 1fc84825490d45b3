/**
 * The air-change rates of `ach_calculator.py`: the ventilation paths of each
 * space to the exterior, the rate a space gets from its paths, the smoothing
 * of neighbouring rates, the share of each path, the effect of closed
 * openings and the category of a rate.
 *
 * The simple paths networkx enumerates are given (`routesTo`), and so is the
 * factor `total_opening_area ** opening_influence` (`areaFactor`), a power
 * with a real exponent.
 */
module Ventilation {
  import opened Wrappers
  import opened Numbers
  import opened Sorting
  import opened Strings
  import opened Graphs
  import Topology

  type SpaceGraph = Graph<Topology.EdgeData>

  /** The `ventilation` entries the calculator reads from the configuration. */
  datatype Params = Params(highAch: real, mediumAchRange: (real, real), lowAchRange: (real, real), pathDecay: real)

  /** An entry of a path's `openings` list. */
  datatype OpeningInfo = OpeningInfo(id: string, kind: string, estimatedArea: real)

  /** The path record `_find_ventilation_paths` builds. */
  datatype VentilationPath = VentilationPath(
    route: seq<string>,
    via: seq<string>,
    openings: seq<OpeningInfo>,
    weight: real,
    length: int,
    decayFactor: real,
    totalOpeningArea: real,
    exterior: string)

  /** `max_paths`: routes kept per exterior node. */
  const MaxPaths: nat := 5
  /** The `cutoff` of `all_simple_paths`: edges per route at most. */
  const Cutoff: nat := 6

  // ---------------------------------------------------------------------------
  // One path

  /** The type recorded for every opening of an edge: its first type other than `repair`, else `unknown`. */
  function OpeningType(types: seq<string>): (t: string)
    ensures (forall i :: 0 <= i < |types| ==> types[i] == "repair") ==> t == "unknown"
    ensures (exists i :: 0 <= i < |types| && types[i] != "repair") ==>
      exists k :: 0 <= k < |types| && types[k] == t && t != "repair" && forall j :: 0 <= j < k ==> types[j] == "repair"
  {
    if types == [] then "unknown"
    else if types[0] != "repair" then types[0]
    else
      assert forall i :: 1 <= i < |types| ==> types[i] == types[1..][i - 1];
      OpeningType(types[1..])
  }

  /** The area estimated for an opening from its edge's weight: the inverse of a positive weight, else 1. */
  function EstimatedArea(weight: real): (a: real)
    ensures a > 0.0
    ensures weight > 0.0 ==> a * weight == 1.0
    ensures weight <= 0.0 ==> a == 1.0
  {
    if weight > 0.0 then 1.0 / weight else 1.0
  }

  /** One entry per opening of an edge, in order. */
  function EdgeInfos(d: Topology.EdgeData): (r: seq<OpeningInfo>)
    ensures |r| == |d.openings|
    ensures forall i :: 0 <= i < |r| ==>
      r[i] == OpeningInfo(d.openings[i], OpeningType(d.openingTypes), EstimatedArea(d.weight))
  {
    seq(|d.openings|, i requires 0 <= i < |d.openings| => OpeningInfo(d.openings[i], OpeningType(d.openingTypes), EstimatedArea(d.weight)))
  }

  /** The entries for the openings of every edge along a route, edge by edge. */
  function RouteInfos(g: SpaceGraph, route: seq<string>): seq<OpeningInfo>
    requires Topology.OnEdges(g, route)
    decreases |route|
  {
    if |route| < 2 then []
    else RouteInfos(g, route[..|route| - 1]) + EdgeInfos(g.edges[{route[|route| - 2], route[|route| - 1]}])
  }

  function InfoIds(infos: seq<OpeningInfo>): (r: seq<string>)
    ensures |r| == |infos| && forall i :: 0 <= i < |infos| ==> r[i] == infos[i].id
  {
    seq(|infos|, i requires 0 <= i < |infos| => infos[i].id)
  }

  function InfoAreas(infos: seq<OpeningInfo>): (r: seq<real>)
    ensures |r| == |infos| && forall i :: 0 <= i < |infos| ==> r[i] == infos[i].estimatedArea
  {
    seq(|infos|, i requires 0 <= i < |infos| => infos[i].estimatedArea)
  }

  /** The record of one route to exterior node `ext`. */
  function Record(g: SpaceGraph, route: seq<string>, ext: string, decay: real): VentilationPath
    requires Topology.OnEdges(g, route) && |route| >= 2
  {
    var infos := RouteInfos(g, route);
    VentilationPath(route, InfoIds(infos), infos, Sum(Topology.EdgeWeights(g, route)), |route| - 1,
                    Pow(decay, |route| - 2), Sum(InfoAreas(infos)), ext)
  }

  /** The `via` list of a path names the openings of its edges, edge by edge. */
  lemma {:induction false} ViaIsRouteOpenings(g: SpaceGraph, route: seq<string>)
    requires Topology.OnEdges(g, route)
    ensures InfoIds(RouteInfos(g, route)) == Topology.RouteOpenings(g, route)
    decreases |route|
  {
    if |route| >= 2 {
      var init := route[..|route| - 1];
      ViaIsRouteOpenings(g, init);
      var d := g.edges[{route[|route| - 2], route[|route| - 1]}];
      assert InfoIds(RouteInfos(g, init) + EdgeInfos(d)) == InfoIds(RouteInfos(g, init)) + d.openings;
    }
  }

  /** One more edge of a route adds its openings' entries. */
  lemma InfosStep(g: SpaceGraph, route: seq<string>, i: nat)
    requires Topology.OnEdges(g, route) && i < |route| - 1
    ensures Topology.OnEdges(g, route[..i + 1]) && Topology.OnEdges(g, route[..i + 2])
    ensures RouteInfos(g, route[..i + 2]) == RouteInfos(g, route[..i + 1]) + EdgeInfos(g.edges[{route[i], route[i + 1]}])
  {
    assert route[..i + 2][..i + 1] == route[..i + 1];
  }

  lemma AreasAppend(infos: seq<OpeningInfo>, x: OpeningInfo)
    ensures Sum(InfoAreas(infos + [x])) == Sum(InfoAreas(infos)) + x.estimatedArea
  {
    assert InfoAreas(infos + [x]) == InfoAreas(infos) + [x.estimatedArea];
    SumAppend(InfoAreas(infos), [x.estimatedArea]);
    assert Sum([x.estimatedArea]) == Sum([]) + x.estimatedArea;
  }

  /** The inner loop of the path record: one entry per opening of an edge. */
  method AppendEdgeInfos(d: Topology.EdgeData, infos: seq<OpeningInfo>, total: real)
    returns (infos': seq<OpeningInfo>, total': real)
    requires total == Sum(InfoAreas(infos))
    ensures infos' == infos + EdgeInfos(d) && total' == Sum(InfoAreas(infos'))
  {
    var kind := OpeningType(d.openingTypes);
    infos', total' := infos, total;
    var j := 0;
    while j < |d.openings|
      invariant 0 <= j <= |d.openings|
      invariant infos' == infos + EdgeInfos(d)[..j]
      invariant total' == Sum(InfoAreas(infos'))
    {
      var area := EstimatedArea(d.weight);
      AreasAppend(infos', OpeningInfo(d.openings[j], kind, area));
      infos' := infos' + [OpeningInfo(d.openings[j], kind, area)];
      total' := total' + area;
      assert EdgeInfos(d)[..j + 1] == EdgeInfos(d)[..j] + [EdgeInfos(d)[j]];
      j := j + 1;
    }
    assert EdgeInfos(d)[..j] == EdgeInfos(d);
  }

  /** The loop over the edges of one route, and over the openings of each edge. */
  method PathRecord(g: SpaceGraph, route: seq<string>, ext: string, decay: real) returns (p: VentilationPath)
    requires Topology.OnEdges(g, route) && |route| >= 2
    ensures p == Record(g, route, ext, decay)
  {
    var weight := 0.0;
    var infos: seq<OpeningInfo> := [];
    var total := 0.0;
    var i := 0;
    while i < |route| - 1
      invariant 0 <= i <= |route| - 1
      invariant Topology.OnEdges(g, route[..i + 1])
      invariant weight == Sum(Topology.EdgeWeights(g, route[..i + 1]))
      invariant infos == RouteInfos(g, route[..i + 1])
      invariant total == Sum(InfoAreas(infos))
    {
      var d := g.edges[{route[i], route[i + 1]}];
      Topology.RouteStep(g, route, i);
      InfosStep(g, route, i);
      weight := weight + d.weight;
      infos, total := AppendEdgeInfos(d, infos, total);
      i := i + 1;
    }
    assert route[..i + 1] == route;
    var length := |route| - 1;
    p := VentilationPath(route, InfoIds(infos), infos, weight, length, Pow(decay, length - 1), total, ext);
  }

  // ---------------------------------------------------------------------------
  // The paths of a space

  /**
   * What networkx's `all_simple_paths(g, space, ext, cutoff=6)` may list: routes
   * along edges, from the space to `ext`, of one to six edges, no node twice.
   */
  ghost predicate SimpleRoutes(g: SpaceGraph, space: string, ext: string, routes: seq<seq<string>>)
  {
    forall i :: 0 <= i < |routes| ==>
      var r := routes[i];
      2 <= |r| <= Cutoff + 1 && r[0] == space && r[|r| - 1] == ext && Topology.OnEdges(g, r) &&
      forall a, b :: 0 <= a < b < |r| ==> r[a] != r[b]
  }

  /** `nx.has_path` raises for a node the graph does not have. */
  predicate Resolvable(g: SpaceGraph, space: string, exteriors: seq<string>)
  {
    exteriors == [] || (space in g.nodes && forall k :: 0 <= k < |exteriors| ==> exteriors[k] in g.nodes)
  }

  ghost predicate OracleFits(g: SpaceGraph, space: string, exteriors: seq<string>, routesTo: string -> seq<seq<string>>)
  {
    forall k :: 0 <= k < |exteriors| ==> SimpleRoutes(g, space, exteriors[k], routesTo(exteriors[k]))
  }

  function Records(g: SpaceGraph, routes: seq<seq<string>>, ext: string, decay: real): (r: seq<VentilationPath>)
    requires forall i :: 0 <= i < |routes| ==> Topology.OnEdges(g, routes[i]) && |routes[i]| >= 2
    ensures |r| == |routes| && forall i :: 0 <= i < |routes| ==> r[i] == Record(g, routes[i], ext, decay)
  {
    seq(|routes|, i requires 0 <= i < |routes| => Record(g, routes[i], ext, decay))
  }

  /** The records collected before sorting: for each reachable exterior node, its first five routes. */
  ghost function Candidates(g: SpaceGraph, space: string, exteriors: seq<string>,
                            routesTo: string -> seq<seq<string>>, decay: real): seq<VentilationPath>
    requires OracleFits(g, space, exteriors, routesTo)
    decreases |exteriors|
  {
    if exteriors == [] then []
    else
      var init, ext := exteriors[..|exteriors| - 1], exteriors[|exteriors| - 1];
      assert OracleFits(g, space, init, routesTo) by {
        forall k | 0 <= k < |init| ensures SimpleRoutes(g, space, init[k], routesTo(init[k])) {
          assert init[k] == exteriors[k];
        }
      }
      var routes := TakeFirst(routesTo(ext), MaxPaths);
      assert SimpleRoutes(g, space, ext, routesTo(ext));
      Candidates(g, space, init, routesTo, decay) +
      (if Reach(g, space, ext) then Records(g, routes, ext, decay) else [])
  }

  function PathWeight(p: VentilationPath): real { p.weight }

  /**
   * What is recorded of a path to one of `exteriors`: it starts at the space
   * and ends at its exterior node, has one to six edges, its `length` is its
   * number of edges, its weight their summed weight, its decay the decay
   * factor to the power `length - 1`, and its `via` list their openings.
   */
  ghost predicate PathFacts(g: SpaceGraph, space: string, exteriors: seq<string>, decay: real, p: VentilationPath)
  {
    p.exterior in exteriors && |p.route| >= 2 && p.route[0] == space && p.route[|p.route| - 1] == p.exterior &&
    p.length == |p.route| - 1 && 1 <= p.length <= Cutoff &&
    Topology.OnEdges(g, p.route) && p.weight == Sum(Topology.EdgeWeights(g, p.route)) &&
    p.decayFactor == Pow(decay, p.length - 1) && p.via == Topology.RouteOpenings(g, p.route)
  }

  lemma {:induction false} CandidateFacts(g: SpaceGraph, space: string, exteriors: seq<string>,
                                          routesTo: string -> seq<seq<string>>, decay: real)
    requires OracleFits(g, space, exteriors, routesTo)
    ensures forall p :: p in Candidates(g, space, exteriors, routesTo, decay) ==> PathFacts(g, space, exteriors, decay, p)
    decreases |exteriors|
  {
    if exteriors != [] {
      var n := |exteriors| - 1;
      var init, ext := exteriors[..n], exteriors[n];
      OracleFitsPrefix(g, space, exteriors, routesTo, n);
      CandidateFacts(g, space, init, routesTo, decay);
      var tail := TailPathFacts(g, space, exteriors, ext, routesTo, decay);
      assert Candidates(g, space, exteriors, routesTo, decay) == Candidates(g, space, init, routesTo, decay) + tail;
      forall p | p in Candidates(g, space, init, routesTo, decay)
        ensures PathFacts(g, space, exteriors, decay, p)
      {
        var k :| 0 <= k < n && init[k] == p.exterior;
        assert exteriors[k] == p.exterior;
      }
    }
  }

  /** Every record one exterior node contributes describes one of its routes. */
  lemma TailPathFacts(g: SpaceGraph, space: string, exteriors: seq<string>, ext: string,
                      routesTo: string -> seq<seq<string>>, decay: real)
      returns (tail: seq<VentilationPath>)
    requires SimpleRoutes(g, space, ext, routesTo(ext)) && ext in exteriors
    ensures tail == (if Reach(g, space, ext) then Records(g, TakeFirst(routesTo(ext), MaxPaths), ext, decay) else [])
    ensures forall p :: p in tail ==> PathFacts(g, space, exteriors, decay, p)
  {
    var routes := TakeFirst(routesTo(ext), MaxPaths);
    var all := Records(g, routes, ext, decay);
    forall i | 0 <= i < |routes| ensures PathFacts(g, space, exteriors, decay, all[i]) {
      RouteRecordFacts(g, space, exteriors, ext, routesTo(ext), i, decay);
    }
    tail := if Reach(g, space, ext) then all else [];
  }

  lemma RouteRecordFacts(g: SpaceGraph, space: string, exteriors: seq<string>, ext: string,
                         routes: seq<seq<string>>, i: nat, decay: real)
    requires SimpleRoutes(g, space, ext, routes) && ext in exteriors && i < |routes|
    ensures Topology.OnEdges(g, routes[i]) && |routes[i]| >= 2
    ensures PathFacts(g, space, exteriors, decay, Record(g, routes[i], ext, decay))
  {
    ViaIsRouteOpenings(g, routes[i]);
  }

  lemma SortedCandidateFacts(g: SpaceGraph, space: string, exteriors: seq<string>,
                             routesTo: string -> seq<seq<string>>, decay: real)
    requires OracleFits(g, space, exteriors, routesTo)
    ensures forall p :: p in SortBy(Candidates(g, space, exteriors, routesTo, decay), PathWeight) ==>
      PathFacts(g, space, exteriors, decay, p)
  {
    var found := Candidates(g, space, exteriors, routesTo, decay);
    CandidateFacts(g, space, exteriors, routesTo, decay);
    forall p | p in SortBy(found, PathWeight) ensures PathFacts(g, space, exteriors, decay, p) {
      assert p in multiset(SortBy(found, PathWeight));
      assert p in multiset(found);
    }
  }

  /** How many of the paths lead to `ext`. */
  function CountTo(ps: seq<VentilationPath>, ext: string): nat
  {
    if ps == [] then 0 else CountTo(ps[..|ps| - 1], ext) + (if ps[|ps| - 1].exterior == ext then 1 else 0)
  }

  lemma {:induction false} CountToAppend(a: seq<VentilationPath>, b: seq<VentilationPath>, ext: string)
    ensures CountTo(a + b, ext) == CountTo(a, ext) + CountTo(b, ext)
    decreases |b|
  {
    if b == [] {
      assert a + b == a;
    } else {
      assert (a + b)[..|a + b| - 1] == a + b[..|b| - 1];
      assert (a + b)[|a + b| - 1] == b[|b| - 1];
      CountToAppend(a, b[..|b| - 1], ext);
    }
  }

  lemma {:induction false} CountToBound(ps: seq<VentilationPath>, ext: string)
    ensures CountTo(ps, ext) <= |ps|
    ensures (forall p :: p in ps ==> p.exterior != ext) ==> CountTo(ps, ext) == 0
    decreases |ps|
  {
    if ps != [] {
      CountToBound(ps[..|ps| - 1], ext);
    }
  }

  /** An exterior node listed once gets at most five paths. */
  lemma {:induction false} AtMostFivePerExterior(g: SpaceGraph, space: string, exteriors: seq<string>,
                                                 routesTo: string -> seq<seq<string>>, decay: real, ext: string)
    requires OracleFits(g, space, exteriors, routesTo)
    requires forall i, j :: 0 <= i < j < |exteriors| ==> exteriors[i] != exteriors[j]
    ensures CountTo(Candidates(g, space, exteriors, routesTo, decay), ext) <= MaxPaths
    ensures ext !in exteriors ==> CountTo(Candidates(g, space, exteriors, routesTo, decay), ext) == 0
    decreases |exteriors|
  {
    if exteriors != [] {
      var n := |exteriors| - 1;
      var init, last := exteriors[..n], exteriors[n];
      OracleFitsPrefix(g, space, exteriors, routesTo, n);
      AtMostFivePerExterior(g, space, init, routesTo, decay, ext);
      var tail := TailFacts(g, space, last, routesTo, decay, ext);
      assert Candidates(g, space, exteriors, routesTo, decay) == Candidates(g, space, init, routesTo, decay) + tail;
      CountToAppend(Candidates(g, space, init, routesTo, decay), tail, ext);
      if last == ext {
        assert ext !in init;
      }
    }
  }

  /** The records one exterior node contributes: at most five, all to that node. */
  lemma TailFacts(g: SpaceGraph, space: string, last: string, routesTo: string -> seq<seq<string>>, decay: real, ext: string)
      returns (tail: seq<VentilationPath>)
    requires SimpleRoutes(g, space, last, routesTo(last))
    ensures tail == (if Reach(g, space, last) then Records(g, TakeFirst(routesTo(last), MaxPaths), last, decay) else [])
    ensures CountTo(tail, ext) <= MaxPaths
    ensures last != ext ==> CountTo(tail, ext) == 0
  {
    tail := if Reach(g, space, last) then Records(g, TakeFirst(routesTo(last), MaxPaths), last, decay) else [];
    CountToBound(tail, ext);
  }

  lemma OracleFitsPrefix(g: SpaceGraph, space: string, exteriors: seq<string>,
                         routesTo: string -> seq<seq<string>>, n: nat)
    requires n <= |exteriors| && OracleFits(g, space, exteriors, routesTo)
    ensures OracleFits(g, space, exteriors[..n], routesTo)
  {
    forall k | 0 <= k < n ensures SimpleRoutes(g, space, exteriors[..n][k], routesTo(exteriors[..n][k])) {
      assert exteriors[..n][k] == exteriors[k];
    }
  }

  /** Collecting the paths to one more exterior node. */
  lemma CandidatesStep(g: SpaceGraph, space: string, exteriors: seq<string>,
                       routesTo: string -> seq<seq<string>>, decay: real, k: nat)
    requires k < |exteriors| && OracleFits(g, space, exteriors, routesTo)
    requires Resolvable(g, space, exteriors[..k]) && space in g.nodes && exteriors[k] in g.nodes
    ensures OracleFits(g, space, exteriors[..k], routesTo) && OracleFits(g, space, exteriors[..k + 1], routesTo)
    ensures Resolvable(g, space, exteriors[..k + 1])
    ensures SimpleRoutes(g, space, exteriors[k], routesTo(exteriors[k]))
    ensures Candidates(g, space, exteriors[..k + 1], routesTo, decay) ==
      Candidates(g, space, exteriors[..k], routesTo, decay) +
      (if Reach(g, space, exteriors[k]) then Records(g, TakeFirst(routesTo(exteriors[k]), MaxPaths), exteriors[k], decay) else [])
  {
    OracleFitsPrefix(g, space, exteriors, routesTo, k);
    OracleFitsPrefix(g, space, exteriors, routesTo, k + 1);
    assert exteriors[..k + 1][..k] == exteriors[..k];
    assert exteriors[..k + 1][k] == exteriors[k];
  }

  /** The records of the first five routes to one exterior node. */
  method RecordsTo(g: SpaceGraph, space: string, ext: string, routes: seq<seq<string>>, decay: real)
    returns (ps: seq<VentilationPath>)
    requires SimpleRoutes(g, space, ext, routes)
    ensures ps == Records(g, TakeFirst(routes, MaxPaths), ext, decay)
  {
    var first := TakeFirst(routes, MaxPaths);
    assert RecordsFit(g, first) by {
      forall j | 0 <= j < |first| ensures Topology.OnEdges(g, first[j]) && |first[j]| >= 2 {
        assert first[j] == routes[j];
      }
    }
    ps := [];
    var i := 0;
    while i < |first|
      invariant i <= |first|
      invariant ps == Records(g, first[..i], ext, decay)
    {
      var p := PathRecord(g, first[i], ext, decay);
      RecordsSnoc(g, first, ext, decay, i);
      ps := ps + [p];
      i := i + 1;
    }
    assert first[..i] == first;
  }

  predicate RecordsFit(g: SpaceGraph, routes: seq<seq<string>>)
  {
    forall j :: 0 <= j < |routes| ==> Topology.OnEdges(g, routes[j]) && |routes[j]| >= 2
  }

  lemma RecordsSnoc(g: SpaceGraph, routes: seq<seq<string>>, ext: string, decay: real, i: nat)
    requires i < |routes| && RecordsFit(g, routes)
    ensures RecordsFit(g, routes[..i]) && RecordsFit(g, routes[..i + 1])
    ensures Records(g, routes[..i + 1], ext, decay) == Records(g, routes[..i], ext, decay) + [Record(g, routes[i], ext, decay)]
  {
    assert forall j :: 0 <= j < i + 1 ==> routes[..i + 1][j] == routes[j];
    assert forall j :: 0 <= j < i ==> routes[..i][j] == routes[j];
  }

  /**
   * `_find_ventilation_paths`: for each exterior node the space can reach,
   * the records of its first five simple routes, all sorted by ascending
   * weight (the sort is stable); networkx raises for a node the graph lacks.
   */
  method FindVentilationPaths(g: SpaceGraph, space: string, exteriors: seq<string>,
                              routesTo: string -> seq<seq<string>>, decay: real)
    returns (r: Result<seq<VentilationPath>, string>)
    requires WellFormed(g) && OracleFits(g, space, exteriors, routesTo)
    ensures r.Ok? <==> Resolvable(g, space, exteriors)
    ensures r.Ok? ==> r.value == SortBy(Candidates(g, space, exteriors, routesTo, decay), PathWeight)
    ensures r.Ok? ==> SortedBy(r.value, PathWeight)
    ensures r.Ok? ==> forall p :: p in r.value ==> PathFacts(g, space, exteriors, decay, p)
  {
    var found: seq<VentilationPath> := [];
    var k := 0;
    while k < |exteriors|
      invariant k <= |exteriors| && Resolvable(g, space, exteriors[..k])
      invariant OracleFits(g, space, exteriors[..k], routesTo)
      invariant found == Candidates(g, space, exteriors[..k], routesTo, decay)
    {
      var ext := exteriors[k];
      if space !in g.nodes || ext !in g.nodes {
        return Err("NodeNotFound");
      }
      CandidatesStep(g, space, exteriors, routesTo, decay, k);
      var reach := HasPath(g, space, ext);
      if reach {
        var ps := RecordsTo(g, space, ext, routesTo(ext), decay);
        found := found + ps;
      }
      k := k + 1;
    }
    assert exteriors[..k] == exteriors;
    SortedCandidateFacts(g, space, exteriors, routesTo, decay);
    r := Ok(SortBy(found, PathWeight));
  }

  // ---------------------------------------------------------------------------
  // The rate of a space

  /** The base rate of a path by its number of edges. */
  function BaseAch(params: Params, length: int): (a: real)
    ensures length == 1 ==> a == params.highAch
    ensures length == 2 ==> a == (params.mediumAchRange.0 + params.mediumAchRange.1) / 2.0
    ensures length != 1 && length != 2 ==> a == (params.lowAchRange.0 + params.lowAchRange.1) / 2.0
  {
    MeanOfTwo(params.mediumAchRange.0, params.mediumAchRange.1);
    MeanOfTwo(params.lowAchRange.0, params.lowAchRange.1);
    if length == 1 then params.highAch
    else if length == 2 then Mean([params.mediumAchRange.0, params.mediumAchRange.1])
    else Mean([params.lowAchRange.0, params.lowAchRange.1])
  }

  /** What one path contributes: base rate times area factor times decay. */
  function Contribution(params: Params, areaFactor: real -> real, p: VentilationPath): real
  {
    BaseAch(params, p.length) * areaFactor(p.totalOpeningArea) * p.decayFactor
  }

  predicate NonNegativeWeights(paths: seq<VentilationPath>)
  {
    forall i :: 0 <= i < |paths| ==> paths[i].weight >= 0.0
  }

  /** The weight of each path, inverse to its resistance: `1 / (weight + 0.1)`. */
  function InverseWeights(paths: seq<VentilationPath>): (r: seq<real>)
    requires NonNegativeWeights(paths)
    ensures |r| == |paths| && forall i :: 0 <= i < |r| ==> r[i] > 0.0 && r[i] * (paths[i].weight + 0.1) == 1.0
  {
    seq(|paths|, i requires 0 <= i < |paths| => 1.0 / (paths[i].weight + 0.1))
  }

  /** Each weight divided by their total (0 when the total is not positive). */
  function Shares(ws: seq<real>): (r: seq<real>)
    ensures |r| == |ws|
  {
    var t := Sum(ws);
    seq(|ws|, i requires 0 <= i < |ws| => if t > 0.0 then ws[i] / t else 0.0)
  }

  /** Positive weights give shares in (0, 1] that add up to one. */
  lemma SharesSumToOne(ws: seq<real>)
    requires |ws| > 0 && forall i :: 0 <= i < |ws| ==> ws[i] > 0.0
    ensures Sum(Shares(ws)) == 1.0
    ensures forall i :: 0 <= i < |ws| ==> 0.0 < Shares(ws)[i] <= 1.0
  {
    SumPositive(ws);
    SharesTotal(ws);
    forall i | 0 <= i < |ws| ensures 0.0 < Shares(ws)[i] <= 1.0 {
      ShareBounds(ws, i);
    }
  }

  lemma SharesTotal(ws: seq<real>)
    requires Sum(ws) > 0.0
    ensures Sum(Shares(ws)) == 1.0
  {
    var t := Sum(ws);
    var sh := Shares(ws);
    forall i | 0 <= i < |ws| ensures sh[i] == (1.0 / t) * ws[i] {
    }
    SumScale(ws, sh, 1.0 / t);
    assert (1.0 / t) * t == 1.0;
  }

  lemma ShareBounds(ws: seq<real>, i: nat)
    requires i < |ws| && forall j :: 0 <= j < |ws| ==> ws[j] > 0.0
    ensures 0.0 < Shares(ws)[i] <= 1.0
  {
    SumSingleBound(ws, i);
    var t := Sum(ws);
    assert Shares(ws)[i] == ws[i] / t;
    RatioAtMostOne(ws[i], t);
  }

  lemma RatioAtMostOne(a: real, t: real)
    requires 0.0 < a <= t
    ensures 0.0 < a / t <= 1.0
  {
  }

  /** A positive term is at most the sum of positive terms. */
  lemma {:induction false} SumSingleBound(ws: seq<real>, i: nat)
    requires i < |ws| && forall j :: 0 <= j < |ws| ==> ws[j] > 0.0
    ensures ws[i] <= Sum(ws)
    decreases |ws|
  {
    var init := ws[..|ws| - 1];
    if i < |ws| - 1 {
      SumSingleBound(init, i);
      SumNonNegative([ws[|ws| - 1]]);
    } else if init != [] {
      SumNonNegative(init);
    }
  }

  function Products(a: seq<real>, b: seq<real>): (r: seq<real>)
    requires |a| == |b|
    ensures |r| == |a| && forall i :: 0 <= i < |a| ==> r[i] == a[i] * b[i]
  {
    seq(|a|, i requires 0 <= i < |a| => a[i] * b[i])
  }

  function Scaled(ws: seq<real>, c: real): (r: seq<real>)
    ensures |r| == |ws| && forall i :: 0 <= i < |ws| ==> r[i] == c * ws[i]
  {
    seq(|ws|, i requires 0 <= i < |ws| => c * ws[i])
  }

  lemma ScaledBetween(c: real, w: real, lo: real, hi: real)
    requires w >= 0.0 && lo <= c <= hi
    ensures lo * w <= c * w <= hi * w
  {
    assert (c - lo) * w >= 0.0;
    assert (hi - c) * w >= 0.0;
  }

  /** A mean with non-negative weights adding up to one lies between the least and the greatest value. */
  lemma WeightedMeanWithin(cs: seq<real>, sh: seq<real>, lo: real, hi: real)
    requires |cs| == |sh| && Sum(sh) == 1.0
    requires forall i :: 0 <= i < |sh| ==> sh[i] >= 0.0 && lo <= cs[i] <= hi
    ensures lo <= Sum(Products(cs, sh)) <= hi
  {
    WeightedSumAbove(cs, sh, lo);
    WeightedSumBelow(cs, sh, hi);
    assert lo * Sum(sh) == lo && hi * Sum(sh) == hi;
  }

  lemma ProductsPrefix(cs: seq<real>, sh: seq<real>, n: nat)
    requires |cs| == |sh| && n <= |sh|
    ensures Products(cs, sh)[..n] == Products(cs[..n], sh[..n])
  {
    var a, b := Products(cs, sh)[..n], Products(cs[..n], sh[..n]);
    forall i | 0 <= i < n ensures a[i] == b[i] {
      assert cs[..n][i] == cs[i] && sh[..n][i] == sh[i];
    }
  }

  lemma {:induction false} WeightedSumAbove(cs: seq<real>, sh: seq<real>, lo: real)
    requires |cs| == |sh|
    requires forall i :: 0 <= i < |sh| ==> sh[i] >= 0.0 && lo <= cs[i]
    ensures lo * Sum(sh) <= Sum(Products(cs, sh))
    decreases |sh|
  {
    if sh != [] {
      var n, p := |sh| - 1, Products(cs, sh);
      assert Sum(p) == Sum(p[..n]) + p[n];
      assert Sum(sh) == Sum(sh[..n]) + sh[n];
      ProductsPrefix(cs, sh, n);
      WeightedSumAbove(cs[..n], sh[..n], lo);
      ScaledBetween(cs[n], sh[n], lo, cs[n]);
      Distribute(lo, Sum(sh[..n]), sh[n]);
    }
  }

  lemma {:induction false} WeightedSumBelow(cs: seq<real>, sh: seq<real>, hi: real)
    requires |cs| == |sh|
    requires forall i :: 0 <= i < |sh| ==> sh[i] >= 0.0 && cs[i] <= hi
    ensures Sum(Products(cs, sh)) <= hi * Sum(sh)
    decreases |sh|
  {
    if sh != [] {
      var n, p := |sh| - 1, Products(cs, sh);
      assert Sum(p) == Sum(p[..n]) + p[n];
      assert Sum(sh) == Sum(sh[..n]) + sh[n];
      ProductsPrefix(cs, sh, n);
      WeightedSumBelow(cs[..n], sh[..n], hi);
      ScaledBetween(cs[n], sh[n], cs[n], hi);
      Distribute(hi, Sum(sh[..n]), sh[n]);
    }
  }

  lemma Distribute(c: real, a: real, b: real)
    ensures c * (a + b) == c * a + c * b
  {
  }

  function Contributions(params: Params, areaFactor: real -> real, paths: seq<VentilationPath>): (r: seq<real>)
    ensures |r| == |paths| && forall i :: 0 <= i < |paths| ==> r[i] == Contribution(params, areaFactor, paths[i])
  {
    seq(|paths|, i requires 0 <= i < |paths| => Contribution(params, areaFactor, paths[i]))
  }

  /** The weighted mean of the path contributions, before clamping. */
  function WeightedAch(params: Params, areaFactor: real -> real, paths: seq<VentilationPath>): real
    requires NonNegativeWeights(paths)
  {
    Sum(Products(Contributions(params, areaFactor, paths), Shares(InverseWeights(paths))))
  }

  /** `max(lo, min(x, hi))`. */
  function Clamp(lo: real, x: real, hi: real): (r: real)
    ensures r >= lo
    ensures lo <= hi ==> r <= hi
    ensures lo <= x <= hi ==> r == x
  {
    Max2(lo, Min2(x, hi))
  }

  /**
   * `_calculate_space_ach`: the lower end of the low range without paths,
   * otherwise the weighted mean of the path contributions clamped to
   * [`low_ach_range[0]`, `high_ach`].
   */
  function SpaceAch(params: Params, areaFactor: real -> real, paths: seq<VentilationPath>): (a: real)
    requires NonNegativeWeights(paths)
    ensures paths == [] ==> a == params.lowAchRange.0
    ensures a >= params.lowAchRange.0
    ensures params.lowAchRange.0 <= params.highAch ==> a <= params.highAch
  {
    if paths == [] then params.lowAchRange.0
    else Clamp(params.lowAchRange.0, WeightedAch(params, areaFactor, paths), params.highAch)
  }

  /**
   * When every contribution already lies in [`low_ach_range[0]`, `high_ach`],
   * the clamp changes nothing: the rate is the weighted mean itself and lies
   * between the smallest and the largest contribution.
   */
  lemma SpaceAchIsMean(params: Params, areaFactor: real -> real, paths: seq<VentilationPath>, lo: real, hi: real)
    requires paths != [] && NonNegativeWeights(paths)
    requires params.lowAchRange.0 <= lo && hi <= params.highAch
    requires forall i :: 0 <= i < |paths| ==> lo <= Contribution(params, areaFactor, paths[i]) <= hi
    ensures SpaceAch(params, areaFactor, paths) == WeightedAch(params, areaFactor, paths)
    ensures lo <= SpaceAch(params, areaFactor, paths) <= hi
  {
    var ws := InverseWeights(paths);
    SharesSumToOne(ws);
    WeightedMeanWithin(Contributions(params, areaFactor, paths), Shares(ws), lo, hi);
  }

  // ---------------------------------------------------------------------------
  // Smoothing neighbouring rates

  const ExteriorPrefix: string := "space_exterior"

  /** `ach_rates.get(id, 0)`. */
  function RateOf(rates: map<string, real>, id: string): real
  {
    if id in rates then rates[id] else 0.0
  }

  function Abs(x: real): real { if x < 0.0 then -x else x }

  /** One edge of `_validate_ach_rates`. */
  function SmoothPair(rates: map<string, real>, a: string, b: string): map<string, real>
  {
    if StartsWith(a, ExteriorPrefix) || StartsWith(b, ExteriorPrefix) then rates
    else
      var x, y := RateOf(rates, a), RateOf(rates, b);
      if Abs(x - y) > 5.0 then
        var average := (x + y) / 2.0;
        if x > y then rates[a := x - (x - average) * 0.3][b := y + (average - y) * 0.3]
        else rates[a := x + (average - x) * 0.3][b := y - (y - average) * 0.3]
      else rates
  }

  /**
   * An edge touching the exterior, or joining rates at most 5 apart, changes
   * nothing. Otherwise both rates move 30% of the way to their average: the
   * higher falls and the lower rises by the same amount, so their sum is
   * kept and the gap shrinks to 70% of what it was; no other rate changes.
   */
  lemma SmoothPairEffect(rates: map<string, real>, a: string, b: string)
    ensures var r, x, y := SmoothPair(rates, a, b), RateOf(rates, a), RateOf(rates, b);
      (StartsWith(a, ExteriorPrefix) || StartsWith(b, ExteriorPrefix) || Abs(x - y) <= 5.0 ==> r == rates) &&
      (!StartsWith(a, ExteriorPrefix) && !StartsWith(b, ExteriorPrefix) && Abs(x - y) > 5.0 ==>
        a != b && r.Keys == rates.Keys + {a, b} &&
        r[a] == x + ((x + y) / 2.0 - x) * 0.3 && r[b] == y + ((x + y) / 2.0 - y) * 0.3 &&
        r[a] + r[b] == x + y && Abs(r[a] - r[b]) == 0.7 * Abs(x - y) &&
        (x > y ==> r[a] < x && r[b] > y) && (x < y ==> r[a] > x && r[b] < y) &&
        forall k :: k in rates && k != a && k != b ==> r[k] == rates[k])
  {
  }

  /** The edges of `space_graph.edges()`, in order. */
  function SmoothAll(rates: map<string, real>, edges: seq<(string, string)>): map<string, real>
    decreases |edges|
  {
    if edges == [] then rates
    else SmoothPair(SmoothAll(rates, edges[..|edges| - 1]), edges[|edges| - 1].0, edges[|edges| - 1].1)
  }

  /** The rate of an exterior node is never touched, nor is a space that no edge names. */
  lemma {:induction false} SmoothAllKeeps(rates: map<string, real>, edges: seq<(string, string)>, k: string)
    requires StartsWith(k, ExteriorPrefix) || forall i :: 0 <= i < |edges| ==> edges[i].0 != k && edges[i].1 != k
    ensures k in SmoothAll(rates, edges) <==> k in rates
    ensures k in rates ==> SmoothAll(rates, edges)[k] == rates[k]
    decreases |edges|
  {
    if edges != [] {
      SmoothAllKeeps(rates, edges[..|edges| - 1], k);
      var e := edges[|edges| - 1];
      SmoothPairEffect(SmoothAll(rates, edges[..|edges| - 1]), e.0, e.1);
    }
  }

  /** Smoothing only adds the endpoints of edges as keys. */
  lemma {:induction false} SmoothAllKeys(rates: map<string, real>, edges: seq<(string, string)>)
    ensures rates.Keys <= SmoothAll(rates, edges).Keys
    ensures forall k :: k in SmoothAll(rates, edges) ==> k in rates || exists i :: 0 <= i < |edges| && (edges[i].0 == k || edges[i].1 == k)
    decreases |edges|
  {
    if edges != [] {
      var init := edges[..|edges| - 1];
      SmoothAllKeys(rates, init);
      var e := edges[|edges| - 1];
      SmoothPairEffect(SmoothAll(rates, init), e.0, e.1);
      forall k | k in SmoothAll(rates, edges)
        ensures k in rates || exists i :: 0 <= i < |edges| && (edges[i].0 == k || edges[i].1 == k)
      {
        if k in SmoothAll(rates, init) && k !in rates {
          var i :| 0 <= i < |init| && (init[i].0 == k || init[i].1 == k);
          assert edges[i] == init[i];
        }
      }
    }
  }

  // ---------------------------------------------------------------------------
  // Path shares, closed openings and categories

  /** The key of the `i`-th path, counting from 1. */
  function PathKey(i: nat): string
  {
    "path_" + NatToString(i + 1)
  }

  lemma PathKeyInjective(i: nat, j: nat)
    ensures PathKey(i) == PathKey(j) ==> i == j
  {
    PrefixedNatInjective("path_", i + 1, j + 1);
  }

  /** A closed opening on one of the paths. */
  predicate AnyClosed(paths: seq<VentilationPath>, states: map<string, string>)
  {
    exists i, j :: 0 <= i < |paths| && 0 <= j < |paths[i].via| && Topology.IsClosed(states, paths[i].via[j])
  }

  /** The scan of one space's paths in `update_ach_for_opening_state`, stopping at the first closed opening. */
  method PathsAffected(paths: seq<VentilationPath>, states: map<string, string>) returns (affected: bool)
    ensures affected <==> AnyClosed(paths, states)
  {
    affected := false;
    var i := 0;
    while i < |paths|
      invariant i <= |paths|
      invariant !affected ==> forall i', j :: 0 <= i' < i && 0 <= j < |paths[i'].via| ==> !Topology.IsClosed(states, paths[i'].via[j])
      invariant affected ==> AnyClosed(paths, states)
    {
      var j := 0;
      while j < |paths[i].via|
        invariant j <= |paths[i].via|
        invariant !affected ==> forall j' :: 0 <= j' < j ==> !Topology.IsClosed(states, paths[i].via[j'])
        invariant affected ==> AnyClosed(paths, states)
      {
        if paths[i].via[j] in states && states[paths[i].via[j]] == "closed" {
          affected := true;
          break;
        }
        j := j + 1;
      }
      if affected {
        break;
      }
      i := i + 1;
    }
  }

  /** The rates after closing openings: a space with a closed opening on any path at 70%. */
  function ClosedRates(rates: map<string, real>, paths: map<string, seq<VentilationPath>>, states: map<string, string>): map<string, real>
  {
    map k | k in rates :: if k in paths && AnyClosed(paths[k], states) then rates[k] * 0.7 else rates[k]
  }

  /** `get_ach_category`. */
  function AchCategory(params: Params, rate: real): (c: string)
    ensures c == "high" <==> rate >= params.mediumAchRange.1
    ensures c == "medium" <==> params.lowAchRange.1 <= rate < params.mediumAchRange.1
    ensures c == "low" <==> rate < params.lowAchRange.1 && rate < params.mediumAchRange.1
  {
    if rate >= params.mediumAchRange.1 then "high"
    else if rate >= params.lowAchRange.1 then "medium"
    else "low"
  }

  // ---------------------------------------------------------------------------
  // The calculator

  ghost predicate AllFit(g: SpaceGraph, spaces: seq<string>, exteriors: seq<string>,
                         routesTo: string -> string -> seq<seq<string>>)
  {
    forall i :: 0 <= i < |spaces| ==> OracleFits(g, spaces[i], exteriors, routesTo(spaces[i]))
  }

  lemma AllFitPrefix(g: SpaceGraph, spaces: seq<string>, exteriors: seq<string>,
                     routesTo: string -> string -> seq<seq<string>>, n: nat)
    requires n <= |spaces| && AllFit(g, spaces, exteriors, routesTo)
    ensures AllFit(g, spaces[..n], exteriors, routesTo)
  {
    forall j | 0 <= j < n ensures OracleFits(g, spaces[..n][j], exteriors, routesTo(spaces[..n][j])) {
      assert spaces[..n][j] == spaces[j];
    }
  }

  /** The paths of each space, a later space with the same ID replacing an earlier one. */
  ghost function PathTable(g: SpaceGraph, spaces: seq<string>, exteriors: seq<string>,
                           routesTo: string -> string -> seq<seq<string>>, decay: real): map<string, seq<VentilationPath>>
    requires AllFit(g, spaces, exteriors, routesTo)
    decreases |spaces|
  {
    if spaces == [] then map[]
    else
      var s := spaces[|spaces| - 1];
      AllFitPrefix(g, spaces, exteriors, routesTo, |spaces| - 1);
      PathTable(g, spaces[..|spaces| - 1], exteriors, routesTo, decay)[s := SortBy(Candidates(g, s, exteriors, routesTo(s), decay), PathWeight)]
  }

  lemma PathTableStep(g: SpaceGraph, spaces: seq<string>, exteriors: seq<string>,
                      routesTo: string -> string -> seq<seq<string>>, decay: real, i: nat)
    requires i < |spaces| && AllFit(g, spaces, exteriors, routesTo)
    ensures AllFit(g, spaces[..i], exteriors, routesTo) && AllFit(g, spaces[..i + 1], exteriors, routesTo)
    ensures OracleFits(g, spaces[i], exteriors, routesTo(spaces[i]))
    ensures PathTable(g, spaces[..i + 1], exteriors, routesTo, decay) ==
      PathTable(g, spaces[..i], exteriors, routesTo, decay)[spaces[i] := SortBy(Candidates(g, spaces[i], exteriors, routesTo(spaces[i]), decay), PathWeight)]
  {
    AllFitPrefix(g, spaces, exteriors, routesTo, i);
    AllFitPrefix(g, spaces, exteriors, routesTo, i + 1);
    assert spaces[..i + 1][..i] == spaces[..i];
    assert spaces[..i + 1][i] == spaces[i];
  }

  /** The rate of each space from its paths. */
  function RateTable(params: Params, areaFactor: real -> real, table: map<string, seq<VentilationPath>>): map<string, real>
    requires forall k :: k in table ==> NonNegativeWeights(table[k])
  {
    map k | k in table :: SpaceAch(params, areaFactor, table[k])
  }

  lemma RateTableUpdate(params: Params, areaFactor: real -> real, table: map<string, seq<VentilationPath>>,
                        id: string, paths: seq<VentilationPath>)
    requires forall k :: k in table ==> NonNegativeWeights(table[k])
    requires NonNegativeWeights(paths)
    ensures RateTable(params, areaFactor, table[id := paths]) == RateTable(params, areaFactor, table)[id := SpaceAch(params, areaFactor, paths)]
  {
  }

  /** Every edge of the graph weighs something positive, as the topology builder makes them. */
  predicate PositiveWeights(g: SpaceGraph)
  {
    forall e :: e in g.edges ==> g.edges[e].weight > 0.0
  }

  lemma {:induction false} SumEdgeWeightsPositive(g: SpaceGraph, route: seq<string>)
    requires PositiveWeights(g) && Topology.OnEdges(g, route)
    ensures Sum(Topology.EdgeWeights(g, route)) >= 0.0
  {
    var ws := Topology.EdgeWeights(g, route);
    forall i | 0 <= i < |ws| ensures ws[i] >= 0.0 {
      assert {route[i], route[i + 1]} in g.edges;
    }
    SumNonNegative(ws);
  }

  /** The paths of one space, none of which weighs less than nothing. */
  method SpacePaths(g: SpaceGraph, space: string, exteriors: seq<string>,
                    routesTo: string -> seq<seq<string>>, decay: real)
    returns (r: Result<seq<VentilationPath>, string>)
    requires WellFormed(g) && PositiveWeights(g) && OracleFits(g, space, exteriors, routesTo)
    ensures r.Ok? <==> Resolvable(g, space, exteriors)
    ensures r.Ok? ==> r.value == SortBy(Candidates(g, space, exteriors, routesTo, decay), PathWeight)
    ensures r.Ok? ==> NonNegativeWeights(r.value)
  {
    r := FindVentilationPaths(g, space, exteriors, routesTo, decay);
    if r.Ok? {
      var paths := r.value;
      forall j | 0 <= j < |paths| ensures paths[j].weight >= 0.0 {
        assert paths[j] in paths;
        SumEdgeWeightsPositive(g, paths[j].route);
      }
    }
  }

  lemma ResolvableStep(g: SpaceGraph, spaces: seq<string>, exteriors: seq<string>, i: nat)
    requires i < |spaces| && Resolvable(g, spaces[i], exteriors)
    requires forall j :: 0 <= j < i ==> Resolvable(g, spaces[j], exteriors)
    ensures forall j :: 0 <= j < i + 1 ==> Resolvable(g, spaces[j], exteriors)
  {
  }

  /** The loop of `calculate_ach_rates` over the spaces, stopping where networkx raises. */
  method CollectPaths(params: Params, areaFactor: real -> real, spaces: seq<string>, g: SpaceGraph,
                      exteriors: seq<string>, routesTo: string -> string -> seq<seq<string>>)
    returns (table: map<string, seq<VentilationPath>>, rates: map<string, real>, ok: bool)
    requires WellFormed(g) && PositiveWeights(g)
    requires AllFit(g, spaces, exteriors, routesTo)
    ensures forall k :: k in table ==> NonNegativeWeights(table[k])
    ensures table.Keys == rates.Keys && rates == RateTable(params, areaFactor, table)
    ensures ok <==> forall i :: 0 <= i < |spaces| ==> Resolvable(g, spaces[i], exteriors)
    ensures ok ==> table == PathTable(g, spaces, exteriors, routesTo, params.pathDecay)
  {
    table, rates := map[], map[];
    var i := 0;
    while i < |spaces|
      invariant i <= |spaces|
      invariant forall j :: 0 <= j < i ==> Resolvable(g, spaces[j], exteriors)
      invariant forall k :: k in table ==> NonNegativeWeights(table[k])
      invariant table == PathTable(g, spaces[..i], exteriors, routesTo, params.pathDecay)
      invariant rates == RateTable(params, areaFactor, table)
    {
      var id := spaces[i];
      PathTableStep(g, spaces, exteriors, routesTo, params.pathDecay, i);
      var found := SpacePaths(g, id, exteriors, routesTo(id), params.pathDecay);
      if found.Err? {
        return table, rates, false;
      }
      ResolvableStep(g, spaces, exteriors, i);
      RateTableUpdate(params, areaFactor, table, id, found.value);
      table := table[id := found.value];
      rates := rates[id := SpaceAch(params, areaFactor, found.value)];
      i := i + 1;
    }
    assert spaces[..i] == spaces;
    ok := true;
  }

  class AchCalculator {
    const params: Params
    /** `total_opening_area ** opening_influence`. */
    const areaFactor: real -> real
    var achRates: map<string, real>
    var ventilationPaths: map<string, seq<VentilationPath>>

    /** Every space with paths has a rate, and no path weighs less than nothing. */
    ghost predicate Valid()
      reads this
    {
      ventilationPaths.Keys <= achRates.Keys &&
      forall k :: k in ventilationPaths ==> NonNegativeWeights(ventilationPaths[k])
    }

    constructor (params: Params, areaFactor: real -> real)
      ensures Valid() && this.params == params && this.areaFactor == areaFactor
      ensures achRates == map[] && ventilationPaths == map[]
    {
      this.params := params;
      this.areaFactor := areaFactor;
      achRates := map[];
      ventilationPaths := map[];
    }

    /**
     * `calculate_ach_rates`: the paths and the rate of every space, then the
     * smoothing over the graph's edges (`edges` lists each of them once, in
     * `space_graph.edges()` order). A space or exterior ID the graph lacks makes networkx raise,
     * with the spaces before it already recorded.
     */
    method CalculateAchRates(spaces: seq<string>, g: SpaceGraph, exteriors: seq<string>,
                             routesTo: string -> string -> seq<seq<string>>, edges: seq<(string, string)>)
      returns (r: Result<(), string>)
      requires WellFormed(g) && PositiveWeights(g) && ListsEdges(g, edges)
      requires AllFit(g, spaces, exteriors, routesTo)
      modifies this
      ensures Valid()
      ensures r.Ok? <==> forall i :: 0 <= i < |spaces| ==> Resolvable(g, spaces[i], exteriors)
      ensures r.Ok? ==> ventilationPaths == PathTable(g, spaces, exteriors, routesTo, params.pathDecay)
      ensures r.Ok? ==> achRates == SmoothAll(RateTable(params, areaFactor, ventilationPaths), edges)
    {
      var table, rates, ok := CollectPaths(params, areaFactor, spaces, g, exteriors, routesTo);
      achRates, ventilationPaths := rates, table;
      if !ok {
        return Err("NodeNotFound");
      }
      r := Ok(());
      ValidateAchRates(edges);
    }

    /** `_validate_ach_rates`: the smoothing, edge by edge; the paths are untouched. */
    method ValidateAchRates(edges: seq<(string, string)>)
      requires Valid()
      modifies this
      ensures Valid() && ventilationPaths == old(ventilationPaths)
      ensures achRates == SmoothAll(old(achRates), edges)
    {
      var i := 0;
      while i < |edges|
        invariant i <= |edges| && Valid() && ventilationPaths == old(ventilationPaths)
        invariant achRates == SmoothAll(old(achRates), edges[..i])
      {
        assert edges[..i + 1][..i] == edges[..i];
        var (a, b) := edges[i];
        SmoothAllKeys(old(achRates), edges[..i + 1]);
        if !StartsWith(a, ExteriorPrefix) && !StartsWith(b, ExteriorPrefix) {
          var x, y := RateOf(achRates, a), RateOf(achRates, b);
          if Abs(x - y) > 5.0 {
            var average := (x + y) / 2.0;
            if x > y {
              achRates := achRates[a := x - (x - average) * 0.3][b := y + (average - y) * 0.3];
            } else {
              achRates := achRates[a := x + (average - x) * 0.3][b := y - (y - average) * 0.3];
            }
          }
        }
        i := i + 1;
      }
      assert edges[..i] == edges;
    }

    /**
     * `calculate_ventilation_contributions`: nothing for a space without
     * paths; otherwise `path_1` … `path_n`, the share of each path by its
     * inverse resistance.
     */
    method CalculateVentilationContributions(space: string) returns (c: map<string, real>)
      requires Valid()
      ensures space !in ventilationPaths || ventilationPaths[space] == [] ==> c == map[]
      ensures space in ventilationPaths ==>
        var paths := ventilationPaths[space];
        var sh := Shares(InverseWeights(paths));
        (forall key :: key in c <==> exists i :: 0 <= i < |paths| && key == PathKey(i)) &&
        (forall i :: 0 <= i < |paths| ==> c[PathKey(i)] == sh[i])
    {
      var paths := if space in ventilationPaths then ventilationPaths[space] else [];
      c := map[];
      if paths == [] {
        return;
      }
      var weights := InverseWeights(paths);
      var total := Sum(weights);
      var i := 0;
      while i < |paths|
        invariant i <= |paths|
        invariant forall key :: key in c <==> exists j :: 0 <= j < i && key == PathKey(j)
        invariant forall j :: 0 <= j < i ==> c[PathKey(j)] == Shares(weights)[j]
      {
        var share := if total > 0.0 then weights[i] / total else 0.0;
        forall j | 0 <= j < i ensures PathKey(j) != PathKey(i) {
          PathKeyInjective(j, i);
        }
        c := c[PathKey(i) := share];
        i := i + 1;
      }
    }

    /**
     * `update_ach_for_opening_state`: a copy of the rates in which every space
     * with a closed opening on any of its paths is cut to 70%, once; the
     * calculator's own rates stay as they are.
     */
    method UpdateAchForOpeningState(states: map<string, string>) returns (updated: map<string, real>)
      requires Valid()
      ensures updated == ClosedRates(achRates, ventilationPaths, states)
    {
      updated := CutClosed(achRates, ventilationPaths, states);
    }
  }

  /** The loop of `update_ach_for_opening_state`, over a copy of the rates. */
  method CutClosed(rates: map<string, real>, paths: map<string, seq<VentilationPath>>, states: map<string, string>)
    returns (updated: map<string, real>)
    requires paths.Keys <= rates.Keys
    ensures updated == ClosedRates(rates, paths, states)
  {
    ghost var target := ClosedRates(rates, paths, states);
    updated := rates;
    var todo := paths.Keys;
    while todo != {}
      invariant todo <= paths.Keys && updated.Keys == rates.Keys
      invariant forall k :: k in updated ==> updated[k] == if k in todo then rates[k] else target[k]
      decreases |todo|
    {
      var id :| id in todo;
      var affected := PathsAffected(paths[id], states);
      if affected {
        updated := updated[id := updated[id] * 0.7];
      }
      todo := todo - {id};
    }
  }
}
