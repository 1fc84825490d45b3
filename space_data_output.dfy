/**
 * The output stage of the analysis (`SpaceDataGenerator`): the per-space
 * records, the opening list with its back-links into the spaces, the
 * normalised ventilation-path contributions, the simplified box geometry
 * used for visualisation, and the consistency check of a finished data set.
 */
module SpaceDataOutput {
  import opened Wrappers
  import opened Numbers
  import opened Strings
  import Ventilation

  type Path = Ventilation.VentilationPath

  /** A coordinate triple such as `bbox_min` or an opening position. */
  datatype Vec3 = Vec3(x: real, y: real, z: real)

  const Origin := Vec3(0.0, 0.0, 0.0)

  /** `d.get(key, default)` for a key whose presence is `o.Some?`. */
  function OrElse<T>(o: Option<T>, default: T): T
  {
    if o.Some? then o.value else default
  }

  // ---------------------------------------------------------------------
  // _process_spaces
  // ---------------------------------------------------------------------

  /** A space dict as the analysis hands it over; an absent key is `None`. */
  datatype SpaceDict = SpaceDict(id: Option<string>, kind: Option<string>, volume: Option<real>,
                                 bboxMin: Option<Vec3>, bboxMax: Option<Vec3>)

  /** `ventilation_paths`: each space ID with its paths, in dict order. */
  type PathTable = seq<(string, seq<Path>)>

  /** `ventilation_paths.get(id, [])`: the paths stored under the first entry for `id`. */
  function PathsOf(table: PathTable, id: string): seq<Path>
  {
    if table == [] then []
    else if table[0].0 == id then table[0].1
    else PathsOf(table[1..], id)
  }

  /** A space without an entry gets no paths; otherwise it gets those of its (first) entry. */
  lemma {:induction false} PathsOfMeaning(table: PathTable, id: string, j: nat)
    requires j <= |table| && forall k :: 0 <= k < j ==> table[k].0 != id
    requires j < |table| ==> table[j].0 == id
    ensures PathsOf(table, id) == if j < |table| then table[j].1 else []
    decreases j
  {
    if j > 0 {
      assert table[0].0 != id;
      assert forall k :: 0 <= k < j - 1 ==> table[1..][k] == table[k + 1];
      PathsOfMeaning(table[1..], id, j - 1);
    }
  }

  datatype PrimaryPath = PrimaryPath(route: seq<string>, via: seq<string>, length: int)

  /** `ventilationInfo`: empty, or the first path and the number of paths. */
  datatype VentilationInfo = NoInfo | Info(primaryPath: PrimaryPath, pathCount: nat)

  /** A standardised space of the output document. */
  datatype ProcessedSpace = ProcessedSpace(
    id: string, kind: string, volume: real, bboxMin: Vec3, bboxMax: Vec3,
    ventilationRate: real, connections: seq<string>, ventilationInfo: VentilationInfo)

  /** `ventilation_info`: empty without paths, otherwise built from the first path and the count. */
  function InfoOf(paths: seq<Path>): (r: VentilationInfo)
    ensures r.NoInfo? <==> paths == []
    ensures r.Info? ==> (r.pathCount == |paths| &&
      r.primaryPath == PrimaryPath(paths[0].route, paths[0].via, paths[0].length))
  {
    if paths == [] then NoInfo
    else Info(PrimaryPath(paths[0].route, paths[0].via, paths[0].length), |paths|)
  }

  /** The record `_process_spaces` builds for one space that has an `id`. */
  function ProcessSpace(s: SpaceDict, rates: map<string, real>, table: PathTable): (r: ProcessedSpace)
    requires s.id.Some?
    ensures r.id == s.id.value && r.connections == []
    ensures r.ventilationRate == (if s.id.value in rates then rates[s.id.value] else 0.0)
    ensures r.ventilationInfo.NoInfo? <==> PathsOf(table, s.id.value) == []
    ensures r.ventilationInfo.Info? ==> (var paths := PathsOf(table, s.id.value);
      r.ventilationInfo.pathCount == |paths| &&
      r.ventilationInfo.primaryPath == PrimaryPath(paths[0].route, paths[0].via, paths[0].length))
    ensures r.kind == OrElse(s.kind, "unknown") && r.volume == OrElse(s.volume, 0.0)
    ensures r.bboxMin == OrElse(s.bboxMin, Origin) && r.bboxMax == OrElse(s.bboxMax, Origin)
  {
    var id := s.id.value;
    ProcessedSpace(id, OrElse(s.kind, "unknown"), OrElse(s.volume, 0.0),
                   OrElse(s.bboxMin, Origin), OrElse(s.bboxMax, Origin),
                   Ventilation.RateOf(rates, id), [], InfoOf(PathsOf(table, id)))
  }

  predicate AllHaveIds(spaces: seq<SpaceDict>)
  {
    forall i :: 0 <= i < |spaces| ==> spaces[i].id.Some?
  }

  /** `_process_spaces`: one record per space, in order; a space without `id` raises `KeyError`. */
  method ProcessSpaces(spaces: seq<SpaceDict>, rates: map<string, real>, table: PathTable)
    returns (r: Result<seq<ProcessedSpace>, string>)
    ensures r.Ok? <==> AllHaveIds(spaces)
    ensures r.Err? ==> r.error == "KeyError"
    ensures r.Ok? ==> (|r.value| == |spaces| &&
      forall i :: 0 <= i < |spaces| ==> r.value[i] == ProcessSpace(spaces[i], rates, table))
  {
    var processed: seq<ProcessedSpace> := [];
    for i := 0 to |spaces|
      invariant |processed| == i && AllHaveIds(spaces[..i])
      invariant forall k :: 0 <= k < i ==> spaces[k].id.Some? && processed[k] == ProcessSpace(spaces[k], rates, table)
    {
      if spaces[i].id.None? {
        return Err("KeyError");
      }
      processed := processed + [ProcessSpace(spaces[i], rates, table)];
    }
    return Ok(processed);
  }

  // ---------------------------------------------------------------------
  // _process_ventilation_paths
  // ---------------------------------------------------------------------

  /** One path of a space in the output, with its normalised share of the airflow. */
  datatype PathShare = PathShare(route: seq<string>, via: seq<string>, contribution: real)

  datatype PathEntry = PathEntry(spaceId: string, paths: seq<PathShare>)

  /** No path has the weight `-0.1`, at which `1 / (weight + 0.1)` raises `ZeroDivisionError`. */
  predicate Divisible(paths: seq<Path>)
  {
    forall i :: 0 <= i < |paths| ==> paths[i].weight + 0.1 != 0.0
  }

  /** The raw contribution of each path, `1 / (weight + 0.1)`. */
  function Inverses(paths: seq<Path>): (r: seq<real>)
    requires Divisible(paths)
    ensures |r| == |paths| && forall i :: 0 <= i < |r| ==> r[i] * (paths[i].weight + 0.1) == 1.0
  {
    seq(|paths|, i requires 0 <= i < |paths| => 1.0 / (paths[i].weight + 0.1))
  }

  /** A space's paths survive normalisation when their raw contributions have a positive total. */
  predicate Kept(paths: seq<Path>)
    requires Divisible(paths)
  {
    Sum(Inverses(paths)) > 0.0
  }

  /** `normalized_contributions`: each raw contribution over the total, or nothing when the total is not positive. */
  function Contributions(paths: seq<Path>): (r: seq<real>)
    requires Divisible(paths)
    ensures |r| == (if Kept(paths) then |paths| else 0)
  {
    var inv := Inverses(paths);
    if Sum(inv) > 0.0 then Ventilation.Shares(inv) else []
  }

  /** `zip(paths, contributions)`, stopping at the shorter list. */
  function Zip(paths: seq<Path>, cs: seq<real>): (r: seq<PathShare>)
    ensures |r| == if |paths| <= |cs| then |paths| else |cs|
  {
    var n := if |paths| <= |cs| then |paths| else |cs|;
    seq(n, k requires 0 <= k < n => PathShare(paths[k].route, paths[k].via, cs[k]))
  }

  /** The entry of one space, omitted when it has no path left. */
  function EntryFor(id: string, paths: seq<Path>): seq<PathEntry>
    requires Divisible(paths)
  {
    var sp := Zip(paths, Contributions(paths));
    if sp == [] then [] else [PathEntry(id, sp)]
  }

  predicate AllDivisible(table: PathTable)
  {
    forall j :: 0 <= j < |table| ==> Divisible(table[j].1)
  }

  function Entries(table: PathTable): seq<PathEntry>
    requires AllDivisible(table)
  {
    if table == [] then []
    else Entries(table[..|table| - 1]) + EntryFor(table[|table| - 1].0, table[|table| - 1].1)
  }

  /** The outcome of `_process_ventilation_paths`. */
  function ProcessedPaths(table: PathTable): Result<seq<PathEntry>, string>
  {
    if AllDivisible(table) then Ok(Entries(table)) else Err("ZeroDivisionError")
  }

  /** Entry `j` of the table is kept and `e` is the entry the output lists for it. */
  predicate ListedAt(table: PathTable, j: int, e: PathEntry)
  {
    0 <= j < |table| && Divisible(table[j].1) && Kept(table[j].1) &&
    e == PathEntry(table[j].0, Zip(table[j].1, Contributions(table[j].1)))
  }

  /** The output lists exactly the table entries whose paths are kept, each with its paths zipped with their shares. */
  lemma {:induction false} EntriesMeaning(table: PathTable)
    requires AllDivisible(table)
    ensures forall e :: e in Entries(table) <==> exists j :: ListedAt(table, j, e)
    decreases |table|
  {
    if table != [] {
      var init := table[..|table| - 1];
      assert AllDivisible(init) by {
        assert forall j :: 0 <= j < |init| ==> init[j] == table[j];
      }
      EntriesMeaning(init);
      forall e | e in Entries(table) ensures exists j :: ListedAt(table, j, e) {
        ListedForward(table, init, e);
      }
      forall e | exists j :: ListedAt(table, j, e) ensures e in Entries(table) {
        var j :| ListedAt(table, j, e);
        ListedBackward(table, init, j, e);
      }
    }
  }

  lemma ListedForward(table: PathTable, init: PathTable, e: PathEntry)
    requires table != [] && init == table[..|table| - 1] && AllDivisible(table) && AllDivisible(init)
    requires e in Entries(table)
    requires forall e :: e in Entries(init) ==> exists j :: ListedAt(init, j, e)
    ensures exists j :: ListedAt(table, j, e)
  {
    var n := |table| - 1;
    if e in Entries(init) {
      var j :| ListedAt(init, j, e);
      assert init[j] == table[j];
      assert ListedAt(table, j, e);
    } else {
      assert ListedAt(table, n, e);
    }
  }

  lemma ListedBackward(table: PathTable, init: PathTable, j: int, e: PathEntry)
    requires table != [] && init == table[..|table| - 1] && AllDivisible(table) && AllDivisible(init)
    requires ListedAt(table, j, e)
    requires forall e :: (exists j :: ListedAt(init, j, e)) ==> e in Entries(init)
    ensures e in Entries(table)
  {
    var n := |table| - 1;
    if j < n {
      assert init[j] == table[j];
      assert ListedAt(init, j, e);
    } else {
      assert EntryFor(table[n].0, table[n].1) == [e];
    }
  }

  /** A space is listed exactly when some entry of it has raw contributions with a positive total. */
  lemma EntriesListKept(table: PathTable, id: string)
    requires AllDivisible(table)
    ensures (exists e :: e in Entries(table) && e.spaceId == id) <==>
            (exists j :: 0 <= j < |table| && table[j].0 == id && Kept(table[j].1))
  {
    EntriesMeaning(table);
    if j :| 0 <= j < |table| && table[j].0 == id && Kept(table[j].1) {
      assert ListedAt(table, j, PathEntry(table[j].0, Zip(table[j].1, Contributions(table[j].1))));
    }
  }

  /** An empty path list is never kept, so a space without paths is omitted. */
  lemma EmptyNotKept(paths: seq<Path>)
    requires paths == []
    ensures Divisible(paths) && !Kept(paths)
  {
    assert Inverses(paths) == [];
  }

  /** Every listed path keeps its route and via, in the order of the input, with its normalised share. */
  lemma EntryPathsInOrder(table: PathTable, e: PathEntry)
    requires AllDivisible(table) && e in Entries(table)
    ensures exists j :: (0 <= j < |table| && table[j].0 == e.spaceId && Kept(table[j].1) &&
      |e.paths| == |table[j].1| > 0 &&
      forall k :: 0 <= k < |e.paths| ==> (e.paths[k].route == table[j].1[k].route &&
        e.paths[k].via == table[j].1[k].via && e.paths[k].contribution == Contributions(table[j].1)[k]))
  {
    EntriesMeaning(table);
    var j :| ListedAt(table, j, e);
    assert table[j].1 != [];
  }

  /** When every weight exceeds -0.1 and there is a path, the contributions lie in (0, 1] and add up to one. */
  lemma ContributionsSumToOne(paths: seq<Path>)
    requires |paths| > 0 && forall i :: 0 <= i < |paths| ==> paths[i].weight + 0.1 > 0.0
    ensures Divisible(paths) && Kept(paths) && |Contributions(paths)| == |paths|
    ensures Sum(Contributions(paths)) == 1.0
    ensures forall i :: 0 <= i < |paths| ==> 0.0 < Contributions(paths)[i] <= 1.0
  {
    var inv := Inverses(paths);
    forall i | 0 <= i < |inv| ensures inv[i] > 0.0 {
      InversePositive(inv[i], paths[i].weight + 0.1);
    }
    Ventilation.SharesSumToOne(inv);
  }

  lemma InversePositive(x: real, d: real)
    requires d > 0.0 && x * d == 1.0
    ensures x > 0.0
  {
  }

  /** Each contribution times `weight + 0.1` is the same for every path of a space: one over the total. */
  lemma ContributionResistance(paths: seq<Path>, i: nat)
    requires Divisible(paths) && Kept(paths) && i < |paths|
    ensures Contributions(paths)[i] * (paths[i].weight + 0.1) * Sum(Inverses(paths)) == 1.0
  {
    var inv := Inverses(paths);
    var t := Sum(inv);
    var c := Contributions(paths)[i];
    assert c == inv[i] / t;
    assert c * t == inv[i];
    calc {
      c * (paths[i].weight + 0.1) * t;
      (c * t) * (paths[i].weight + 0.1);
      inv[i] * (paths[i].weight + 0.1);
      1.0;
    }
  }

  /** A lighter path (smaller weight) always gets the larger share. */
  lemma ContributionOrder(paths: seq<Path>, i: nat, j: nat)
    requires Divisible(paths) && Kept(paths) && i < |paths| && j < |paths|
    requires paths[i].weight + 0.1 > 0.0 && paths[j].weight + 0.1 > 0.0
    ensures Contributions(paths)[i] < Contributions(paths)[j] <==> paths[j].weight < paths[i].weight
  {
    ContributionResistance(paths, i);
    ContributionResistance(paths, j);
    var cs := Contributions(paths);
    ReciprocalOrder(cs[i], cs[j], paths[i].weight + 0.1, paths[j].weight + 0.1, Sum(Inverses(paths)));
  }

  lemma ReciprocalOrder(ci: real, cj: real, ai: real, aj: real, t: real)
    requires ai > 0.0 && aj > 0.0 && t > 0.0 && ci * ai * t == 1.0 && cj * aj * t == 1.0
    ensures ci < cj <==> aj < ai
  {
    var pi, pj := ai * t, aj * t;
    assert ci * pi == 1.0 && cj * pj == 1.0;
    assert aj < ai <==> pj < pi;
    if pj < pi {
      assert ci * pj < ci * pi;
    }
    if ci < cj {
      assert ci * pj < cj * pj;
    }
  }

  /** The loop over one space's paths: raw contributions and their running total. */
  method PathContributions(paths: seq<Path>) returns (cs: seq<real>, total: real, ok: bool)
    ensures ok <==> Divisible(paths)
    ensures ok ==> cs == Inverses(paths) && total == Sum(cs)
  {
    cs, total := [], 0.0;
    for i := 0 to |paths|
      invariant Divisible(paths[..i]) && cs == Inverses(paths[..i]) && total == Sum(cs)
    {
      if paths[i].weight + 0.1 == 0.0 {
        return cs, total, false;
      }
      var c := 1.0 / (paths[i].weight + 0.1);
      assert (cs + [c])[..|cs|] == cs;
      cs, total := cs + [c], total + c;
      assert cs == Inverses(paths[..i + 1]);
    }
    assert paths[..|paths|] == paths;
    ok := true;
  }

  /** The loop building one space's output paths from the paths and their normalised contributions. */
  method ZipPaths(paths: seq<Path>, cs: seq<real>) returns (r: seq<PathShare>)
    ensures r == Zip(paths, cs)
  {
    r := [];
    var i := 0;
    while i < |paths| && i < |cs|
      invariant i <= |paths| && i <= |cs| && |r| == i
      invariant forall k :: 0 <= k < i ==> r[k] == PathShare(paths[k].route, paths[k].via, cs[k])
    {
      r := r + [PathShare(paths[i].route, paths[i].via, cs[i])];
      i := i + 1;
    }
  }

  lemma EntriesStep(table: PathTable, j: nat)
    requires j < |table| && AllDivisible(table[..j + 1])
    ensures AllDivisible(table[..j]) && Divisible(table[j].1)
    ensures Entries(table[..j + 1]) == Entries(table[..j]) + EntryFor(table[j].0, table[j].1)
  {
    assert table[..j + 1][..j] == table[..j];
    assert table[..j + 1][j] == table[j];
  }

  lemma DivisibleStep(table: PathTable, j: nat)
    requires j < |table| && AllDivisible(table[..j]) && Divisible(table[j].1)
    ensures AllDivisible(table[..j + 1])
  {
    assert forall k :: 0 <= k < j ==> table[..j + 1][k] == table[..j][k];
  }

  lemma NotAllDivisible(table: PathTable, j: nat)
    requires j < |table| && !Divisible(table[j].1)
    ensures !AllDivisible(table)
  {
  }

  /** The body of the loop of `_process_ventilation_paths` for one space. */
  method SpacePaths(paths: seq<Path>) returns (spacePaths: seq<PathShare>, ok: bool)
    ensures ok <==> Divisible(paths)
    ensures ok ==> spacePaths == Zip(paths, Contributions(paths))
  {
    var contributions, total;
    contributions, total, ok := PathContributions(paths);
    if !ok {
      return [], false;
    }
    var normalized: seq<real> := [];
    if total > 0.0 {
      normalized := seq(|contributions|, i requires 0 <= i < |contributions| => contributions[i] / total);
      assert normalized == Ventilation.Shares(contributions);
    }
    spacePaths := ZipPaths(paths, normalized);
  }

  /** `_process_ventilation_paths`: the spaces in dict order, each with its normalised path contributions. */
  method ProcessVentilationPaths(table: PathTable) returns (r: Result<seq<PathEntry>, string>)
    ensures r == ProcessedPaths(table)
  {
    var processed: seq<PathEntry> := [];
    for j := 0 to |table|
      invariant AllDivisible(table[..j]) && processed == Entries(table[..j])
    {
      var (id, paths) := table[j];
      var spacePaths, ok := SpacePaths(paths);
      if !ok {
        NotAllDivisible(table, j);
        return Err("ZeroDivisionError");
      }
      DivisibleStep(table, j);
      EntriesStep(table, j);
      if spacePaths != [] {
        processed := processed + [PathEntry(id, spacePaths)];
      }
    }
    assert table[..|table|] == table;
    return Ok(processed);
  }

  // ---------------------------------------------------------------------
  // _process_openings
  // ---------------------------------------------------------------------

  /** An opening dict as the detection hands it over; an absent key is `None`. */
  datatype OpeningDict = OpeningDict(id: Option<string>, kind: Option<string>, connects: Option<seq<string>>,
                                     position: Option<Vec3>, area: Option<real>, state: Option<string>)

  /** A standardised connection of the output document. */
  datatype ProcessedOpening = ProcessedOpening(id: string, kind: string, connects: seq<string>,
                                               position: Vec3, area: real, state: string)

  /** `opening.get("connects", [])`. */
  function ConnectsOf(o: OpeningDict): seq<string>
  {
    OrElse(o.connects, [])
  }

  /** The record `_process_openings` builds for one opening that has an `id`. */
  function ProcessOpening(o: OpeningDict): (r: ProcessedOpening)
    requires o.id.Some?
    ensures r.id == o.id.value && r.connects == ConnectsOf(o)
    ensures r.kind == OrElse(o.kind, "unknown") && r.position == OrElse(o.position, Origin)
    ensures r.area == OrElse(o.area, 0.0) && r.state == OrElse(o.state, "open")
  {
    ProcessedOpening(o.id.value, OrElse(o.kind, "unknown"), ConnectsOf(o),
                     OrElse(o.position, Origin), OrElse(o.area, 0.0), OrElse(o.state, "open"))
  }

  /** An opening on which the loop as written stops: no `id`, or a connects list it tries to link. */
  predicate StopsAsWritten(o: OpeningDict)
  {
    o.id.None? || ConnectsOf(o) != []
  }

  /**
   * `_process_openings` as written: the inner loop iterates the bound method
   * `self._process_spaces` instead of a list of spaces, so the first opening
   * that connects anything raises `TypeError`; an opening without `id` raises
   * `KeyError` before that.
   */
  method ProcessOpeningsAsWritten(openings: seq<OpeningDict>) returns (r: Result<seq<ProcessedOpening>, string>)
    ensures r.Ok? <==> forall k :: 0 <= k < |openings| ==> !StopsAsWritten(openings[k])
    ensures r.Ok? ==> (|r.value| == |openings| &&
      forall k :: 0 <= k < |openings| ==> r.value[k] == ProcessOpening(openings[k]))
    ensures r.Err? ==> exists k :: (0 <= k < |openings| && StopsAsWritten(openings[k]) &&
      (forall m :: 0 <= m < k ==> !StopsAsWritten(openings[m])) &&
      r.error == if openings[k].id.None? then "KeyError" else "TypeError")
  {
    var processed: seq<ProcessedOpening> := [];
    for k := 0 to |openings|
      invariant |processed| == k
      invariant forall m :: 0 <= m < k ==> !StopsAsWritten(openings[m]) && processed[m] == ProcessOpening(openings[m])
    {
      if openings[k].id.None? {
        return Err("KeyError");
      }
      processed := processed + [ProcessOpening(openings[k])];
      if ConnectsOf(openings[k]) != [] {
        return Err("TypeError");
      }
    }
    return Ok(processed);
  }

  /** The first space whose `id` is `id`: the one the inner loop stops at with `break`. */
  function FirstWithId(spaces: seq<ProcessedSpace>, id: string): (r: Option<nat>)
    ensures r.None? <==> forall i :: 0 <= i < |spaces| ==> spaces[i].id != id
    ensures r.Some? ==> (r.value < |spaces| && spaces[r.value].id == id &&
      forall j :: 0 <= j < r.value ==> spaces[j].id != id)
  {
    if spaces == [] then None
    else if spaces[0].id == id then Some(0)
    else
      var r := FirstWithId(spaces[1..], id);
      assert forall j :: 1 <= j < |spaces| ==> spaces[1..][j - 1] == spaces[j];
      if r.Some? then Some(r.value + 1) else None
  }

  /** Record `oid` in the connections of the first space named `sid`, unless it is there already. */
  function Link(spaces: seq<ProcessedSpace>, oid: string, sid: string): seq<ProcessedSpace>
  {
    match FirstWithId(spaces, sid)
    case None => spaces
    case Some(i) =>
      if oid in spaces[i].connections then spaces
      else spaces[i := spaces[i].(connections := spaces[i].connections + [oid])]
  }

  /** The loop over one opening's `connects`. */
  function LinkAll(spaces: seq<ProcessedSpace>, oid: string, sids: seq<string>): seq<ProcessedSpace>
  {
    if sids == [] then spaces
    else Link(LinkAll(spaces, oid, sids[..|sids| - 1]), oid, sids[|sids| - 1])
  }

  predicate OpeningIds(openings: seq<OpeningDict>)
  {
    forall k :: 0 <= k < |openings| ==> openings[k].id.Some?
  }

  /** The spaces after linking every opening of the list, in order. */
  function LinkOpenings(spaces: seq<ProcessedSpace>, openings: seq<OpeningDict>): seq<ProcessedSpace>
    requires OpeningIds(openings)
  {
    if openings == [] then spaces
    else
      var k := |openings| - 1;
      assert forall m :: 0 <= m < k ==> openings[..k][m] == openings[m];
      LinkAll(LinkOpenings(spaces, openings[..k]), openings[k].id.value, ConnectsOf(openings[k]))
  }

  /** The outcome of `_process_openings` once its inner loop walks the processed spaces. */
  function OpeningsOutcome(openings: seq<OpeningDict>, spaces: seq<ProcessedSpace>)
    : Result<(seq<ProcessedOpening>, seq<ProcessedSpace>), string>
  {
    if OpeningIds(openings) then
      Ok((seq(|openings|, k requires 0 <= k < |openings| && OpeningIds(openings) => ProcessOpening(openings[k])),
          LinkOpenings(spaces, openings)))
    else Err("KeyError")
  }

  /** A space with its back-links dropped: everything linking must leave alone. */
  function Strip(s: ProcessedSpace): ProcessedSpace
  {
    s.(connections := [])
  }

  predicate NoDuplicates(xs: seq<string>)
  {
    forall a, b :: 0 <= a < b < |xs| ==> xs[a] != xs[b]
  }

  /** No space before position `i` has the same `id`: the inner loop's `break` reaches this one. */
  predicate IsFirst(spaces: seq<ProcessedSpace>, i: nat)
    requires i < |spaces|
  {
    forall j :: 0 <= j < i ==> spaces[j].id != spaces[i].id
  }

  /**
   * `after` is `before` with back-links added for the (space ID, opening ID) pairs in `pairs`:
   * only connections change, each old list stays a prefix without gaining duplicates, and
   * an opening ID is added exactly to the first space carrying the paired space ID.
   */
  ghost predicate LinkedBy(before: seq<ProcessedSpace>, after: seq<ProcessedSpace>, pairs: set<(string, string)>)
  {
    |after| == |before| &&
    forall i :: 0 <= i < |before| ==>
      Strip(after[i]) == Strip(before[i]) &&
      before[i].connections <= after[i].connections &&
      (NoDuplicates(before[i].connections) ==> NoDuplicates(after[i].connections)) &&
      forall x :: x in after[i].connections <==>
        x in before[i].connections || (IsFirst(before, i) && (before[i].id, x) in pairs)
  }

  lemma NoDuplicatesSnoc(xs: seq<string>, x: string)
    requires x !in xs
    ensures NoDuplicates(xs) ==> NoDuplicates(xs + [x])
  {
  }

  lemma LinkLinks(spaces: seq<ProcessedSpace>, oid: string, sid: string)
    ensures LinkedBy(spaces, Link(spaces, oid, sid), {(sid, oid)})
  {
    var after := Link(spaces, oid, sid);
    var f := FirstWithId(spaces, sid);
    if f.Some? && oid !in spaces[f.value].connections {
      var i := f.value;
      NoDuplicatesSnoc(spaces[i].connections, oid);
      assert after[i].connections == spaces[i].connections + [oid];
    }
  }

  lemma LinkedByTrans(a: seq<ProcessedSpace>, b: seq<ProcessedSpace>, c: seq<ProcessedSpace>,
                      p: set<(string, string)>, q: set<(string, string)>)
    requires LinkedBy(a, b, p) && LinkedBy(b, c, q)
    ensures LinkedBy(a, c, p + q)
  {
    forall i | 0 <= i < |a|
      ensures IsFirst(b, i) == IsFirst(a, i) && b[i].id == a[i].id
    {
      assert forall j :: 0 <= j < |a| ==> Strip(b[j]).id == Strip(a[j]).id;
    }
  }

  function Targets(oid: string, sids: seq<string>): set<(string, string)>
  {
    set s | s in sids :: (s, oid)
  }

  lemma {:induction false} LinkAllLinks(spaces: seq<ProcessedSpace>, oid: string, sids: seq<string>)
    ensures LinkedBy(spaces, LinkAll(spaces, oid, sids), Targets(oid, sids))
    decreases |sids|
  {
    if sids == [] {
      assert Targets(oid, sids) == {};
    } else {
      var init := sids[..|sids| - 1];
      var mid := LinkAll(spaces, oid, init);
      LinkAllLinks(spaces, oid, init);
      LinkLinks(mid, oid, sids[|sids| - 1]);
      LinkedByTrans(spaces, mid, LinkAll(spaces, oid, sids), Targets(oid, init), {(sids[|sids| - 1], oid)});
      assert Targets(oid, sids) == Targets(oid, init) + {(sids[|sids| - 1], oid)} by {
        assert sids == init + [sids[|sids| - 1]];
      }
    }
  }

  /** Every (space ID, opening ID) pair the openings ask for. */
  function Requested(openings: seq<OpeningDict>): set<(string, string)>
    requires OpeningIds(openings)
  {
    set k, s | 0 <= k < |openings| && s in ConnectsOf(openings[k]) :: (s, openings[k].id.value)
  }

  lemma {:induction false} LinkOpeningsLinks(spaces: seq<ProcessedSpace>, openings: seq<OpeningDict>)
    requires OpeningIds(openings)
    ensures LinkedBy(spaces, LinkOpenings(spaces, openings), Requested(openings))
    decreases |openings|
  {
    if openings == [] {
      assert Requested(openings) == {};
    } else {
      var k := |openings| - 1;
      var init := openings[..k];
      assert forall m :: 0 <= m < k ==> init[m] == openings[m];
      var mid := LinkOpenings(spaces, init);
      LinkOpeningsLinks(spaces, init);
      LinkAllLinks(mid, openings[k].id.value, ConnectsOf(openings[k]));
      LinkedByTrans(spaces, mid, LinkOpenings(spaces, openings), Requested(init),
                    Targets(openings[k].id.value, ConnectsOf(openings[k])));
      RequestedSnoc(openings);
    }
  }

  lemma RequestedSnoc(openings: seq<OpeningDict>)
    requires openings != [] && OpeningIds(openings)
    ensures OpeningIds(openings[..|openings| - 1])
    ensures Requested(openings) == Requested(openings[..|openings| - 1]) +
      Targets(openings[|openings| - 1].id.value, ConnectsOf(openings[|openings| - 1]))
  {
    var k := |openings| - 1;
    var init := openings[..k];
    assert forall m :: 0 <= m < k ==> init[m] == openings[m];
  }

  /**
   * The corrected `_process_openings` links each opening into the spaces it connects:
   * only the connections change, the old ones stay in front, no opening is listed twice,
   * and the first space with a given ID lists an opening exactly when that opening names it.
   */
  lemma LinkOpeningsMeaning(spaces: seq<ProcessedSpace>, openings: seq<OpeningDict>, i: nat, x: string)
    requires OpeningIds(openings) && i < |spaces|
    ensures |LinkOpenings(spaces, openings)| == |spaces|
    ensures Strip(LinkOpenings(spaces, openings)[i]) == Strip(spaces[i])
    ensures spaces[i].connections <= LinkOpenings(spaces, openings)[i].connections
    ensures NoDuplicates(spaces[i].connections) ==> NoDuplicates(LinkOpenings(spaces, openings)[i].connections)
    ensures x in LinkOpenings(spaces, openings)[i].connections <==>
      x in spaces[i].connections ||
      (IsFirst(spaces, i) && exists k :: 0 <= k < |openings| && openings[k].id == Some(x) && spaces[i].id in ConnectsOf(openings[k]))
  {
    LinkOpeningsLinks(spaces, openings);
    var linked := LinkOpenings(spaces, openings);
    assert x in linked[i].connections <==> x in spaces[i].connections || (IsFirst(spaces, i) && (spaces[i].id, x) in Requested(openings));
    if (spaces[i].id, x) in Requested(openings) {
      var k, s :| 0 <= k < |openings| && s in ConnectsOf(openings[k]) && (s, openings[k].id.value) == (spaces[i].id, x);
    }
    if k :| 0 <= k < |openings| && openings[k].id == Some(x) && spaces[i].id in ConnectsOf(openings[k]) {
      assert (spaces[i].id, openings[k].id.value) in Requested(openings);
    }
  }

  /** The inner loop with `break`: the position of the first space named `sid`. */
  method FindSpace(spaces: seq<ProcessedSpace>, sid: string) returns (r: Option<nat>)
    ensures r == FirstWithId(spaces, sid)
  {
    r := None;
    for i := 0 to |spaces|
      invariant forall j :: 0 <= j < i ==> spaces[j].id != sid
    {
      if spaces[i].id == sid {
        r := Some(i);
        break;
      }
    }
  }

  /** The loop over one opening's `connects`, appending its ID to each space it names. */
  method LinkOpening(spaces: seq<ProcessedSpace>, oid: string, sids: seq<string>) returns (linked: seq<ProcessedSpace>)
    ensures linked == LinkAll(spaces, oid, sids)
  {
    linked := spaces;
    for n := 0 to |sids|
      invariant linked == LinkAll(spaces, oid, sids[..n])
    {
      var f := FindSpace(linked, sids[n]);
      if f.Some? && oid !in linked[f.value].connections {
        var i := f.value;
        linked := linked[i := linked[i].(connections := linked[i].connections + [oid])];
      }
      assert sids[..n + 1][..n] == sids[..n];
    }
    assert sids[..|sids|] == sids;
  }

  /**
   * `_process_openings` with its inner loop over the processed spaces: the openings
   * in order, and the spaces with the IDs of the openings that connect them.
   */
  method ProcessOpenings(openings: seq<OpeningDict>, spaces: seq<ProcessedSpace>)
    returns (r: Result<(seq<ProcessedOpening>, seq<ProcessedSpace>), string>)
    ensures r == OpeningsOutcome(openings, spaces)
  {
    var processed: seq<ProcessedOpening> := [];
    var linked := spaces;
    for k := 0 to |openings|
      invariant OpeningIds(openings[..k]) && |processed| == k
      invariant forall m :: 0 <= m < k ==> openings[m].id.Some? && processed[m] == ProcessOpening(openings[m])
      invariant linked == LinkOpenings(spaces, openings[..k])
    {
      if openings[k].id.None? {
        return Err("KeyError");
      }
      processed := processed + [ProcessOpening(openings[k])];
      linked := LinkOpening(linked, openings[k].id.value, ConnectsOf(openings[k]));
      assert openings[..k + 1][..k] == openings[..k];
      assert openings[..k + 1][k] == openings[k];
    }
    assert openings[..|openings|] == openings;
    assert processed == OpeningsOutcome(openings, spaces).value.0;
    return Ok((processed, linked));
  }

  const SampleDoor := OpeningDict(Some("opening_001"), Some("door"), Some(["space_001", "space_002"]), None, Some(2.0), None)

  function SampleSpace(id: string): ProcessedSpace
  {
    ProcessedSpace(id, "room", 100.0, Origin, Vec3(10.0, 10.0, 6.0), 0.0, [], NoInfo)
  }

  /** As written, a single door between two spaces already makes `_process_openings` raise. */
  method DoorRaisesAsWritten() returns (r: Result<seq<ProcessedOpening>, string>)
    ensures r == Err("TypeError")
  {
    assert StopsAsWritten([SampleDoor][0]) by {
      assert ConnectsOf(SampleDoor) == ["space_001", "space_002"];
    }
    r := ProcessOpeningsAsWritten([SampleDoor]);
  }

  /** Walking the processed spaces instead, the same door appears in both spaces' connections. */
  method DoorLinksBothSpaces() returns (r: Result<(seq<ProcessedOpening>, seq<ProcessedSpace>), string>)
    ensures r.Ok? && |r.value.1| == 2
    ensures r.value.1[0].connections == ["opening_001"] && r.value.1[1].connections == ["opening_001"]
  {
    var a, b := SampleSpace("space_001"), SampleSpace("space_002");
    var a', b' := a.(connections := ["opening_001"]), b.(connections := ["opening_001"]);
    var sids := ConnectsOf(SampleDoor);
    assert sids == ["space_001", "space_002"] && sids[..1] == ["space_001"] && sids[..0] == [];
    assert FirstWithId([a, b], "space_001") == Some(0);
    assert LinkAll([a, b], "opening_001", sids[..0]) == [a, b];
    assert a.connections + ["opening_001"] == ["opening_001"];
    assert [a, b][0 := a'] == [a', b];
    assert Link([a, b], "opening_001", "space_001") == [a', b];
    assert LinkAll([a, b], "opening_001", sids[..1]) == [a', b];
    assert FirstWithId([a', b], "space_002") == Some(1);
    assert LinkAll([a, b], "opening_001", sids) == [a', b'];
    assert [SampleDoor][..0] == [];
    assert LinkOpenings([a, b], [SampleDoor]) == [a', b'];
    r := ProcessOpenings([SampleDoor], [a, b]);
  }

  // ---------------------------------------------------------------------
  // validate_space_data
  // ---------------------------------------------------------------------

  /** A space of a data set under validation; an absent key is `None`. */
  datatype SpaceEntry = SpaceEntry(id: Option<string>, volume: Option<real>, ventilationRate: Option<real>)

  /** A connection of a data set under validation; an absent key is `None`. */
  datatype ConnectionEntry = ConnectionEntry(id: Option<string>, connects: Option<seq<string>>)

  /** The `spaces` and `connections` lists of a data set, either of which may be absent. */
  datatype OutputData = OutputData(spaces: Option<seq<SpaceEntry>>, connections: Option<seq<ConnectionEntry>>)

  /** One message of the validation report. */
  datatype Issue =
    | SpaceWithoutId
    | DuplicateSpaceId(id: string)
    | ImplausibleVolume(id: string, volume: real)
    | NegativeAch(id: string, ach: real)
    | ExcessiveAch(id: string, ach: real)
    | ConnectionWithoutId
    | DuplicateConnectionId(id: string)
    | UnknownSpace(connection: string, space: string)

  datatype Report = Report(errors: seq<Issue>, warnings: seq<Issue>, isValid: bool)

  /** The ACH above which a space's rate is reported as too high. */
  const MaxPlausibleAch: real := 20.0

  function VolumeOf(e: SpaceEntry): real { OrElse(e.volume, 0.0) }

  function AchOf(e: SpaceEntry): real { OrElse(e.ventilationRate, 0.0) }

  function EntryConnects(c: ConnectionEntry): seq<string> { OrElse(c.connects, []) }

  /** The warnings of one space with an `id`. */
  function SpaceWarnings(id: string, e: SpaceEntry): seq<Issue>
  {
    (if VolumeOf(e) <= 0.0 then [ImplausibleVolume(id, VolumeOf(e))] else []) +
    (if AchOf(e) < 0.0 then [NegativeAch(id, AchOf(e))]
     else if AchOf(e) > MaxPlausibleAch then [ExcessiveAch(id, AchOf(e))]
     else [])
  }

  /** What the space loop has gathered: its errors, its warnings and `space_ids`. */
  datatype SpaceScan = SpaceScan(errors: seq<Issue>, warnings: seq<Issue>, ids: set<string>)

  function SpaceStep(s: SpaceScan, e: SpaceEntry): SpaceScan
  {
    if e.id.None? then s.(errors := s.errors + [SpaceWithoutId])
    else
      var id := e.id.value;
      SpaceScan(s.errors + (if id in s.ids then [DuplicateSpaceId(id)] else []),
                s.warnings + SpaceWarnings(id, e), s.ids + {id})
  }

  function ScanSpaces(sp: seq<SpaceEntry>): SpaceScan
  {
    if sp == [] then SpaceScan([], [], {})
    else SpaceStep(ScanSpaces(sp[..|sp| - 1]), sp[|sp| - 1])
  }

  /** The errors for the space IDs one connection names that are neither known nor exterior. */
  function UnknownRefs(cid: string, sids: seq<string>, known: set<string>): seq<Issue>
  {
    if sids == [] then []
    else
      var s := sids[|sids| - 1];
      UnknownRefs(cid, sids[..|sids| - 1], known) +
      (if s !in known && !StartsWith(s, Ventilation.ExteriorPrefix) then [UnknownSpace(cid, s)] else [])
  }

  /** What the connection loop has gathered: its errors and `conn_ids`. */
  datatype ConnectionScan = ConnectionScan(errors: seq<Issue>, ids: set<string>)

  function ConnectionStep(s: ConnectionScan, c: ConnectionEntry, known: set<string>): ConnectionScan
  {
    if c.id.None? then s.(errors := s.errors + [ConnectionWithoutId])
    else
      var id := c.id.value;
      ConnectionScan(s.errors + (if id in s.ids then [DuplicateConnectionId(id)] else []) +
                     UnknownRefs(id, EntryConnects(c), known), s.ids + {id})
  }

  function ScanConnections(cs: seq<ConnectionEntry>, known: set<string>): ConnectionScan
  {
    if cs == [] then ConnectionScan([], {})
    else ConnectionStep(ScanConnections(cs[..|cs| - 1], known), cs[|cs| - 1], known)
  }

  function SpacesOf(d: OutputData): seq<SpaceEntry> { OrElse(d.spaces, []) }

  function ConnectionsOf(d: OutputData): seq<ConnectionEntry> { OrElse(d.connections, []) }

  /** The report `validate_space_data` returns. */
  function Validate(d: OutputData): Report
  {
    var s := ScanSpaces(SpacesOf(d));
    var c := ScanConnections(ConnectionsOf(d), s.ids);
    Report(s.errors + c.errors, s.warnings, |s.errors + c.errors| == 0)
  }

  lemma SpaceScanStep(sp: seq<SpaceEntry>, i: nat)
    requires i < |sp|
    ensures ScanSpaces(sp[..i + 1]) == SpaceStep(ScanSpaces(sp[..i]), sp[i])
  {
    assert sp[..i + 1][..i] == sp[..i];
  }

  lemma ConnectionScanStep(cs: seq<ConnectionEntry>, known: set<string>, i: nat)
    requires i < |cs|
    ensures ScanConnections(cs[..i + 1], known) == ConnectionStep(ScanConnections(cs[..i], known), cs[i], known)
  {
    assert cs[..i + 1][..i] == cs[..i];
  }

  lemma UnknownRefsStep(cid: string, sids: seq<string>, known: set<string>, i: nat)
    requires i < |sids|
    ensures UnknownRefs(cid, sids[..i + 1], known) == UnknownRefs(cid, sids[..i], known) +
      (if sids[i] !in known && !StartsWith(sids[i], Ventilation.ExteriorPrefix) then [UnknownSpace(cid, sids[i])] else [])
  {
    assert sids[..i + 1][..i] == sids[..i];
  }

  /** The innermost loop: each named space that is neither known nor exterior. */
  method CheckConnects(cid: string, sids: seq<string>, known: set<string>) returns (errors: seq<Issue>)
    ensures errors == UnknownRefs(cid, sids, known)
  {
    errors := [];
    for i := 0 to |sids|
      invariant errors == UnknownRefs(cid, sids[..i], known)
    {
      UnknownRefsStep(cid, sids, known, i);
      if sids[i] !in known && !StartsWith(sids[i], Ventilation.ExteriorPrefix) {
        errors := errors + [UnknownSpace(cid, sids[i])];
      }
    }
    assert sids[..|sids|] == sids;
  }

  /** The space loop of `validate_space_data`. */
  method CheckSpaces(sp: seq<SpaceEntry>) returns (errors: seq<Issue>, warnings: seq<Issue>, ids: set<string>)
    ensures SpaceScan(errors, warnings, ids) == ScanSpaces(sp)
  {
    errors, warnings, ids := [], [], {};
    for i := 0 to |sp|
      invariant SpaceScan(errors, warnings, ids) == ScanSpaces(sp[..i])
    {
      SpaceScanStep(sp, i);
      var space := sp[i];
      if space.id.None? {
        errors := errors + [SpaceWithoutId];
        continue;
      }
      var id := space.id.value;
      if id in ids {
        errors := errors + [DuplicateSpaceId(id)];
      }
      ids := ids + {id};
      var volume := OrElse(space.volume, 0.0);
      if volume <= 0.0 {
        warnings := warnings + [ImplausibleVolume(id, volume)];
      }
      var ach := OrElse(space.ventilationRate, 0.0);
      if ach < 0.0 {
        warnings := warnings + [NegativeAch(id, ach)];
      } else if ach > MaxPlausibleAch {
        warnings := warnings + [ExcessiveAch(id, ach)];
      }
    }
    assert sp[..|sp|] == sp;
  }

  /** The connection loop of `validate_space_data`, against the space IDs collected before it. */
  method CheckConnections(cs: seq<ConnectionEntry>, known: set<string>) returns (errors: seq<Issue>)
    ensures errors == ScanConnections(cs, known).errors
  {
    errors := [];
    var ids: set<string> := {};
    for i := 0 to |cs|
      invariant ConnectionScan(errors, ids) == ScanConnections(cs[..i], known)
    {
      ConnectionScanStep(cs, known, i);
      var conn := cs[i];
      if conn.id.None? {
        errors := errors + [ConnectionWithoutId];
        continue;
      }
      var id := conn.id.value;
      if id in ids {
        errors := errors + [DuplicateConnectionId(id)];
      }
      ids := ids + {id};
      var unknown := CheckConnects(id, OrElse(conn.connects, []), known);
      errors := errors + unknown;
    }
    assert cs[..|cs|] == cs;
  }

  /** `validate_space_data`: the errors, the warnings, and validity exactly when there is no error. */
  method ValidateSpaceData(d: OutputData) returns (report: Report)
    ensures report == Validate(d)
    ensures report.isValid <==> report.errors == []
  {
    var errors, warnings, ids := CheckSpaces(OrElse(d.spaces, []));
    var connErrors := CheckConnections(OrElse(d.connections, []), ids);
    errors := errors + connErrors;
    report := Report(errors, warnings, |errors| == 0);
  }

  /** The IDs of the spaces that have one. */
  function SpaceIds(sp: seq<SpaceEntry>): set<string>
  {
    set i | 0 <= i < |sp| && sp[i].id.Some? :: sp[i].id.value
  }

  function ConnectionIds(cs: seq<ConnectionEntry>): set<string>
  {
    set k | 0 <= k < |cs| && cs[k].id.Some? :: cs[k].id.value
  }

  /** `space_ids` ends up holding the ID of every space that has one. */
  lemma {:induction false} SpaceIdsCollected(sp: seq<SpaceEntry>)
    ensures ScanSpaces(sp).ids == SpaceIds(sp)
    decreases |sp|
  {
    if sp != [] {
      var init := sp[..|sp| - 1];
      SpaceIdsCollected(init);
      assert forall i :: 0 <= i < |init| ==> init[i] == sp[i];
      assert SpaceIds(sp) == SpaceIds(init) + (if sp[|sp| - 1].id.Some? then {sp[|sp| - 1].id.value} else {});
    }
  }

  lemma {:induction false} ConnectionIdsCollected(cs: seq<ConnectionEntry>, known: set<string>)
    ensures ScanConnections(cs, known).ids == ConnectionIds(cs)
    decreases |cs|
  {
    if cs != [] {
      var init := cs[..|cs| - 1];
      ConnectionIdsCollected(init, known);
      assert forall k :: 0 <= k < |init| ==> init[k] == cs[k];
      assert ConnectionIds(cs) == ConnectionIds(init) + (if cs[|cs| - 1].id.Some? then {cs[|cs| - 1].id.value} else {});
    }
  }

  /** Space `i` causes the error `e`: it has no ID, or an ID an earlier space already had. */
  predicate SpaceErrorAt(sp: seq<SpaceEntry>, i: int, e: Issue)
  {
    0 <= i < |sp| &&
    if sp[i].id.None? then e == SpaceWithoutId
    else sp[i].id.value in SpaceIds(sp[..i]) && e == DuplicateSpaceId(sp[i].id.value)
  }

  lemma {:induction false} SpaceErrorsMeaning(sp: seq<SpaceEntry>)
    ensures forall e :: e in ScanSpaces(sp).errors <==> exists i :: SpaceErrorAt(sp, i, e)
    decreases |sp|
  {
    if sp != [] {
      var n := |sp| - 1;
      var init := sp[..n];
      SpaceErrorsMeaning(init);
      SpaceIdsCollected(init);
      assert sp[..n] == init;
      forall i, e | 0 <= i < n ensures SpaceErrorAt(init, i, e) <==> SpaceErrorAt(sp, i, e) {
        assert init[i] == sp[i] && init[..i] == sp[..i];
      }
      assert ScanSpaces(sp) == SpaceStep(ScanSpaces(init), sp[n]);
      forall e | e in ScanSpaces(sp).errors ensures exists i :: SpaceErrorAt(sp, i, e) {
        if e in ScanSpaces(init).errors {
          var i :| SpaceErrorAt(init, i, e);
          assert SpaceErrorAt(sp, i, e);
        } else {
          assert SpaceErrorAt(sp, n, e);
        }
      }
      forall e | exists i :: SpaceErrorAt(sp, i, e) ensures e in ScanSpaces(sp).errors {
        var i :| SpaceErrorAt(sp, i, e);
        if i < n {
          assert SpaceErrorAt(init, i, e);
        }
      }
    }
  }

  /** Space `i` has an ID and `w` is among its warnings. */
  predicate SpaceWarningAt(sp: seq<SpaceEntry>, i: int, w: Issue)
  {
    0 <= i < |sp| && sp[i].id.Some? && w in SpaceWarnings(sp[i].id.value, sp[i])
  }

  lemma {:induction false} SpaceWarningsMeaning(sp: seq<SpaceEntry>)
    ensures forall w :: w in ScanSpaces(sp).warnings <==> exists i :: SpaceWarningAt(sp, i, w)
    decreases |sp|
  {
    if sp != [] {
      var n := |sp| - 1;
      var init := sp[..n];
      SpaceWarningsMeaning(init);
      forall i, w | 0 <= i < n ensures SpaceWarningAt(init, i, w) <==> SpaceWarningAt(sp, i, w) {
        assert init[i] == sp[i];
      }
      assert ScanSpaces(sp) == SpaceStep(ScanSpaces(init), sp[n]);
      forall w | w in ScanSpaces(sp).warnings ensures exists i :: SpaceWarningAt(sp, i, w) {
        if w in ScanSpaces(init).warnings {
          var i :| SpaceWarningAt(init, i, w);
          assert SpaceWarningAt(sp, i, w);
        } else {
          assert SpaceWarningAt(sp, n, w);
        }
      }
      forall w | exists i :: SpaceWarningAt(sp, i, w) ensures w in ScanSpaces(sp).warnings {
        var i :| SpaceWarningAt(sp, i, w);
        if i < n {
          assert SpaceWarningAt(init, i, w);
        }
      }
    }
  }

  lemma {:induction false} UnknownRefsMeaning(cid: string, sids: seq<string>, known: set<string>)
    ensures forall e :: e in UnknownRefs(cid, sids, known) ==> e.UnknownSpace? && e.connection == cid
    ensures forall s :: UnknownSpace(cid, s) in UnknownRefs(cid, sids, known) <==>
      s in sids && s !in known && !StartsWith(s, Ventilation.ExteriorPrefix)
    decreases |sids|
  {
    if sids != [] {
      var init := sids[..|sids| - 1];
      UnknownRefsMeaning(cid, init, known);
      assert sids == init + [sids[|sids| - 1]];
    }
  }

  /** Connection `k` causes the error `e`: no ID, an ID seen before, or a space it names that is unknown. */
  predicate ConnectionErrorAt(cs: seq<ConnectionEntry>, known: set<string>, k: int, e: Issue)
  {
    0 <= k < |cs| &&
    if cs[k].id.None? then e == ConnectionWithoutId
    else
      (cs[k].id.value in ConnectionIds(cs[..k]) && e == DuplicateConnectionId(cs[k].id.value)) ||
      e in UnknownRefs(cs[k].id.value, EntryConnects(cs[k]), known)
  }

  lemma {:induction false} ConnectionErrorsMeaning(cs: seq<ConnectionEntry>, known: set<string>)
    ensures forall e :: e in ScanConnections(cs, known).errors <==> exists k :: ConnectionErrorAt(cs, known, k, e)
    decreases |cs|
  {
    if cs != [] {
      var n := |cs| - 1;
      var init := cs[..n];
      ConnectionErrorsMeaning(init, known);
      ConnectionIdsCollected(init, known);
      forall k, e | 0 <= k < n ensures ConnectionErrorAt(init, known, k, e) <==> ConnectionErrorAt(cs, known, k, e) {
        assert init[k] == cs[k] && init[..k] == cs[..k];
      }
      assert ScanConnections(cs, known) == ConnectionStep(ScanConnections(init, known), cs[n], known);
      forall e | e in ScanConnections(cs, known).errors ensures exists k :: ConnectionErrorAt(cs, known, k, e) {
        if e in ScanConnections(init, known).errors {
          var k :| ConnectionErrorAt(init, known, k, e);
          assert ConnectionErrorAt(cs, known, k, e);
        } else {
          assert ConnectionErrorAt(cs, known, n, e);
        }
      }
      forall e | exists k :: ConnectionErrorAt(cs, known, k, e) ensures e in ScanConnections(cs, known).errors {
        var k :| ConnectionErrorAt(cs, known, k, e);
        if k < n {
          assert ConnectionErrorAt(init, known, k, e);
        }
      }
    }
  }

  lemma SpaceIdsPrefix(sp: seq<SpaceEntry>, i: nat, x: string)
    requires i <= |sp|
    ensures x in SpaceIds(sp[..i]) <==> exists j :: 0 <= j < i && sp[j].id == Some(x)
  {
    if j :| 0 <= j < i && sp[j].id == Some(x) {
      assert sp[..i][j] == sp[j];
    }
  }

  lemma ConnectionIdsPrefix(cs: seq<ConnectionEntry>, k: nat, x: string)
    requires k <= |cs|
    ensures x in ConnectionIds(cs[..k]) <==> exists m :: 0 <= m < k && cs[m].id == Some(x)
  {
    if m :| 0 <= m < k && cs[m].id == Some(x) {
      assert cs[..k][m] == cs[m];
    }
  }

  /** The errors of the report are those of the spaces, then those of the connections. */
  lemma ReportErrors(d: OutputData, e: Issue)
    ensures e in Validate(d).errors <==>
      (exists i :: SpaceErrorAt(SpacesOf(d), i, e)) ||
      (exists k :: ConnectionErrorAt(ConnectionsOf(d), SpaceIds(SpacesOf(d)), k, e))
  {
    SpaceErrorsMeaning(SpacesOf(d));
    SpaceIdsCollected(SpacesOf(d));
    ConnectionErrorsMeaning(ConnectionsOf(d), SpaceIds(SpacesOf(d)));
  }

  /** A space without an ID, and a space ID used twice, are each reported as an error. */
  lemma SpaceErrorsReported(d: OutputData, x: string)
    ensures SpaceWithoutId in Validate(d).errors <==>
      exists i :: 0 <= i < |SpacesOf(d)| && SpacesOf(d)[i].id.None?
    ensures DuplicateSpaceId(x) in Validate(d).errors <==>
      exists i, j :: 0 <= i < j < |SpacesOf(d)| && SpacesOf(d)[i].id == Some(x) && SpacesOf(d)[j].id == Some(x)
  {
    var sp, cs, known := SpacesOf(d), ConnectionsOf(d), SpaceIds(SpacesOf(d));
    ReportErrors(d, SpaceWithoutId);
    ReportErrors(d, DuplicateSpaceId(x));
    forall k, e | ConnectionErrorAt(cs, known, k, e) ensures e.ConnectionWithoutId? || e.DuplicateConnectionId? || e.UnknownSpace? {
      if cs[k].id.Some? {
        UnknownRefsMeaning(cs[k].id.value, EntryConnects(cs[k]), known);
      }
    }
    if i :| 0 <= i < |sp| && sp[i].id.None? {
      assert SpaceErrorAt(sp, i, SpaceWithoutId);
    }
    if i, j :| 0 <= i < j < |sp| && sp[i].id == Some(x) && sp[j].id == Some(x) {
      SpaceIdsPrefix(sp, j, x);
      assert SpaceErrorAt(sp, j, DuplicateSpaceId(x));
    }
    if j :| SpaceErrorAt(sp, j, DuplicateSpaceId(x)) {
      SpaceIdsPrefix(sp, j, x);
    }
  }

  /** A connection without an ID, a connection ID used twice, and each named space that is neither known nor exterior are reported as errors. */
  lemma ConnectionErrorsReported(d: OutputData, x: string, s: string)
    ensures ConnectionWithoutId in Validate(d).errors <==>
      exists k :: 0 <= k < |ConnectionsOf(d)| && ConnectionsOf(d)[k].id.None?
    ensures DuplicateConnectionId(x) in Validate(d).errors <==>
      exists k, m :: 0 <= k < m < |ConnectionsOf(d)| && ConnectionsOf(d)[k].id == Some(x) && ConnectionsOf(d)[m].id == Some(x)
    ensures UnknownSpace(x, s) in Validate(d).errors <==>
      exists k :: (0 <= k < |ConnectionsOf(d)| && ConnectionsOf(d)[k].id == Some(x) && s in EntryConnects(ConnectionsOf(d)[k]) &&
        s !in SpaceIds(SpacesOf(d)) && !StartsWith(s, Ventilation.ExteriorPrefix))
  {
    var sp, cs, known := SpacesOf(d), ConnectionsOf(d), SpaceIds(SpacesOf(d));
    ReportErrors(d, ConnectionWithoutId);
    ReportErrors(d, DuplicateConnectionId(x));
    ReportErrors(d, UnknownSpace(x, s));
    forall k | 0 <= k < |cs| && cs[k].id.Some? {
      UnknownRefsMeaning(cs[k].id.value, EntryConnects(cs[k]), known);
    }
    if k :| 0 <= k < |cs| && cs[k].id.None? {
      assert ConnectionErrorAt(cs, known, k, ConnectionWithoutId);
    }
    if k, m :| 0 <= k < m < |cs| && cs[k].id == Some(x) && cs[m].id == Some(x) {
      ConnectionIdsPrefix(cs, m, x);
      assert ConnectionErrorAt(cs, known, m, DuplicateConnectionId(x));
    }
    if m :| ConnectionErrorAt(cs, known, m, DuplicateConnectionId(x)) {
      ConnectionIdsPrefix(cs, m, x);
    }
    if k :| 0 <= k < |cs| && cs[k].id == Some(x) && s in EntryConnects(cs[k]) && s !in known &&
            !StartsWith(s, Ventilation.ExteriorPrefix) {
      assert ConnectionErrorAt(cs, known, k, UnknownSpace(x, s));
    }
  }

  /** Volume at or below 0, ACH below 0, and ACH above 20 each give a warning naming the space and the value. */
  lemma WarningsReported(d: OutputData, x: string, v: real)
    ensures ImplausibleVolume(x, v) in Validate(d).warnings <==>
      exists i :: 0 <= i < |SpacesOf(d)| && SpacesOf(d)[i].id == Some(x) && VolumeOf(SpacesOf(d)[i]) == v && v <= 0.0
    ensures NegativeAch(x, v) in Validate(d).warnings <==>
      exists i :: 0 <= i < |SpacesOf(d)| && SpacesOf(d)[i].id == Some(x) && AchOf(SpacesOf(d)[i]) == v && v < 0.0
    ensures ExcessiveAch(x, v) in Validate(d).warnings <==>
      exists i :: 0 <= i < |SpacesOf(d)| && SpacesOf(d)[i].id == Some(x) && AchOf(SpacesOf(d)[i]) == v && v > MaxPlausibleAch
  {
    var sp := SpacesOf(d);
    SpaceWarningsMeaning(sp);
    if i :| 0 <= i < |sp| && sp[i].id == Some(x) && VolumeOf(sp[i]) == v && v <= 0.0 {
      assert SpaceWarningAt(sp, i, ImplausibleVolume(x, v));
    }
    if i :| 0 <= i < |sp| && sp[i].id == Some(x) && AchOf(sp[i]) == v && v < 0.0 {
      assert SpaceWarningAt(sp, i, NegativeAch(x, v));
    }
    if i :| 0 <= i < |sp| && sp[i].id == Some(x) && AchOf(sp[i]) == v && v > MaxPlausibleAch {
      assert SpaceWarningAt(sp, i, ExcessiveAch(x, v));
    }
  }

  /** Every space and connection has an ID of its own, and every space a connection names exists or is exterior. */
  predicate Consistent(d: OutputData)
  {
    var sp, cs := SpacesOf(d), ConnectionsOf(d);
    (forall i :: 0 <= i < |sp| ==> sp[i].id.Some?) &&
    (forall i, j :: 0 <= i < j < |sp| ==> sp[i].id != sp[j].id) &&
    (forall k :: 0 <= k < |cs| ==> cs[k].id.Some?) &&
    (forall k, m :: 0 <= k < m < |cs| ==> cs[k].id != cs[m].id) &&
    (forall k, s :: 0 <= k < |cs| && s in EntryConnects(cs[k]) ==>
       s in SpaceIds(sp) || StartsWith(s, Ventilation.ExteriorPrefix))
  }

  /** `is_valid` holds exactly for a consistent data set; volumes and rates play no part. */
  lemma ValidIff(d: OutputData)
    ensures Validate(d).isValid <==> Consistent(d)
  {
    var sp, cs, known := SpacesOf(d), ConnectionsOf(d), SpaceIds(SpacesOf(d));
    var errors := Validate(d).errors;
    if Consistent(d) && errors != [] {
      var e := errors[0];
      ReportErrors(d, e);
      if i :| SpaceErrorAt(sp, i, e) {
        SpaceIdsPrefix(sp, i, sp[i].id.value);
      } else {
        var k :| ConnectionErrorAt(cs, known, k, e);
        ConnectionIdsPrefix(cs, k, cs[k].id.value);
        UnknownRefsMeaning(cs[k].id.value, EntryConnects(cs[k]), known);
      }
    }
    if !Consistent(d) {
      if i :| 0 <= i < |sp| && sp[i].id.None? {
        SpaceErrorsReported(d, "");
      } else if i, j :| 0 <= i < j < |sp| && sp[i].id == sp[j].id {
        SpaceErrorsReported(d, sp[i].id.value);
      } else if k :| 0 <= k < |cs| && cs[k].id.None? {
        ConnectionErrorsReported(d, "", "");
      } else if k, m :| 0 <= k < m < |cs| && cs[k].id == cs[m].id {
        ConnectionErrorsReported(d, cs[k].id.value, "");
      } else {
        var k, s :| 0 <= k < |cs| && s in EntryConnects(cs[k]) && s !in known && !StartsWith(s, Ventilation.ExteriorPrefix);
        ConnectionErrorsReported(d, cs[k].id.value, s);
      }
    }
  }

  /** Two data sets that differ only in volumes and ventilation rates are equally valid. */
  lemma ValidityIgnoresWarnings(d: OutputData, d': OutputData)
    requires |SpacesOf(d)| == |SpacesOf(d')| && forall i :: 0 <= i < |SpacesOf(d)| ==> SpacesOf(d)[i].id == SpacesOf(d')[i].id
    requires ConnectionsOf(d) == ConnectionsOf(d')
    ensures Validate(d).isValid == Validate(d').isValid
  {
    ValidIff(d);
    ValidIff(d');
    assert SpaceIds(SpacesOf(d)) == SpaceIds(SpacesOf(d'));
  }

  // ---------------------------------------------------------------------
  // generate_simplified_geometry
  // ---------------------------------------------------------------------

  /** A space as `generate_simplified_geometry` reads it; an absent key is `None`. */
  datatype GeometrySpace = GeometrySpace(id: Option<string>, kind: Option<string>, bboxMin: Option<Vec3>, bboxMax: Option<Vec3>)

  /** The simplified geometry of one space: 8 corner vertices and 6 quads of vertex indices. */
  datatype Box = Box(vertices: seq<Vec3>, faces: seq<seq<nat>>, kind: string)

  /** Whether bit `axis` (0 for x, 1 for y, 2 for z) of a vertex index is set. */
  predicate Bit(k: nat, axis: nat)
  {
    (k / (if axis == 0 then 1 else if axis == 1 then 2 else 4)) % 2 == 1
  }

  /** Corner `k` of the box from `lo` to `hi`: each set bit takes that coordinate from `hi`. */
  function Corner(lo: Vec3, hi: Vec3, k: nat): Vec3
  {
    Vec3(if Bit(k, 0) then hi.x else lo.x, if Bit(k, 1) then hi.y else lo.y, if Bit(k, 2) then hi.z else lo.z)
  }

  /** The 8 vertices of the box, listed so that vertex `k` is `Corner(lo, hi, k)`. */
  function BoxVertices(lo: Vec3, hi: Vec3): (v: seq<Vec3>)
    ensures |v| == 8 && forall k :: 0 <= k < 8 ==> v[k] == Corner(lo, hi, k)
    ensures v[0] == lo && v[7] == hi
  {
    [Vec3(lo.x, lo.y, lo.z), Vec3(hi.x, lo.y, lo.z), Vec3(lo.x, hi.y, lo.z), Vec3(hi.x, hi.y, lo.z),
     Vec3(lo.x, lo.y, hi.z), Vec3(hi.x, lo.y, hi.z), Vec3(lo.x, hi.y, hi.z), Vec3(hi.x, hi.y, hi.z)]
  }

  /** Two vertex indices that differ in exactly one bit: the corners are joined by an edge of the box. */
  predicate BoxEdge(a: nat, b: nat)
  {
    (if Bit(a, 0) != Bit(b, 0) then 1 else 0) + (if Bit(a, 1) != Bit(b, 1) then 1 else 0) +
    (if Bit(a, 2) != Bit(b, 2) then 1 else 0) == 1
  }

  /**
   * A quad of four distinct vertex indices below 8, all with bit `axis` equal to `side`
   * (one side of the box), each corner joined to the next by a box edge.
   */
  predicate SideFace(q: seq<nat>, axis: nat, side: bool)
  {
    |q| == 4 && q[0] < 8 && q[1] < 8 && q[2] < 8 && q[3] < 8 &&
    q[0] != q[1] && q[0] != q[2] && q[0] != q[3] && q[1] != q[2] && q[1] != q[3] && q[2] != q[3] &&
    Bit(q[0], axis) == side && Bit(q[1], axis) == side && Bit(q[2], axis) == side && Bit(q[3], axis) == side &&
    BoxEdge(q[0], q[1]) && BoxEdge(q[1], q[2]) && BoxEdge(q[2], q[3]) && BoxEdge(q[3], q[0])
  }

  /** The 6 faces: bottom and top (z), front and back (y), left and right (x). */
  function CubeFaces(): (f: seq<seq<nat>>)
    ensures |f| == 6
    ensures SideFace(f[0], 2, false) && SideFace(f[1], 2, true)
    ensures SideFace(f[2], 1, false) && SideFace(f[3], 1, true)
    ensures SideFace(f[4], 0, false) && SideFace(f[5], 0, true)
  {
    [[0, 1, 3, 2], [4, 5, 7, 6], [0, 1, 5, 4], [2, 3, 7, 6], [0, 2, 6, 4], [1, 3, 7, 5]]
  }

  /** The geometry of one space, with the `bbox_min`, `bbox_max` and `type` defaults. */
  function BoxOf(s: GeometrySpace): Box
  {
    Box(BoxVertices(OrElse(s.bboxMin, Origin), OrElse(s.bboxMax, Origin)), CubeFaces(), OrElse(s.kind, "unknown"))
  }

  /** `generate_simplified_geometry`: a box per space ID; a space without `id` raises `KeyError`. */
  function SimplifiedGeometry(spaces: seq<GeometrySpace>): (r: Result<map<string, Box>, string>)
    ensures r.Ok? <==> GeometryIds(spaces)
    ensures r.Err? ==> r.error == "KeyError"
    ensures r.Ok? ==> |r.value| <= |spaces|
  {
    if spaces == [] then Ok(map[])
    else
      var last := spaces[|spaces| - 1];
      assert forall i :: 0 <= i < |spaces| - 1 ==> spaces[..|spaces| - 1][i] == spaces[i];
      match SimplifiedGeometry(spaces[..|spaces| - 1])
      case Err(e) => Err(e)
      case Ok(m) => if last.id.None? then Err("KeyError") else Ok(m[last.id.value := BoxOf(last)])
  }

  /** No later space has the same ID as space `i`: its box is the one the dict keeps. */
  predicate LastWithId(spaces: seq<GeometrySpace>, i: nat)
    requires i < |spaces|
  {
    forall j :: i < j < |spaces| ==> spaces[j].id != spaces[i].id
  }

  predicate GeometryIds(spaces: seq<GeometrySpace>)
  {
    forall i :: 0 <= i < |spaces| ==> spaces[i].id.Some?
  }

  /** Its keys are exactly the spaces' IDs. */
  lemma {:induction false} GeometryKeys(spaces: seq<GeometrySpace>)
    requires GeometryIds(spaces)
    ensures SimplifiedGeometry(spaces).Ok?
    ensures SimplifiedGeometry(spaces).value.Keys == IdSet(spaces)
    decreases |spaces|
  {
    if spaces != [] {
      var n := |spaces| - 1;
      var init := spaces[..n];
      assert forall i :: 0 <= i < n ==> init[i] == spaces[i];
      GeometryKeys(init);
      assert SimplifiedGeometry(spaces).value ==
             SimplifiedGeometry(init).value[spaces[n].id.value := BoxOf(spaces[n])];
      IdSetSnoc(spaces);
    }
  }

  /** The IDs the spaces carry. */
  function IdSet(spaces: seq<GeometrySpace>): set<string>
    requires GeometryIds(spaces)
  {
    set i | 0 <= i < |spaces| :: spaces[i].id.value
  }

  lemma IdSetSnoc(spaces: seq<GeometrySpace>)
    requires GeometryIds(spaces) && spaces != []
    ensures GeometryIds(spaces[..|spaces| - 1])
    ensures IdSet(spaces) == IdSet(spaces[..|spaces| - 1]) + {spaces[|spaces| - 1].id.value}
  {
    var n := |spaces| - 1;
    var init := spaces[..n];
    assert forall i :: 0 <= i < n ==> init[i] == spaces[i];
  }

  /** Each ID maps to the box of the last space that carries it. */
  lemma {:induction false} GeometryLastWins(spaces: seq<GeometrySpace>, i: nat)
    requires GeometryIds(spaces) && i < |spaces| && LastWithId(spaces, i)
    ensures SimplifiedGeometry(spaces).Ok? && spaces[i].id.value in SimplifiedGeometry(spaces).value
    ensures SimplifiedGeometry(spaces).value[spaces[i].id.value] == BoxOf(spaces[i])
    decreases |spaces|
  {
    var n := |spaces| - 1;
    if i < n {
      var init := spaces[..n];
      assert forall j :: 0 <= j < n ==> init[j] == spaces[j];
      assert LastWithId(init, i);
      GeometryLastWins(init, i);
    }
  }

  // ---------------------------------------------------------------------
  // export_for_visualization: the geometry of the processed spaces
  // ---------------------------------------------------------------------

  /**
   * How `export_for_visualization` hands a processed space to the geometry builder:
   * the processed record keeps its box under `boundingBox`, so `bbox_min` and
   * `bbox_max` are absent and fall back to the origin.
   */
  function ViewAsWritten(p: ProcessedSpace): GeometrySpace
  {
    GeometrySpace(Some(p.id), Some(p.kind), None, None)
  }

  /** The same hand-over reading the processed record's own bounding box. */
  function View(p: ProcessedSpace): GeometrySpace
  {
    GeometrySpace(Some(p.id), Some(p.kind), Some(p.bboxMin), Some(p.bboxMax))
  }

  function Views(ps: seq<ProcessedSpace>, view: ProcessedSpace -> GeometrySpace): (r: seq<GeometrySpace>)
    ensures |r| == |ps| && forall i :: 0 <= i < |ps| ==> r[i] == view(ps[i])
  {
    seq(|ps|, i requires 0 <= i < |ps| => view(ps[i]))
  }

  /** As written, every box of the visualisation export collapses to the origin, whatever the spaces' bounding boxes. */
  lemma VisualBoxesCollapse(ps: seq<ProcessedSpace>, i: nat, k: nat)
    requires i < |ps| && k < 8
    ensures var g := SimplifiedGeometry(Views(ps, ViewAsWritten));
      g.Ok? && ps[i].id in g.value && |g.value[ps[i].id].vertices| == 8 && g.value[ps[i].id].vertices[k] == Origin
  {
    var vs := Views(ps, ViewAsWritten);
    var j := LastIndexOf(vs, i);
    GeometryLastWins(vs, j);
  }

  /** Reading `boundingBox`, each exported box spans its space's bounding box. */
  lemma VisualBoxesSpanBoundingBox(ps: seq<ProcessedSpace>, i: nat, k: nat)
    requires i < |ps| && k < 8 && forall j :: i < j < |ps| ==> ps[j].id != ps[i].id
    ensures var g := SimplifiedGeometry(Views(ps, View));
      g.Ok? && ps[i].id in g.value && |g.value[ps[i].id].vertices| == 8 &&
      g.value[ps[i].id].vertices[k] == Corner(ps[i].bboxMin, ps[i].bboxMax, k)
  {
    var vs := Views(ps, View);
    assert LastWithId(vs, i);
    GeometryLastWins(vs, i);
  }

  /** The last position at or after `i` whose space has the same ID as space `i`. */
  lemma LastIndexOf(spaces: seq<GeometrySpace>, i: nat) returns (j: nat)
    requires i < |spaces|
    ensures i <= j < |spaces| && spaces[j].id == spaces[i].id && LastWithId(spaces, j)
    decreases |spaces| - i
  {
    if k :| i < k < |spaces| && spaces[k].id == spaces[i].id {
      j := LastIndexOf(spaces, k);
    } else {
      j := i;
    }
  }

  /** The smallest case: one room from (0, 0, 0) to (10, 10, 6) is exported as a box at the origin. */
  lemma RoomExportedAtOrigin()
    ensures var g := SimplifiedGeometry(Views([SampleSpace("space_001")], ViewAsWritten));
      g.Ok? && "space_001" in g.value && |g.value["space_001"].vertices| == 8 &&
      g.value["space_001"].vertices[7] == Origin
    ensures var g := SimplifiedGeometry(Views([SampleSpace("space_001")], View));
      g.Ok? && "space_001" in g.value && |g.value["space_001"].vertices| == 8 &&
      g.value["space_001"].vertices[7] == Vec3(10.0, 10.0, 6.0)
  {
    VisualBoxesCollapse([SampleSpace("space_001")], 0, 7);
    VisualBoxesSpanBoundingBox([SampleSpace("space_001")], 0, 7);
  }
}
