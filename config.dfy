/**
 * The configuration store: a two-level map from section names to key/value
 * sections, seeded from the built-in defaults, with `get`, `set`,
 * `get_all`, the recursive merge used when a user file is loaded, and the
 * process-wide singleton accessor.
 *
 * Python dicts are shared by reference. A section is therefore a mutable
 * object (`Section`), so that the sharing between a configuration and the
 * defaults it was copied from is visible; values below a section are
 * immutable `Value`s.
 */
module Config {
  import opened Wrappers

  /** A JSON-style configuration value. */
  datatype Value =
    | Null
    | Bool(b: bool)
    | Int(i: int)
    | Real(r: real)
    | Str(s: string)
    | List(items: seq<Value>)
    | Dict(entries: map<string, Value>)

  /** One section of the configuration: a dict that is updated in place. */
  class Section {
    var entries: map<string, Value>

    constructor (entries: map<string, Value>)
      ensures this.entries == entries
    {
      this.entries := entries;
    }
  }

  /** The built-in `voxelization` section. */
  function VoxelizationDefaults(): map<string, Value>
  {
    map[
      "base_voxel_size" := Real(1.0),
      "min_voxel_size" := Real(0.125),
      "curvature_threshold" := Real(0.5),
      "width_threshold" := Real(2.0),
      "use_gpu_acceleration" := Bool(true),
      "max_memory_usage" := Int(8192)]
  }

  /** The built-in `space_detection` section. */
  function SpaceDetectionDefaults(): map<string, Value>
  {
    map[
      "min_space_volume" := Real(5.0),
      "space_merge_distance" := Real(0.5),
      "min_passage_height" := Real(1.8),
      "max_seed_points" := Int(5000),
      "flood_fill_step" := Real(0.5)]
  }

  /** The built-in `openings` section. */
  function OpeningsDefaults(): map<string, Value>
  {
    map[
      "standard_door_area_limit" := Real(2.0),
      "wide_door_area_limit" := Real(5.0),
      "passage_aspect_ratio" := Real(3.0),
      "connection_degree_threshold" := Int(3),
      "opening_height_range" := List([Real(0.0), Real(2.2)])]
  }

  /** The built-in `ventilation` section. */
  function VentilationDefaults(): map<string, Value>
  {
    map[
      "high_ach_rate" := Real(10.0),
      "medium_ach_range" := List([Real(5.0), Real(8.0)]),
      "low_ach_range" := List([Real(1.0), Real(4.0)]),
      "opening_influence_factor" := Real(0.7),
      "path_decay_factor" := Real(0.6)]
  }

  /** The built-in `processing` section. */
  function ProcessingDefaults(): map<string, Value>
  {
    map[
      "num_threads" := Int(8),
      "enable_parallel" := Bool(true),
      "chunk_size" := Int(1000),
      "enable_incremental_update" := Bool(true)]
  }

  /** The built-in `paths` section. */
  function PathsDefaults(): map<string, Value>
  {
    map[
      "models_dir" := Str("data/models"),
      "results_dir" := Str("data/results"),
      "temp_dir" := Str("data/temp")]
  }

  /** The built-in defaults (`DEFAULT_CONFIG`), section by section. */
  function DefaultSections(): map<string, map<string, Value>>
  {
    map[
      "voxelization" := VoxelizationDefaults(),
      "space_detection" := SpaceDetectionDefaults(),
      "openings" := OpeningsDefaults(),
      "ventilation" := VentilationDefaults(),
      "processing" := ProcessingDefaults(),
      "paths" := PathsDefaults()]
  }

  /** What a map of section objects currently holds. */
  function Contents(sections: map<string, Section>): (c: map<string, map<string, Value>>)
    reads sections.Values
    ensures c.Keys == sections.Keys
  {
    map s | s in sections :: sections[s].entries
  }

  /** No two section names share one section object. */
  ghost predicate Separate(sections: map<string, Section>)
  {
    forall s, t :: s in sections && t in sections && s != t ==> sections[s] != sections[t]
  }

  /** Fresh section objects holding the given contents. */
  method Materialize(m: map<string, map<string, Value>>) returns (d: map<string, Section>)
    ensures Contents(d) == m && Separate(d)
    ensures forall s :: s in d ==> fresh(d[s])
  {
    d := map[];
    var todo := m.Keys;
    while todo != {}
      invariant todo <= m.Keys && d.Keys == m.Keys - todo
      invariant forall s :: s in d ==> fresh(d[s]) && d[s].entries == m[s]
      invariant Separate(d)
      decreases todo
    {
      var s :| s in todo;
      var section := new Section(m[s]);
      d := d[s := section];
      todo := todo - {s};
    }
  }

  /** The global default configuration object, `DEFAULT_CONFIG`. */
  method MakeDefaults() returns (d: map<string, Section>)
    ensures Contents(d) == DefaultSections() && Separate(d)
    ensures forall s :: s in d ==> fresh(d[s])
  {
    d := Materialize(DefaultSections());
  }

  /** Fresh section objects holding the same entries as `src`. */
  method CopySections(src: map<string, Section>) returns (dst: map<string, Section>)
    ensures Contents(dst) == Contents(src) && Separate(dst)
    ensures forall s :: s in dst ==> fresh(dst[s])
  {
    dst := Materialize(Contents(src));
  }

  /** What `get` returns: nothing, a whole section, or one stored value. */
  datatype Lookup = Missing | WholeSection(section: Section) | Found(value: Value)

  /** Target entry `k` after merging source value `v` into `t`. */
  function MergeAt(t: map<string, Value>, k: string, v: Value): Value
    decreases v, 1
  {
    if k in t && t[k].Dict? && v.Dict? then Dict(Merge(t[k].entries, v.entries)) else v
  }

  /** `_update_dict_recursive(t, s)`, as the value `t` holds afterwards. */
  function Merge(t: map<string, Value>, s: map<string, Value>): (r: map<string, Value>)
    decreases Dict(s), 0
  {
    map k | k in t.Keys + s.Keys :: if k in s then MergeAt(t, k, s[k]) else t[k]
  }

  /**
   * Keys only in the target survive untouched, a key whose target and
   * source values are both dicts is merged recursively, and every other
   * source value overwrites the target's.
   */
  lemma MergeMeaning(t: map<string, Value>, s: map<string, Value>, k: string)
    ensures k in Merge(t, s) <==> k in t || k in s
    ensures k in t && k !in s ==> Merge(t, s)[k] == t[k]
    ensures k in s && !(k in t && t[k].Dict? && s[k].Dict?) ==> Merge(t, s)[k] == s[k]
    ensures k in s && k in t && t[k].Dict? && s[k].Dict? ==>
      Merge(t, s)[k] == Dict(Merge(t[k].entries, s[k].entries))
  {
  }

  /** Every value of `s` is found in `r`, dict by dict. */
  ghost predicate Covers(r: map<string, Value>, s: map<string, Value>)
    decreases Dict(s)
  {
    forall k :: k in s ==>
      k in r && (if s[k].Dict? && r[k].Dict? then Covers(r[k].entries, s[k].entries) else r[k] == s[k])
  }

  /** After a merge the target holds everything the source said. */
  lemma {:induction false} MergeCovers(t: map<string, Value>, s: map<string, Value>)
    ensures Covers(Merge(t, s), s)
    decreases Dict(s)
  {
    var r := Merge(t, s);
    forall k | k in s
      ensures k in r && (if s[k].Dict? && r[k].Dict? then Covers(r[k].entries, s[k].entries) else r[k] == s[k])
    {
      assert r[k] == MergeAt(t, k, s[k]);
      if k in t && t[k].Dict? && s[k].Dict? {
        MergeCovers(t[k].entries, s[k].entries);
      } else if s[k].Dict? {
        CoversSelf(s[k].entries);
      }
    }
  }

  lemma {:induction false} CoversSelf(s: map<string, Value>)
    ensures Covers(s, s)
    decreases Dict(s)
  {
    forall k | k in s && s[k].Dict?
      ensures Covers(s[k].entries, s[k].entries)
    {
      CoversSelf(s[k].entries);
    }
  }

  /** Loading the same file twice gives what loading it once gave. */
  lemma {:induction false} MergeIdempotent(t: map<string, Value>, s: map<string, Value>)
    ensures Merge(Merge(t, s), s) == Merge(t, s)
    decreases Dict(s)
  {
    var r := Merge(t, s);
    forall k | k in s
      ensures MergeAt(r, k, s[k]) == r[k]
    {
      if k in t && t[k].Dict? && s[k].Dict? {
        MergeIdempotent(t[k].entries, s[k].entries);
      } else if s[k].Dict? {
        MergeIntoEmpty(s[k].entries);
        MergeSelf(s[k].entries);
      }
    }
  }

  /** Merging a dict into itself changes nothing. */
  lemma {:induction false} MergeSelf(s: map<string, Value>)
    ensures Merge(s, s) == s
    decreases Dict(s)
  {
    forall k | k in s && s[k].Dict?
      ensures Merge(s[k].entries, s[k].entries) == s[k].entries
    {
      MergeSelf(s[k].entries);
    }
  }

  /** Merging into an empty dict yields the source; merging nothing keeps the target. */
  lemma MergeIntoEmpty(s: map<string, Value>)
    ensures Merge(map[], s) == s
  {
  }

  lemma MergeNothing(t: map<string, Value>)
    ensures Merge(t, map[]) == t
  {
  }

  /** The part of `s` whose keys are in `done`. */
  function Restrict(s: map<string, Value>, done: set<string>): (r: map<string, Value>)
    ensures r.Keys == s.Keys * done
  {
    map k | k in s && k in done :: s[k]
  }

  /** Handling one more source key extends the partial merge by that key. */
  lemma MergeStep(t: map<string, Value>, s: map<string, Value>, done: set<string>, k: string)
    requires k in s && k !in done
    ensures Merge(t, Restrict(s, done + {k})) ==
      Merge(t, Restrict(s, done))[k := MergeAt(Merge(t, Restrict(s, done)), k, s[k])]
  {
    var before := Merge(t, Restrict(s, done));
    assert k in t ==> before[k] == t[k];
    assert k in before <==> k in t;
  }

  /**
   * `_update_dict_recursive(target, source)` on a section object: every
   * source key is handled in turn, and the section ends up holding the
   * merge of its old entries and the source.
   */
  method UpdateRecursive(target: Section, source: map<string, Value>)
    modifies target
    ensures target.entries == Merge(old(target.entries), source)
  {
    ghost var start := target.entries;
    ghost var done: set<string> := {};
    var todo := source.Keys;
    while todo != {}
      invariant todo <= source.Keys && done == source.Keys - todo
      invariant target.entries == Merge(start, Restrict(source, done))
      decreases todo
    {
      var k :| k in todo;
      MergeStep(start, source, done, k);
      var v := source[k];
      if k in target.entries && target.entries[k].Dict? && v.Dict? {
        target.entries := target.entries[k := Dict(Merge(target.entries[k].entries, v.entries))];
      } else {
        target.entries := target.entries[k := v];
      }
      todo := todo - {k};
      done := done + {k};
    }
    assert Restrict(source, done) == source;
  }

  /** A configuration manager: section name to section object. */
  class Config {
    var sections: map<string, Section>
    const configPath: Option<string>

    /** Distinct section names never share a section object. */
    ghost predicate Valid()
      reads this
    {
      Separate(sections)
    }

    /**
     * `Config(config_path)` as written: the top-level map is copied, but
     * the section objects are those of `defaults`. Loading the file at
     * `config_path` is not part of this model.
     */
    constructor (defaults: map<string, Section>, configPath: Option<string>)
      requires Separate(defaults)
      ensures Valid() && sections == defaults && this.configPath == configPath
    {
      sections := defaults;
      this.configPath := configPath;
    }

    /** A configuration whose sections are its own copies of the defaults. */
    constructor Isolated(defaults: map<string, Section>, configPath: Option<string>)
      ensures Valid() && Contents(sections) == Contents(defaults) && this.configPath == configPath
      ensures forall s :: s in sections ==> fresh(sections[s])
    {
      var copies := CopySections(defaults);
      sections := copies;
      this.configPath := configPath;
    }

    /**
     * `get(section, key)`: nothing for a missing section, the whole section
     * when no key is given, nothing for a missing key, else the stored value.
     */
    function Get(section: string, key: Option<string>): (r: Lookup)
      reads this, sections.Values
      ensures r.Missing? <==> section !in sections || (key.Some? && key.value !in sections[section].entries)
      ensures r.WholeSection? <==> section in sections && key.None?
      ensures r.WholeSection? ==> r.section == sections[section]
      ensures r.Found? ==> key.Some? && section in sections && key.value in sections[section].entries &&
                           r.value == sections[section].entries[key.value]
    {
      if section !in sections then Missing
      else if key.None? then WholeSection(sections[section])
      else if key.value !in sections[section].entries then Missing
      else Found(sections[section].entries[key.value])
    }

    /**
     * `set(section, key, value)`: the section is created empty when absent,
     * then the key is stored in it; no other section and no other key changes.
     */
    method Set(section: string, key: string, value: Value)
      requires Valid()
      modifies this, if section in sections then {sections[section]} else {}
      ensures Valid() && section in sections
      ensures Get(section, Some(key)) == Found(value)
      ensures old(section in sections) ==> sections == old(sections)
      ensures old(section !in sections) ==> fresh(sections[section]) && sections == old(sections)[section := sections[section]]
      ensures sections[section].entries == old(if section in sections then sections[section].entries else map[])[key := value]
      ensures forall s :: s in old(sections) && s != section ==> sections[s].entries == old(sections[s].entries)
    {
      if section !in sections {
        var created := new Section(map[]);
        sections := sections[section := created];
      }
      sections[section].entries := sections[section].entries[key := value];
    }

    /** `get_all()`: a copy of the top-level map that shares its section objects. */
    method GetAll() returns (r: map<string, Section>)
      ensures r.Keys == sections.Keys && forall s :: s in r ==> r[s] == sections[s]
      ensures Contents(r) == Contents(sections)
    {
      r := map s | s in sections :: sections[s];
    }
  }

  /**
   * As written, a configuration shares its section objects with the
   * defaults, so `set` on an existing section rewrites the defaults too.
   */
  method SetLeaksIntoDefaults() returns (defaults: map<string, Section>, c: Config)
    ensures "voxelization" in defaults && "base_voxel_size" in defaults["voxelization"].entries
    ensures defaults["voxelization"].entries["base_voxel_size"] == Real(0.75)
    ensures Contents(defaults) != DefaultSections()
  {
    defaults := MakeDefaults();
    c := new Config(defaults, None);
    c.Set("voxelization", "base_voxel_size", Real(0.75));
  }

  /** A configuration with its own sections, after `set("voxelization", "base_voxel_size", 0.75)`; no existing object changes. */
  method IsolatedSet(defaults: map<string, Section>) returns (c: Config)
    ensures fresh(c) && c.Get("voxelization", Some("base_voxel_size")) == Found(Real(0.75))
  {
    c := new Config.Isolated(defaults, None);
    c.Set("voxelization", "base_voxel_size", Real(0.75));
  }

  /** With its own copies of the sections, `set` leaves the defaults alone. */
  method SetKeepsDefaults() returns (defaults: map<string, Section>, c: Config)
    ensures Contents(defaults) == DefaultSections()
    ensures c.Get("voxelization", Some("base_voxel_size")) == Found(Real(0.75))
  {
    defaults := MakeDefaults();
    c := IsolatedSet(defaults);
  }

  /** The process-wide `_config_instance` slot behind `get_config`. */
  class Registry {
    var instance: Option<Config>

    constructor ()
      ensures instance == None
    {
      instance := None;
    }

    /**
     * `get_config(config_path)`: the first call creates the instance from
     * the defaults and `config_path`, as written sharing the defaults'
     * section objects; every later call returns that same instance and
     * ignores its argument.
     */
    method GetConfig(defaults: map<string, Section>, configPath: Option<string>) returns (c: Config)
      requires Separate(defaults)
      modifies this
      ensures old(instance).Some? ==> c == old(instance).value && instance == old(instance)
      ensures old(instance).None? ==> fresh(c) && instance == Some(c)
      ensures old(instance).None? ==> c.Valid() && c.configPath == configPath && c.sections == defaults
    {
      if instance.None? {
        c := new Config(defaults, configPath);
        instance := Some(c);
      } else {
        c := instance.value;
      }
    }
  }

  /** Two calls to `get_config` give one object, configured by the first call's path. */
  method GetConfigTwice(reg: Registry, defaults: map<string, Section>, first: Option<string>, second: Option<string>)
      returns (a: Config, b: Config)
    requires reg.instance.None? && Separate(defaults)
    modifies reg
    ensures a == b && b.configPath == first
  {
    a := reg.GetConfig(defaults, first);
    b := reg.GetConfig(defaults, second);
  }
}
