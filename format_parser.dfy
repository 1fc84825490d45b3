/**
 * The file-format logic of the CAD parser: the extension check and the
 * dispatch of `parse_file`, the line-based entity count of STEP files, and
 * the format check of `export_to_format`. The parsers and writers themselves
 * belong to CAD and mesh libraries; a parser is an oracle here, and whether
 * the file exists and how large it is are inputs.
 */
module FormatParsing {
  import opened Wrappers
  import opened Strings

  // ---------------------------------------------------------------------
  // Paths
  // ---------------------------------------------------------------------

  /** `s.rfind(c)`: the last index of `c` in `s`, or -1. */
  function LastIndexOf(s: string, c: char): (r: int)
    ensures -1 <= r < |s| && (r >= 0 ==> s[r] == c)
    ensures forall i :: r < i < |s| ==> s[i] != c
  {
    if s == [] then -1 else if s[|s| - 1] == c then |s| - 1 else LastIndexOf(s[..|s| - 1], c)
  }

  predicate AllDots(s: string)
  {
    forall i :: 0 <= i < |s| ==> s[i] == '.'
  }

  /**
   * `os.path.splitext` on a POSIX path: the extension starts at the last
   * dot of the last path component, unless only dots precede that dot in
   * the component (a hidden file such as `.step` has no extension).
   */
  function SplitExt(path: string): (parts: (string, string))
  {
    var sepIndex := LastIndexOf(path, '/');
    var dotIndex := LastIndexOf(path, '.');
    if dotIndex > sepIndex && !AllDots(path[sepIndex + 1..dotIndex]) then (path[..dotIndex], path[dotIndex..])
    else (path, "")
  }

  /** Nothing after the last `c` is a `c`. */
  lemma NoneAfterLast(s: string, c: char, i: int)
    requires LastIndexOf(s, c) < i <= |s|
    ensures c !in s[i..]
  {
    forall k | 0 <= k < |s[i..]|
      ensures s[i..][k] != c
    {
      assert s[i..][k] == s[i + k];
    }
  }

  /** The split puts the path back together. */
  lemma SplitExtJoin(path: string)
    ensures SplitExt(path).0 + SplitExt(path).1 == path
  {
    if SplitExt(path).1 == [] {
      assert path + [] == path;
    }
  }

  /** A non-empty extension is one dot followed by neither a dot nor a separator. */
  lemma SplitExtShape(path: string)
    ensures var ext := SplitExt(path).1;
      ext == [] || (ext[0] == '.' && '.' !in ext[1..] && '/' !in ext)
  {
    var sepIndex := LastIndexOf(path, '/');
    var dotIndex := LastIndexOf(path, '.');
    if dotIndex > sepIndex && !AllDots(path[sepIndex + 1..dotIndex]) {
      NoneAfterLast(path, '.', dotIndex + 1);
      NoneAfterLast(path, '/', dotIndex);
      assert path[dotIndex..][1..] == path[dotIndex + 1..];
    }
  }

  /** The last component of `root` holds something other than dots. */
  ghost predicate HasStem(root: string)
  {
    exists i :: 0 <= i < |root| && root[i] != '.' && '/' !in root[i..]
  }

  /** Before a non-empty extension, the last component holds something other than dots. */
  lemma SplitExtStem(path: string)
    ensures SplitExt(path).1 != [] ==> HasStem(SplitExt(path).0)
  {
    var sepIndex := LastIndexOf(path, '/');
    var dotIndex := LastIndexOf(path, '.');
    if dotIndex > sepIndex && !AllDots(path[sepIndex + 1..dotIndex]) {
      var comp := path[sepIndex + 1..dotIndex];
      var j :| 0 <= j < |comp| && comp[j] != '.';
      StemWitness(path, sepIndex, dotIndex, sepIndex + 1 + j);
    }
  }

  lemma StemWitness(path: string, sepIndex: int, dotIndex: int, i: int)
    requires sepIndex == LastIndexOf(path, '/') && sepIndex < i < dotIndex <= |path| && path[i] != '.'
    ensures HasStem(path[..dotIndex])
  {
    var root := path[..dotIndex];
    NoneAfterLast(path, '/', i);
    assert root[i..] <= path[i..];
    assert root[i] != '.' && '/' !in root[i..];
  }

  /**
   * `os.path.basename`: the last component, a suffix without a separator
   * that is either the whole path or preceded by a separator.
   */
  function Basename(path: string): (name: string)
    ensures '/' !in name && |name| <= |path| && name == path[|path| - |name|..]
    ensures |name| == |path| || path[|path| - |name| - 1] == '/'
  {
    path[LastIndexOf(path, '/') + 1..]
  }

  // ---------------------------------------------------------------------
  // parse_file
  // ---------------------------------------------------------------------

  /** The parser methods the extension table points to. */
  datatype Parser = StepParser | IgesParser | StlParser | ObjParser | IfcParser

  /** `supported_formats`: the seven accepted extensions and their parsers. */
  const SupportedFormats: map<string, Parser> :=
    map[".step" := StepParser, ".stp" := StepParser, ".iges" := IgesParser, ".igs" := IgesParser,
        ".stl" := StlParser, ".obj" := ObjParser, ".ifc" := IfcParser]

  /** `file_info`: the path, its last component, the extension without its dot, and the size. */
  datatype FileInfo = FileInfo(path: string, name: string, format: string, size: nat)

  /** The lower-cased extension `parse_file` looks up. */
  function FileExtension(path: string): string
  {
    ToLower(SplitExt(path).1)
  }

  /**
   * `parse_file`: a missing file raises FileNotFoundError before anything
   * else; an extension outside the table raises ValueError; otherwise the
   * parser the table names runs, its failure propagates, and its result is
   * returned with the file information.
   */
  function ParseFile<T>(path: string, fileExists: bool, size: nat, parse: (Parser, string) -> Result<T, string>)
    : (r: Result<(T, FileInfo), string>)
    ensures !fileExists ==> r == Err("FileNotFoundError")
    ensures fileExists && FileExtension(path) !in SupportedFormats ==> r == Err("ValueError")
    ensures fileExists && FileExtension(path) in SupportedFormats ==>
      var outcome := parse(SupportedFormats[FileExtension(path)], path);
      (r.Ok? <==> outcome.Ok?) &&
      (r.Err? ==> r.error == outcome.error) &&
      (r.Ok? ==> r.value.0 == outcome.value && r.value.1.path == path && r.value.1.size == size &&
                 r.value.1.name == Basename(path) && "." + r.value.1.format == FileExtension(path))
  {
    if !fileExists then Err("FileNotFoundError")
    else
      var ext := FileExtension(path);
      if ext !in SupportedFormats then Err("ValueError")
      else
        match parse(SupportedFormats[ext], path)
        case Err(e) => Err(e)
        case Ok(result) => Ok((result, FileInfo(path, Basename(path), ext[1..], size)))
  }

  /** The seven extensions share out five parsers: STEP and IGES each have two spellings. */
  lemma SharedParsers()
    ensures SupportedFormats[".step"] == SupportedFormats[".stp"] == StepParser
    ensures SupportedFormats[".iges"] == SupportedFormats[".igs"] == IgesParser
    ensures forall e :: e in SupportedFormats && SupportedFormats[e] == StepParser ==> e == ".step" || e == ".stp"
    ensures forall e :: e in SupportedFormats && SupportedFormats[e] == IgesParser ==> e == ".iges" || e == ".igs"
    ensures |SupportedFormats.Keys| == 7
  {
    assert SupportedFormats.Keys == {".step", ".stp", ".iges", ".igs", ".stl", ".obj", ".ifc"};
  }

  /**
   * A parsed file's format is one of the seven extensions without its dot,
   * and the extension is matched whatever the case of its letters.
   */
  lemma ParsedFormat<T>(path: string, fileExists: bool, size: nat, parse: (Parser, string) -> Result<T, string>)
    requires ParseFile(path, fileExists, size, parse).Ok?
    ensures ParseFile(path, fileExists, size, parse).value.1.format in {"step", "stp", "iges", "igs", "stl", "obj", "ifc"}
    ensures ToLower(SplitExt(path).1) in SupportedFormats
  {
    var info := ParseFile(path, fileExists, size, parse).value.1;
    FormatOfExtension(FileExtension(path), info.format);
  }

  lemma FormatOfExtension(ext: string, format: string)
    requires ext in SupportedFormats && "." + format == ext
    ensures format in {"step", "stp", "iges", "igs", "stl", "obj", "ifc"}
  {
    assert SupportedFormats.Keys == {".step", ".stp", ".iges", ".igs", ".stl", ".obj", ".ifc"};
    assert format == ext[1..];
  }

  /** A change of letter case in the path leaves the looked-up extension alone. */
  lemma ExtensionIgnoresCase(path: string, path': string)
    requires |path| == |path'| && forall i :: 0 <= i < |path| ==> LowerChar(path[i]) == LowerChar(path'[i])
    ensures FileExtension(path) == FileExtension(path')
  {
    LastIndexAgrees(path, path', '/');
    LastIndexAgrees(path, path', '.');
    var sepIndex := LastIndexOf(path, '/');
    var dotIndex := LastIndexOf(path, '.');
    if dotIndex > sepIndex {
      var comp := path[sepIndex + 1..dotIndex];
      var comp' := path'[sepIndex + 1..dotIndex];
      assert AllDots(comp) <==> AllDots(comp') by {
        forall k | 0 <= k < |comp|
          ensures comp[k] == '.' <==> comp'[k] == '.'
        {
          assert comp[k] == path[sepIndex + 1 + k] && comp'[k] == path'[sepIndex + 1 + k];
          LowerCharDot(path[sepIndex + 1 + k]);
          LowerCharDot(path'[sepIndex + 1 + k]);
        }
      }
    }
    var ext := SplitExt(path).1;
    var ext' := SplitExt(path').1;
    assert |ext| == |ext'|;
    forall k | 0 <= k < |ext|
      ensures ToLower(ext)[k] == ToLower(ext')[k]
    {
      assert ext[k] == path[dotIndex + k] && ext'[k] == path'[dotIndex + k];
    }
  }

  lemma LowerCharDot(c: char)
    ensures LowerChar(c) == '.' <==> c == '.'
    ensures LowerChar(c) == '/' <==> c == '/'
  {
  }

  lemma {:induction false} LastIndexAgrees(s: string, s': string, c: char)
    requires c == '.' || c == '/'
    requires |s| == |s'| && forall i :: 0 <= i < |s| ==> LowerChar(s[i]) == LowerChar(s'[i])
    ensures LastIndexOf(s, c) == LastIndexOf(s', c)
    decreases |s|
  {
    if s != [] {
      LowerCharDot(s[|s| - 1]);
      LowerCharDot(s'[|s| - 1]);
      LastIndexAgrees(s[..|s| - 1], s'[..|s| - 1], c);
    }
  }

  // ---------------------------------------------------------------------
  // _extract_step_semantics
  // ---------------------------------------------------------------------

  /** The most lines the entity count reads. */
  const MaxSemanticLines: nat := 1000

  /**
   * The category a line counts towards: it must hold `=`, and the first of
   * IFCSPACE, IFCDOOR, IFCWINDOW and IFCWALL its upper-cased text contains
   * decides.
   */
  function Category(line: string): (cat: Option<string>)
    ensures '=' !in line ==> cat == None
    ensures cat.Some? ==> cat.value in {"space", "door", "window", "wall"}
  {
    var upper := ToUpper(line);
    if '=' !in line then None
    else if Contains(upper, "IFCSPACE") then Some("space")
    else if Contains(upper, "IFCDOOR") then Some("door")
    else if Contains(upper, "IFCWINDOW") then Some("window")
    else if Contains(upper, "IFCWALL") then Some("wall")
    else None
  }

  /** The number of `lines` that count towards `cat`. */
  function CountOf(lines: seq<string>, cat: string): (n: nat)
    ensures n <= |lines|
  {
    if lines == [] then 0
    else CountOf(lines[..|lines| - 1], cat) + (if Category(lines[|lines| - 1]) == Some(cat) then 1 else 0)
  }

  /** The lines the count reads: the first thousand, or all of a shorter file. */
  function Examined(lines: seq<string>): (head: seq<string>)
    ensures |head| <= MaxSemanticLines && head <= lines
    ensures |lines| <= MaxSemanticLines ==> head == lines
  {
    if |lines| <= MaxSemanticLines then lines else lines[..MaxSemanticLines]
  }

  /**
   * `_extract_step_semantics`: the `entities` map of a STEP file. `content`
   * is the file's lines, or None when it cannot be read, which yields an
   * empty map. A category is a key only when some examined line counts
   * towards it, and then its value is the number of such lines.
   */
  method ExtractStepSemantics(content: Option<seq<string>>) returns (entities: map<string, nat>)
    ensures content.None? ==> entities == map[]
    ensures content.Some? ==> forall cat ::
      (cat in entities <==> CountOf(Examined(content.value), cat) > 0) &&
      (cat in entities ==> entities[cat] == CountOf(Examined(content.value), cat))
  {
    entities := map[];
    if content.None? {
      return;
    }
    var lines := Examined(content.value);
    var i := 0;
    while i < |lines|
      invariant 0 <= i <= |lines|
      invariant forall cat ::
        (cat in entities <==> CountOf(lines[..i], cat) > 0) &&
        (cat in entities ==> entities[cat] == CountOf(lines[..i], cat))
    {
      assert lines[..i + 1][..i] == lines[..i];
      var cat := Category(lines[i]);
      if cat.Some? {
        var previous := if cat.value in entities then entities[cat.value] else 0;
        entities := entities[cat.value := previous + 1];
      }
      i := i + 1;
    }
    assert lines[..i] == lines;
  }

  /** Every examined line counts towards at most one category, so the counts add up to at most 1000. */
  lemma {:induction false} CountsBounded(lines: seq<string>)
    ensures CountOf(lines, "space") + CountOf(lines, "door") + CountOf(lines, "window") + CountOf(lines, "wall") <= |lines|
    ensures forall cat :: cat !in {"space", "door", "window", "wall"} ==> CountOf(lines, cat) == 0
  {
    if lines != [] {
      CountsBounded(lines[..|lines| - 1]);
    }
  }

  /** What the entity count reports never exceeds 1000 lines in total. */
  lemma SemanticsBounded(lines: seq<string>)
    ensures var head := Examined(lines);
      CountOf(head, "space") + CountOf(head, "door") + CountOf(head, "window") + CountOf(head, "wall") <= MaxSemanticLines
  {
    CountsBounded(Examined(lines));
  }

  /** The category of a line does not depend on the case of its letters. */
  lemma CategoryIgnoresCase(line: string)
    ensures Category(ToLower(line)) == Category(line)
  {
    UpperOfLower(line);
    LowerKeepsEquals(line);
  }

  lemma UpperOfLower(s: string)
    ensures ToUpper(ToLower(s)) == ToUpper(s)
  {
    forall k | 0 <= k < |s|
      ensures ToUpper(ToLower(s))[k] == ToUpper(s)[k]
    {
      assert ToLower(s)[k] == LowerChar(s[k]);
    }
  }

  lemma LowerKeepsEquals(s: string)
    ensures ('=' in ToLower(s)) == ('=' in s)
  {
    if '=' in s {
      var k :| 0 <= k < |s| && s[k] == '=';
      assert ToLower(s)[k] == '=';
    }
    if '=' in ToLower(s) {
      var k :| 0 <= k < |s| && ToLower(s)[k] == '=';
      assert LowerChar(s[k]) == '=';
    }
  }

  // ---------------------------------------------------------------------
  // export_to_format
  // ---------------------------------------------------------------------

  /** The writers `export_to_format` drives; STEP is written with schema AP203. */
  datatype Writer = StlWriter(asciiMode: bool) | StepWriter(schema: string) | IgesWriter

  /**
   * `export_to_format`: the lower-cased format picks the writer; any format
   * other than stl, step or iges raises ValueError.
   */
  function ExportWriter(formatType: string): (r: Result<Writer, string>)
    ensures r.Ok? <==> ToLower(formatType) in {"stl", "step", "iges"}
    ensures r.Err? ==> r.error == "ValueError"
    ensures r.Ok? ==> (r.value.StlWriter? <==> ToLower(formatType) == "stl") &&
                      (r.value.StepWriter? <==> ToLower(formatType) == "step") &&
                      (r.value.StlWriter? ==> r.value.asciiMode) &&
                      (r.value.StepWriter? ==> r.value.schema == "AP203")
  {
    var format := ToLower(formatType);
    if format == "stl" then Ok(StlWriter(true))
    else if format == "step" then Ok(StepWriter("AP203"))
    else if format == "iges" then Ok(IgesWriter)
    else Err("ValueError")
  }

  /** The short spellings `stp` and `igs` are read but not written. */
  lemma ExportNarrowerThanParse()
    ensures ".stp" in SupportedFormats && ExportWriter("stp") == Err("ValueError")
    ensures ".igs" in SupportedFormats && ExportWriter("igs") == Err("ValueError")
    ensures ExportWriter("STEP").Ok? && ExportWriter("Stl").Ok?
  {
    assert ToLower("stp") == "stp";
    assert ToLower("igs") == "igs";
    assert ToLower("STEP") == "step";
    assert ToLower("Stl") == "stl";
  }
}
