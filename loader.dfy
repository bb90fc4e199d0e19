/** internal/loader/loader.go: turns a directory tree into documents. The
    walk is the sequence of `WalkDir` callbacks for the directory; a file that
    cannot be read or parsed is recorded and skipped. */
module Loader {
  import opened Wrappers
  import opened Text
  import opened Fs
  import opened Parser

  /** The callback's filter: a non-directory whose lower-cased name ends in ".md". */
  predicate Eligible(e: WalkEntry) {
    e.File? && HasSuffix(ToLower(e.name), ".md")
  }

  /** Eligibility ignores the case of the extension: ".md", ".MD", ".Md" and
      ".mD" all qualify, and nothing else does. */
  lemma EligibleNameIgnoresCase(e: WalkEntry)
    requires e.File?
    ensures Eligible(e) <==>
      var n := e.name;
      |n| >= 3 && n[|n| - 3] == '.' && (n[|n| - 2] == 'm' || n[|n| - 2] == 'M') &&
      (n[|n| - 1] == 'd' || n[|n| - 1] == 'D')
  {
    var n := e.name;
    if |n| >= 3 {
      var l := ToLower(n);
      assert l[|l| - 3..] == [l[|l| - 3], l[|l| - 2], l[|l| - 1]];
    }
  }

  /** What `parser.ParseFile` makes of an eligible entry. */
  function ParseEntry(e: WalkEntry, source: Source, yaml: FrontmatterDecoder): Result<Document>
    requires e.File?
  {
    ParseFileResult(e.path, e.content, source, yaml)
  }

  /** The documents the callback appends for the entries of `walk`. */
  function Loaded(walk: seq<WalkEntry>, source: Source, yaml: FrontmatterDecoder): seq<Document>
    decreases |walk|
  {
    if walk == [] then []
    else
      var e := walk[|walk| - 1];
      var init := Loaded(walk[..|walk| - 1], source, yaml);
      if Eligible(e) && ParseEntry(e, source, yaml).Success? then init + [ParseEntry(e, source, yaml).value]
      else init
  }

  /** The messages the callback records for the entries of `walk`. */
  function Errors(walk: seq<WalkEntry>, source: Source, yaml: FrontmatterDecoder): seq<string>
    decreases |walk|
  {
    if walk == [] then []
    else
      var e := walk[|walk| - 1];
      var init := Errors(walk[..|walk| - 1], source, yaml);
      if e.WalkError? then init + ["error accessing path " + e.path + ": " + e.err]
      else if Eligible(e) && ParseEntry(e, source, yaml).Failure? then
        init + ["failed to parse " + e.path + ": " + ParseEntry(e, source, yaml).error]
      else init
  }

  /** The result of `loadDocs(dir, source)`. */
  function LoadedDocs(fs: FileSystem, dir: string, source: Source, yaml: FrontmatterDecoder): (r: Result<seq<Document>>)
    ensures Lookup(fs, dir).Absent? ==> r == Success([])
    ensures r.Failure? <==> Lookup(fs, dir).StatError?
    ensures r.Failure? ==> r.error == "failed to stat directory " + dir + ": " + Lookup(fs, dir).err
    ensures Lookup(fs, dir).Present? ==> r == Success(Loaded(Lookup(fs, dir).walk, source, yaml))
  {
    match Lookup(fs, dir)
    case Absent => Success([])
    case StatError(e) => Failure("failed to stat directory " + dir + ": " + e)
    case Present(_, walk, _) => Success(Loaded(walk, source, yaml))
  }

  /** `loadDocs`: the stat check, then the walk. The messages the callback
      collects (and the source then discards) are `loadErrors`. The callback
      never returns an error, so the "failed to walk directory" exit of the
      source cannot be taken and is not modelled. */
  method LoadDocs(fs: FileSystem, dir: string, source: Source, yaml: FrontmatterDecoder)
    returns (r: Result<seq<Document>>, ghost loadErrors: seq<string>)
    ensures r == LoadedDocs(fs, dir, source, yaml)
    ensures loadErrors == if Lookup(fs, dir).Present? then Errors(Lookup(fs, dir).walk, source, yaml) else []
  {
    loadErrors := [];
    var node := Lookup(fs, dir);
    if node.Absent? {
      return Success([]), loadErrors;
    } else if node.StatError? {
      return Failure("failed to stat directory " + dir + ": " + node.err), loadErrors;
    }
    var walk := node.walk;
    var docs: seq<Document> := [];
    for i := 0 to |walk|
      invariant docs == Loaded(walk[..i], source, yaml)
      invariant loadErrors == Errors(walk[..i], source, yaml)
    {
      assert walk[..i + 1][..i] == walk[..i];
      var e := walk[i];
      if e.WalkError? {
        loadErrors := loadErrors + ["error accessing path " + e.path + ": " + e.err];
      } else if e.Dir? {
      } else if !HasSuffix(ToLower(e.name), ".md") {
      } else {
        var doc := ParseFile(e.path, e.content, source, yaml);
        if doc.Failure? {
          loadErrors := loadErrors + ["failed to parse " + e.path + ": " + doc.error];
        } else {
          docs := docs + [doc.value];
        }
      }
    }
    assert walk[..|walk|] == walk;
    return Success(docs), loadErrors;
  }

  /** `LoadGlobalDocs`. */
  method LoadGlobalDocs(fs: FileSystem, configDir: string, yaml: FrontmatterDecoder)
    returns (r: Result<seq<Document>>)
    ensures r == LoadedDocs(fs, configDir, SourceGlobal, yaml)
    ensures r.Success? ==> forall d :: d in r.value ==> d.source == SourceGlobal
  {
    ghost var loadErrors;
    r, loadErrors := LoadDocs(fs, configDir, SourceGlobal, yaml);
    if Lookup(fs, configDir).Present? {
      LoadedSource(Lookup(fs, configDir).walk, SourceGlobal, yaml);
    }
  }

  /** `LoadProjectDocs`. */
  method LoadProjectDocs(fs: FileSystem, projectDir: string, yaml: FrontmatterDecoder)
    returns (r: Result<seq<Document>>)
    ensures r == LoadedDocs(fs, projectDir, SourceProjectScoped, yaml)
    ensures r.Success? ==> forall d :: d in r.value ==> d.source == SourceProjectScoped
  {
    ghost var loadErrors;
    r, loadErrors := LoadDocs(fs, projectDir, SourceProjectScoped, yaml);
    if Lookup(fs, projectDir).Present? {
      LoadedSource(Lookup(fs, projectDir).walk, SourceProjectScoped, yaml);
    }
  }

  /** The entries `WalkDir` reports for a root that may not exist: for a
      missing or unreadable root, a single error for the root itself. */
  function RootWalk(node: Node, dir: string): seq<WalkEntry> {
    match node
    case Absent => [WalkError(dir, "lstat " + dir + ": no such file or directory")]
    case StatError(e) => [WalkError(dir, e)]
    case Present(_, walk, _) => walk
  }

  /** `GetLoadErrors`: the same walk, keeping only the messages. */
  method GetLoadErrors(fs: FileSystem, dir: string, source: Source, yaml: FrontmatterDecoder)
    returns (loadErrors: seq<string>)
    ensures loadErrors == Errors(RootWalk(Lookup(fs, dir), dir), source, yaml)
  {
    var walk := RootWalk(Lookup(fs, dir), dir);
    loadErrors := [];
    for i := 0 to |walk|
      invariant loadErrors == Errors(walk[..i], source, yaml)
    {
      assert walk[..i + 1][..i] == walk[..i];
      var e := walk[i];
      if e.WalkError? {
        loadErrors := loadErrors + ["error accessing path " + e.path + ": " + e.err];
      } else if !e.Dir? && HasSuffix(ToLower(e.name), ".md") {
        var doc := ParseFile(e.path, e.content, source, yaml);
        if doc.Failure? {
          loadErrors := loadErrors + ["failed to parse " + e.path + ": " + doc.error];
        }
      }
    }
    assert walk[..|walk|] == walk;
  }

  // ---------------------------------------------------------------- properties of the walk

  /** Every loaded document carries the requested source and comes from an
      eligible entry that parsed to it. */
  lemma {:induction false} LoadedSource(walk: seq<WalkEntry>, source: Source, yaml: FrontmatterDecoder)
    ensures forall d :: d in Loaded(walk, source, yaml) ==> d.source == source
    ensures forall d :: d in Loaded(walk, source, yaml) ==>
      exists i :: 0 <= i < |walk| && Eligible(walk[i]) && ParseEntry(walk[i], source, yaml) == Success(d)
    decreases |walk|
  {
    if walk != [] {
      var init := walk[..|walk| - 1];
      LoadedSource(init, source, yaml);
      forall d | d in Loaded(walk, source, yaml)
        ensures exists i :: 0 <= i < |walk| && Eligible(walk[i]) && ParseEntry(walk[i], source, yaml) == Success(d)
      {
        if d in Loaded(init, source, yaml) {
          var i :| 0 <= i < |init| && Eligible(init[i]) && ParseEntry(init[i], source, yaml) == Success(d);
          assert walk[i] == init[i];
        } else {
          assert ParseEntry(walk[|walk| - 1], source, yaml) == Success(d);
        }
      }
    }
  }

  /** The walk splits: what a prefix of the walk loads is kept, and later
      entries are still loaded, whatever happened before them. */
  lemma {:induction false} LoadedAppend(a: seq<WalkEntry>, b: seq<WalkEntry>, source: Source, yaml: FrontmatterDecoder)
    ensures Loaded(a + b, source, yaml) == Loaded(a, source, yaml) + Loaded(b, source, yaml)
    ensures Errors(a + b, source, yaml) == Errors(a, source, yaml) + Errors(b, source, yaml)
    decreases |b|
  {
    if b != [] {
      var n := |b| - 1;
      assert (a + b)[..|a + b| - 1] == a + b[..n];
      LoadedAppend(a, b[..n], source, yaml);
    } else {
      assert a + b == a;
    }
  }

  /** An entry that is not eligible, or whose parse fails, adds no document. */
  lemma SkippedEntry(a: seq<WalkEntry>, e: WalkEntry, b: seq<WalkEntry>, source: Source, yaml: FrontmatterDecoder)
    requires !Eligible(e) || ParseEntry(e, source, yaml).Failure?
    ensures Loaded(a + [e] + b, source, yaml) == Loaded(a, source, yaml) + Loaded(b, source, yaml)
  {
    LoadedAppend(a + [e], b, source, yaml);
    LoadedAppend(a, [e], source, yaml);
    assert [e][..0] == [];
  }

  /** The number of eligible entries, and of those whose parse fails. */
  function EligibleCount(walk: seq<WalkEntry>): nat
    decreases |walk|
  {
    if walk == [] then 0
    else EligibleCount(walk[..|walk| - 1]) + if Eligible(walk[|walk| - 1]) then 1 else 0
  }

  function AccessErrorCount(walk: seq<WalkEntry>): nat
    decreases |walk|
  {
    if walk == [] then 0
    else AccessErrorCount(walk[..|walk| - 1]) + if walk[|walk| - 1].WalkError? then 1 else 0
  }

  /** Every eligible entry yields exactly one document or one parse message;
      every access error yields one message. */
  lemma {:induction false} LoadedCounts(walk: seq<WalkEntry>, source: Source, yaml: FrontmatterDecoder)
    ensures |Loaded(walk, source, yaml)| + |Errors(walk, source, yaml)| == EligibleCount(walk) + AccessErrorCount(walk)
    ensures |Loaded(walk, source, yaml)| <= EligibleCount(walk)
    ensures |Errors(walk, source, yaml)| >= AccessErrorCount(walk)
    decreases |walk|
  {
    if walk != [] {
      LoadedCounts(walk[..|walk| - 1], source, yaml);
    }
  }
}
