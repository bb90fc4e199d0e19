/** internal/app/registry_loader.go: builds the registry from the two
    directories and caches it, rebuilding when the signature of the files
    (path, modification time and size of every file) changes. SHA-256 and
    its hex encoding are the parameter `hash`; the model follows the byte
    string fed to the hasher. */
module App {
  import opened Wrappers
  import opened Text
  import opened Sorting
  import opened Fs
  import opened Parser
  import opened Config
  import opened Registry
  import opened Loader

  /** The two YAML decoders the loaders use. */
  datatype Decoders = Decoders(frontmatter: FrontmatterDecoder, config: ConfigDecoder)

  // ---------------------------------------------------------------- LoadRegistry

  /** The result of `LoadRegistry`. */
  function Built(fs: FileSystem, globalDir: string, projectDir: string, dec: Decoders): (r: Result<Registry>)
    ensures r.Failure? <==>
      LoadedDocs(fs, globalDir, SourceGlobal, dec.frontmatter).Failure? ||
      LoadedDocs(fs, projectDir, SourceProjectScoped, dec.frontmatter).Failure? ||
      LoadedConfig(fs, projectDir, dec.config).Failure?
  {
    match LoadedDocs(fs, globalDir, SourceGlobal, dec.frontmatter)
    case Failure(e) => Failure("failed to load global docs: " + e)
    case Success(globalDocs) =>
      match LoadedDocs(fs, projectDir, SourceProjectScoped, dec.frontmatter)
      case Failure(e) => Failure("failed to load project docs: " + e)
      case Success(projectDocs) =>
        match LoadedConfig(fs, projectDir, dec.config)
        case Failure(e) => Failure("failed to load project config: " + e)
        case Success(cfg) => Success(Build(globalDocs, projectDocs, cfg))
  }

  /** The first failing load decides the error, in the order global
      documents, project documents, project config; when all three succeed
      the registry is `BuildRegistry` of their results. */
  lemma BuiltOutcome(fs: FileSystem, globalDir: string, projectDir: string, dec: Decoders)
    ensures var g := LoadedDocs(fs, globalDir, SourceGlobal, dec.frontmatter);
      var p := LoadedDocs(fs, projectDir, SourceProjectScoped, dec.frontmatter);
      var c := LoadedConfig(fs, projectDir, dec.config);
      var r := Built(fs, globalDir, projectDir, dec);
      (g.Failure? ==> r.Failure? && HasPrefix(r.error, "failed to load global docs: ")) &&
      (g.Success? && p.Failure? ==> r.Failure? && HasPrefix(r.error, "failed to load project docs: ")) &&
      (g.Success? && p.Success? && c.Failure? ==> r.Failure? && HasPrefix(r.error, "failed to load project config: ")) &&
      (g.Success? && p.Success? && c.Success? ==> r == Success(Build(g.value, p.value, c.value)))
  {
    var r := Built(fs, globalDir, projectDir, dec);
    if r.Failure? {
      var g := LoadedDocs(fs, globalDir, SourceGlobal, dec.frontmatter);
      var p := LoadedDocs(fs, projectDir, SourceProjectScoped, dec.frontmatter);
      if g.Failure? {
        assert r.error == "failed to load global docs: " + g.error;
      } else if p.Failure? {
        assert r.error == "failed to load project docs: " + p.error;
      } else {
        assert r.error == "failed to load project config: " + LoadedConfig(fs, projectDir, dec.config).error;
      }
    }
  }

  /** `LoadRegistry`, uncached. */
  method LoadRegistry(fs: FileSystem, globalDir: string, projectDir: string, dec: Decoders)
    returns (r: Result<Registry>)
    ensures r == Built(fs, globalDir, projectDir, dec)
  {
    var globalDocs := LoadGlobalDocs(fs, globalDir, dec.frontmatter);
    if globalDocs.Failure? {
      return Failure("failed to load global docs: " + globalDocs.error);
    }
    var projectDocs := LoadProjectDocs(fs, projectDir, dec.frontmatter);
    if projectDocs.Failure? {
      return Failure("failed to load project docs: " + projectDocs.error);
    }
    var projectConfig := LoadProjectConfig(fs, projectDir, dec.config);
    if projectConfig.Failure? {
      return Failure("failed to load project config: " + projectConfig.error);
    }
    var reg := BuildRegistry(globalDocs.value, projectDocs.value, projectConfig.value);
    return Success(reg);
  }

  // ---------------------------------------------------------------- computeSignature

  /** What one file adds to the hasher: "rel:mtime:size;". */
  function FileRecord(rel: string, info: FileInfo): string {
    rel + ":" + Decimal(info.modTime) + ":" + Decimal(info.size) + ";"
  }

  /** What the walk callback adds for the entries of `walk`; the first access
      error or `Info` error stops the walk. */
  function WalkRecords(walk: seq<WalkEntry>): Result<string>
    decreases |walk|
  {
    if walk == [] then Success("")
    else
      match WalkRecords(walk[..|walk| - 1])
      case Failure(e) => Failure(e)
      case Success(s) =>
        match walk[|walk| - 1]
        case WalkError(_, err) => Failure(err)
        case Dir(_) => Success(s)
        case File(_, _, rel, info, _) =>
          match info
          case Failure(err) => Failure(err)
          case Success(i) => Success(s + FileRecord(rel, i))
  }

  /** What one directory argument adds to the hasher. */
  function DirRecord(fs: FileSystem, dir: string): Result<string> {
    if dir == "" then Success("")
    else
      match Lookup(fs, dir)
      case Absent => Success(dir + ":missing;")
      case StatError(e) => Failure("failed to stat directory " + dir + ": " + e)
      case Present(isDir, walk, _) =>
        if !isDir then Failure("path " + dir + " is not a directory")
        else
          match WalkRecords(walk)
          case Failure(e) => Failure("failed to walk directory " + dir + ": " + e)
          case Success(s) => Success(s)
  }

  /** The whole byte string hashed for `dirs`, or the first error. */
  function SignatureInput(fs: FileSystem, dirs: seq<string>): Result<string>
    decreases |dirs|
  {
    if dirs == [] then Success("")
    else
      match SignatureInput(fs, dirs[..|dirs| - 1])
      case Failure(e) => Failure(e)
      case Success(s) =>
        match DirRecord(fs, dirs[|dirs| - 1])
        case Failure(e) => Failure(e)
        case Success(t) => Success(s + t)
  }

  /** The result of `computeSignature(dirs...)`. */
  function Signature(fs: FileSystem, dirs: seq<string>, hash: string -> string): Result<string> {
    match SignatureInput(fs, dirs)
    case Failure(e) => Failure(e)
    case Success(s) => Success(hash(s))
  }

  /** `computeSignature`: `written` is everything handed to the hasher so far. */
  method ComputeSignature(fs: FileSystem, dirs: seq<string>, hash: string -> string)
    returns (r: Result<string>)
    ensures r == Signature(fs, dirs, hash)
  {
    var written := "";
    for i := 0 to |dirs|
      invariant SignatureInput(fs, dirs[..i]) == Success(written)
    {
      assert dirs[..i + 1][..i] == dirs[..i];
      var dir := dirs[i];
      if dir == "" {
        assert written + "" == written;
        continue;
      }
      var node := Lookup(fs, dir);
      if node.Absent? {
        written := written + dir;
        written := written + ":missing;";
        assert written == SignatureInput(fs, dirs[..i]).value + (dir + ":missing;");
        continue;
      } else if node.StatError? {
        SignatureInputFailurePersists(fs, dirs, i + 1);
        return Failure("failed to stat directory " + dir + ": " + node.err);
      }
      if !node.isDir {
        SignatureInputFailurePersists(fs, dirs, i + 1);
        return Failure("path " + dir + " is not a directory");
      }
      var walked := WalkDir(node.walk);
      if walked.Failure? {
        SignatureInputFailurePersists(fs, dirs, i + 1);
        return Failure("failed to walk directory " + dir + ": " + walked.error);
      }
      written := written + walked.value;
      assert DirRecord(fs, dir) == walked;
    }
    assert dirs[..|dirs|] == dirs;
    return Success(hash(written));
  }

  /** The walk inside `computeSignature`, returning what it hands to the hasher. */
  method WalkDir(walk: seq<WalkEntry>) returns (r: Result<string>)
    ensures r == WalkRecords(walk)
  {
    var written := "";
    for i := 0 to |walk|
      invariant WalkRecords(walk[..i]) == Success(written)
    {
      assert walk[..i + 1][..i] == walk[..i];
      var e := walk[i];
      if e.WalkError? {
        WalkRecordsFailurePersists(walk, i + 1);
        return Failure(e.err);
      }
      if e.Dir? {
        continue;
      }
      if e.info.Failure? {
        WalkRecordsFailurePersists(walk, i + 1);
        return Failure(e.info.error);
      }
      var info := e.info.value;
      ghost var base := written;
      written := written + e.rel;
      written := written + ":";
      written := written + Decimal(info.modTime);
      written := written + ":";
      written := written + Decimal(info.size);
      written := written + ";";
      FileRecordWrites(base, e.rel, info);
    }
    assert walk[..|walk|] == walk;
    return Success(written);
  }

  /** The six writes for one file add its record. */
  lemma FileRecordWrites(base: string, rel: string, info: FileInfo)
    ensures base + rel + ":" + Decimal(info.modTime) + ":" + Decimal(info.size) + ";" == base + FileRecord(rel, info)
  {
  }

  lemma {:induction false} SignatureInputFailurePersists(fs: FileSystem, dirs: seq<string>, i: nat)
    requires i <= |dirs| && SignatureInput(fs, dirs[..i]).Failure?
    ensures SignatureInput(fs, dirs) == SignatureInput(fs, dirs[..i])
    decreases |dirs| - i
  {
    if i < |dirs| {
      assert dirs[..i + 1][..i] == dirs[..i];
      SignatureInputFailurePersists(fs, dirs, i + 1);
    } else {
      assert dirs[..i] == dirs;
    }
  }

  lemma {:induction false} WalkRecordsFailurePersists(walk: seq<WalkEntry>, i: nat)
    requires i <= |walk| && WalkRecords(walk[..i]).Failure?
    ensures WalkRecords(walk) == WalkRecords(walk[..i])
    decreases |walk| - i
  {
    if i < |walk| {
      assert walk[..i + 1][..i] == walk[..i];
      WalkRecordsFailurePersists(walk, i + 1);
    } else {
      assert walk[..i] == walk;
    }
  }

  /** A missing directory and an existing empty one hash different strings. */
  lemma MissingDiffersFromEmpty(fs: FileSystem, dir: string)
    requires dir != "" && Lookup(fs, dir).Absent?
    ensures DirRecord(fs, dir) == Success(dir + ":missing;")
    ensures DirRecord(fs[dir := Present(true, [Dir(dir)], Failure("is a directory"))], dir) == Success("")
  {
    assert WalkRecords([Dir(dir)]) == Success("") by {
      assert [Dir(dir)][..0] == [];
    }
  }

  lemma WalkRecordsSingle(e: WalkEntry)
    requires e.File? && e.info.Success?
    ensures WalkRecords([e]) == Success(FileRecord(e.rel, e.info.value))
  {
    assert [e][..0] == [];
    assert "" + FileRecord(e.rel, e.info.value) == FileRecord(e.rel, e.info.value);
  }

  lemma {:induction false} WalkRecordsAppend(a: seq<WalkEntry>, b: seq<WalkEntry>)
    requires WalkRecords(a + b).Success?
    ensures WalkRecords(a).Success? && WalkRecords(b).Success?
    ensures WalkRecords(a + b).value == WalkRecords(a).value + WalkRecords(b).value
    decreases |b|
  {
    if b == [] {
      assert a + b == a;
    } else {
      var n := |b| - 1;
      var e := b[n];
      assert (a + b)[..|a + b| - 1] == a + b[..n];
      assert (a + b)[|a + b| - 1] == e;
      assert b[..|b| - 1] == b[..n];
      WalkRecordsInit(a + b);
      WalkRecordsAppend(a, b[..n]);
      var s := WalkRecords(a + b[..n]).value;
      var t := WalkRecords(b[..n]).value;
      if e.File? {
        AppendAssoc(WalkRecords(a).value, t, FileRecord(e.rel, e.info.value));
      }
    }
  }

  /** A walk that succeeds succeeded up to its last entry. */
  lemma WalkRecordsInit(walk: seq<WalkEntry>)
    requires walk != [] && WalkRecords(walk).Success?
    ensures WalkRecords(walk[..|walk| - 1]).Success?
    ensures var s := WalkRecords(walk[..|walk| - 1]).value;
      var e := walk[|walk| - 1];
      !e.WalkError? && (e.File? ==> e.info.Success?) &&
      WalkRecords(walk).value == if e.File? then s + FileRecord(e.rel, e.info.value) else s
  {
  }

  lemma NoColonInDecimal(n: int)
    ensures ':' !in Decimal(n)
  {
  }

  /** In `u + ":" + x == v + ":" + y` with no colon in `v`, the colon after
      `u` cannot fall inside `v`. */
  lemma FirstColon(u: string, x: string, v: string, y: string)
    requires u + ":" + x == v + ":" + y && ':' !in v
    ensures |v| <= |u|
  {
    var s := u + ":" + x;
    assert s[|u|] == ':';
    forall k | 0 <= k < |v|
      ensures s[k] != ':'
    {
      assert s[k] == (v + ":" + y)[k] == v[k];
    }
  }

  /** Cancels a `":"`-separated decimal on the left of two equal strings. */
  lemma DecimalFieldCancel(a: int, b: int, x: string, y: string)
    requires Decimal(a) + ":" + x == Decimal(b) + ":" + y
    ensures a == b && x == y
  {
    var s := Decimal(a) + ":" + x;
    var da, db := Decimal(a), Decimal(b);
    NoColonInDecimal(a);
    NoColonInDecimal(b);
    FirstColon(da, x, db, y);
    FirstColon(db, y, da, x);
    assert da == s[..|da|] == db;
    DecimalInjective(a, b);
    assert x == s[|da| + 1..] == y;
  }

  /** Two records for the same path agree only when the modification time
      and the size agree. */
  lemma FileRecordInjective(rel: string, i: FileInfo, j: FileInfo)
    requires FileRecord(rel, i) == FileRecord(rel, j)
    ensures i == j
  {
    var s := FileRecord(rel, i);
    var t := FileRecord(rel, j);
    var x := s[|rel| + 1..];
    var y := t[|rel| + 1..];
    assert x == Decimal(i.modTime) + ":" + (Decimal(i.size) + ";");
    assert y == Decimal(j.modTime) + ":" + (Decimal(j.size) + ";");
    DecimalFieldCancel(i.modTime, j.modTime, Decimal(i.size) + ";", Decimal(j.size) + ";");
    assert Decimal(i.size) == (Decimal(i.size) + ";")[..|Decimal(i.size)|];
    assert Decimal(j.size) == (Decimal(j.size) + ";")[..|Decimal(j.size)|];
    DecimalInjective(i.size, j.size);
  }

  /** Touching one file (a new modification time or size, the rest of the
      walk unchanged) changes the string that is hashed. */
  lemma TouchChangesSignatureInput(before: seq<WalkEntry>, k: nat, info: FileInfo)
    requires k < |before| && before[k].File? && before[k].info.Success? && before[k].info.value != info
    requires WalkRecords(before).Success?
    requires WalkRecords(before[k := before[k].(info := Success(info))]).Success?
    ensures WalkRecords(before) != WalkRecords(before[k := before[k].(info := Success(info))])
  {
    var after := before[k := before[k].(info := Success(info))];
    var old_, new_ := before[k], after[k];
    assert before == before[..k] + [old_] + before[k + 1..];
    assert after == before[..k] + [new_] + before[k + 1..];
    WalkRecordsAppend(before[..k] + [old_], before[k + 1..]);
    WalkRecordsAppend(before[..k], [old_]);
    WalkRecordsAppend(before[..k] + [new_], before[k + 1..]);
    WalkRecordsAppend(before[..k], [new_]);
    assert [old_][..0] == [] && [new_][..0] == [];
    var pre := WalkRecords(before[..k]).value;
    var post := WalkRecords(before[k + 1..]).value;
    var ro := FileRecord(old_.rel, old_.info.value);
    var rn := FileRecord(new_.rel, info);
    WalkRecordsSingle(old_);
    WalkRecordsSingle(new_);
    if WalkRecords(before) == WalkRecords(after) {
      assert pre + ro + post == pre + rn + post;
      assert |ro| == |rn|;
      assert ro == (pre + ro + post)[|pre|..|pre| + |ro|] == rn;
      FileRecordInjective(old_.rel, old_.info.value, info);
    }
  }

  /** `fs` with the `k`-th walk entry of directory `d` given a new `Info`. */
  function Touch(fs: FileSystem, d: string, k: nat, info: FileInfo): (t: FileSystem)
    requires Lookup(fs, d).Present? && k < |Lookup(fs, d).walk| && Lookup(fs, d).walk[k].File?
    ensures forall x :: x != d ==> Lookup(t, x) == Lookup(fs, x)
  {
    var n := Lookup(fs, d);
    fs[d := Present(n.isDir, n.walk[k := n.walk[k].(info := Success(info))], n.content)]
  }

  /** Two strings cut at the same length split the same way. */
  lemma ConcatCancel(a: string, b: string, a': string, b': string)
    requires a + b == a' + b' && |a| == |a'|
    ensures a == a' && b == b'
  {
    assert a == (a + b)[..|a|] && a' == (a' + b')[..|a'|];
    assert b == (a + b)[|a|..] && b' == (a' + b')[|a'|..];
  }

  /** What `computeSignature(globalDir, projectDir)` hashes is the two
      directory records in turn. */
  lemma SignatureInputPair(fs: FileSystem, g: string, p: string)
    ensures SignatureInput(fs, [g, p]).Success? <==>
      DirRecord(fs, g).Success? && DirRecord(fs, p).Success?
    ensures SignatureInput(fs, [g, p]).Success? ==>
      SignatureInput(fs, [g, p]).value == DirRecord(fs, g).value + DirRecord(fs, p).value
  {
    assert [g, p][..1] == [g] && [g][..0] == [];
    if DirRecord(fs, g).Success? {
      assert SignatureInput(fs, [g]) == Success("" + DirRecord(fs, g).value);
      assert "" + DirRecord(fs, g).value == DirRecord(fs, g).value;
    }
  }

  /** Touching one file under either directory changes the whole string that
      `computeSignature` hashes, whenever both signatures are computed. */
  lemma TouchChangesSignature(fs: FileSystem, g: string, p: string, d: string, k: nat, info: FileInfo)
    requires d == g || d == p
    requires d != "" && Lookup(fs, d).Present? && k < |Lookup(fs, d).walk|
    requires Lookup(fs, d).walk[k].File? && Lookup(fs, d).walk[k].info.Success?
    requires Lookup(fs, d).walk[k].info.value != info
    requires SignatureInput(fs, [g, p]).Success?
    requires SignatureInput(Touch(fs, d, k, info), [g, p]).Success?
    ensures SignatureInput(fs, [g, p]) != SignatureInput(Touch(fs, d, k, info), [g, p])
  {
    var t := Touch(fs, d, k, info);
    var n := Lookup(fs, d);
    assert Lookup(t, d) == Present(n.isDir, n.walk[k := n.walk[k].(info := Success(info))], n.content);
    SignatureInputPair(fs, g, p);
    SignatureInputPair(t, g, p);
    TouchChangesSignatureInput(n.walk, k, info);
    var a, b := DirRecord(fs, g).value, DirRecord(fs, p).value;
    var a', b' := DirRecord(t, g).value, DirRecord(t, p).value;
    assert DirRecord(fs, d) != DirRecord(t, d);
    if SignatureInput(fs, [g, p]) == SignatureInput(t, [g, p]) {
      assert a + b == a' + b';
      if g == p {
        assert |a| == |a'|;
        ConcatCancel(a, b, a', b');
      } else if d == g {
        assert b == b';
        ConcatCancel(a, b, a', b');
      } else {
        assert a == a';
        ConcatCancel(a, b, a', b');
      }
    }
  }

  // ---------------------------------------------------------------- the cache

  /** `CachedRegistryLoader`. `cached` is `None` until the first successful
      build. The ghost field `builtFrom` is the filesystem the snapshot was
      built from. */
  class CachedRegistryLoader {
    const globalDir: string
    const projectDir: string
    const decoders: Decoders
    const hash: string -> string
    var cached: Option<Registry>
    var signature: string
    ghost var builtFrom: FileSystem

    /** The snapshot and its signature belong to the same filesystem state:
        the two fields are only ever written together. */
    ghost predicate Valid()
      reads this
    {
      cached.Some? ==>
        Built(builtFrom, globalDir, projectDir, decoders) == Success(cached.value) &&
        Signature(builtFrom, [globalDir, projectDir], hash) == Success(signature)
    }

    /** `NewCachedRegistryLoader`. */
    constructor (globalDir: string, projectDir: string, decoders: Decoders, hash: string -> string)
      ensures this.globalDir == globalDir && this.projectDir == projectDir
      ensures this.decoders == decoders && this.hash == hash
      ensures cached == None && signature == ""
      ensures Valid()
    {
      this.globalDir := globalDir;
      this.projectDir := projectDir;
      this.decoders := decoders;
      this.hash := hash;
      cached := None;
      signature := "";
      builtFrom := map[];
    }

    /** `Load`: a cache hit returns the snapshot; otherwise the registry is
        rebuilt and stored with the new signature. Either failure leaves the
        cache untouched. */
    method Load(fs: FileSystem) returns (r: Result<Registry>)
      requires Valid()
      modifies this
      ensures Valid()
      ensures var sig := Signature(fs, [globalDir, projectDir], hash);
        sig.Failure? ==>
          r == Failure(sig.error) && cached == old(cached) && signature == old(signature)
      ensures var sig := Signature(fs, [globalDir, projectDir], hash);
        sig.Success? && old(cached).Some? && old(signature) == sig.value ==>
          r == Success(old(cached).value) && cached == old(cached) && signature == old(signature)
      ensures var sig := Signature(fs, [globalDir, projectDir], hash);
        var built := Built(fs, globalDir, projectDir, decoders);
        sig.Success? && !(old(cached).Some? && old(signature) == sig.value) ==>
          if built.Failure? then
            r == Failure(built.error) && cached == old(cached) && signature == old(signature)
          else
            r == built && cached == Some(built.value) && signature == sig.value
    {
      var currentSignature := ComputeSignature(fs, [globalDir, projectDir], hash);
      if currentSignature.Failure? {
        return Failure(currentSignature.error);
      }
      if cached.Some? && signature == currentSignature.value {
        var copy := CloneRegistry(cached);
        return Success(copy.value);
      }
      var reg := LoadRegistry(fs, globalDir, projectDir, decoders);
      if reg.Failure? {
        return Failure(reg.error);
      }
      cached := Some(reg.value);
      signature := currentSignature.value;
      builtFrom := fs;
      var copy := CloneRegistry(cached);
      return Success(copy.value);
    }
  }

  /** `cloneRegistry`: a key-by-key copy; `nil` stays `nil`. */
  method CloneRegistry(src: Option<Registry>) returns (dest: Option<Registry>)
    ensures dest == src
  {
    if src.None? {
      return None;
    }
    var m := src.value;
    var copy: Registry := map[];
    var rest := m.Keys;
    while rest != {}
      invariant rest <= m.Keys
      invariant copy.Keys == m.Keys - rest
      invariant forall k :: k in copy ==> copy[k] == m[k]
      decreases |rest|
    {
      var k :| k in rest;
      copy := copy[k := m[k]];
      rest := rest - {k};
    }
    assert copy == m;
    return Some(copy);
  }

  /** Two loads over an unchanged filesystem: when the first succeeds, the
      second one is a cache hit (`hit`), so nothing is parsed again, and it
      returns the same registry, which stays cached. */
  method LoadTwice(loader: CachedRegistryLoader, fs: FileSystem)
    returns (first: Result<Registry>, second: Result<Registry>, ghost hit: bool)
    requires loader.Valid()
    modifies loader
    ensures first.Success? ==> hit && second == first && loader.cached == Some(first.value)
  {
    first := loader.Load(fs);
    // the hit test of `Load`, taken on the state the second call starts from
    hit := loader.cached.Some? &&
      Signature(fs, [loader.globalDir, loader.projectDir], loader.hash) == Success(loader.signature);
    second := loader.Load(fs);
  }

  // ---------------------------------------------------------------- DocumentsToList, SortedKeys

  /** `DocumentsToList`: the same list as `Registry.GetAll`. */
  method DocumentsToList(reg: Registry) returns (docs: seq<Document>)
    ensures docs == AllDocuments(reg)
  {
    var names := List(reg);
    docs := [];
    for i := 0 to |names|
      invariant docs == DocumentsAt(reg, names[..i])
    {
      assert names[..i + 1][..i] == names[..i];
      docs := docs + [reg[names[i]]];
    }
    assert names[..|names|] == names;
  }

  lemma StrLessOrder()
    ensures forall a, b, c :: StrLess(a, b) && StrLess(b, c) ==> StrLess(a, c)
    ensures forall a, b :: a != b ==> StrLess(a, b) || StrLess(b, a)
    ensures forall a :: !StrLess(a, a)
  {
    forall a, b, c | StrLess(a, b) && StrLess(b, c) ensures StrLess(a, c) {
      StrLessTransitive(a, b, c);
    }
    forall a, b | a != b ensures StrLess(a, b) || StrLess(b, a) {
      StrLessTotal(a, b);
    }
    forall a ensures !StrLess(a, a) {
      StrLessIrreflexive(a);
    }
  }

  /** `SortedKeys`: the keys in strictly ascending byte order. */
  method SortedKeys(reg: Registry) returns (keys: seq<string>)
    ensures forall k :: k in keys <==> k in reg
    ensures StrictlySorted(keys, StrLess)
    ensures |keys| == |reg| && Distinct(keys)
    ensures keys == SortSet(reg.Keys, StrLess)
  {
    var collected: seq<string> := [];
    var rest := reg.Keys;
    while rest != {}
      invariant rest <= reg.Keys
      invariant forall k :: k in collected ==> k in reg && k !in rest
      invariant forall k :: k in reg ==> k in rest || k in collected
      invariant Distinct(collected) && |collected| + |rest| == |reg|
      decreases |rest|
    {
      var k :| k in rest;
      collected := collected + [k];
      rest := rest - {k};
    }
    StrLessOrder();
    keys := Sort(collected, StrLess);
    forall k ensures k in keys <==> k in collected {
      assert k in keys <==> k in multiset(keys);
      assert k in collected <==> k in multiset(collected);
    }
    SortSetSorted(reg.Keys, StrLess);
    var canonical := SortSet(reg.Keys, StrLess);
    forall k ensures k in canonical <==> k in reg {
      assert k in canonical <==> k in multiset(canonical);
    }
    StrictlySortedUnique(keys, canonical, StrLess);
  }
}
