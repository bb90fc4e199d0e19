/** internal/registry/registry.go: the name-indexed set of playbooks built
    from the global and the project documents. */
module Registry {
  import opened Wrappers
  import opened Text
  import opened Sorting
  import opened Parser
  import opened Config

  type Registry = map<string, Document>

  // ---------------------------------------------------------------- BuildRegistry

  /** The skip rule of the first loop, negated: a global document goes in when
      it is required or the project config names it. */
  predicate Included(d: Document, cfg: ProjectConfig) {
    d.required || d.name in cfg.require
  }

  /** The registry after the first loop has run over `gs`. */
  function Globals(gs: seq<Document>, cfg: ProjectConfig): Registry
    decreases |gs|
  {
    if gs == [] then map[]
    else
      var d := gs[|gs| - 1];
      var r := Globals(gs[..|gs| - 1], cfg);
      if Included(d, cfg) then r[d.name := d] else r
  }

  /** `base` after the second loop has run over `ps`: every document is stored
      under its name, overwriting what was there. */
  function Overlay(base: Registry, ps: seq<Document>): Registry
    decreases |ps|
  {
    if ps == [] then base
    else
      var d := ps[|ps| - 1];
      Overlay(base, ps[..|ps| - 1])[d.name := d]
  }

  /** The registry `BuildRegistry` returns. */
  function Build(gs: seq<Document>, ps: seq<Document>, cfg: ProjectConfig): Registry {
    Overlay(Globals(gs, cfg), ps)
  }

  /** `BuildRegistry`: the two insertion loops. */
  method BuildRegistry(gs: seq<Document>, ps: seq<Document>, cfg: ProjectConfig) returns (reg: Registry)
    ensures reg == Build(gs, ps, cfg)
  {
    reg := map[];
    for i := 0 to |gs|
      invariant reg == Globals(gs[..i], cfg)
    {
      assert gs[..i + 1][..i] == gs[..i];
      var doc := gs[i];
      var listed := HasRequire(cfg, doc.name);
      if doc.required || listed {
        reg := reg[doc.name := doc];
      }
    }
    assert gs[..|gs|] == gs;
    ghost var globals := reg;
    for i := 0 to |ps|
      invariant reg == Overlay(globals, ps[..i])
    {
      assert ps[..i + 1][..i] == ps[..i];
      var doc := ps[i];
      reg := reg[doc.name := doc];
    }
    assert ps[..|ps|] == ps;
  }

  /** Some document of `ds` has the name `k`. */
  predicate NamedIn(ds: seq<Document>, k: string) {
    exists i :: 0 <= i < |ds| && ds[i].name == k
  }

  /** Some document of `gs` has the name `k` and passes the inclusion rule. */
  predicate IncludedIn(gs: seq<Document>, cfg: ProjectConfig, k: string) {
    exists i :: 0 <= i < |gs| && gs[i].name == k && Included(gs[i], cfg)
  }

  /** `ds[i]` is the last document of `ds` named `ds[i].name`. */
  predicate LastNamed(ds: seq<Document>, i: int)
    requires 0 <= i < |ds|
  {
    forall j :: i < j < |ds| ==> ds[j].name != ds[i].name
  }

  /** `gs[i]` is the last document of `gs` named `gs[i].name` that passes the
      inclusion rule. */
  predicate LastIncluded(gs: seq<Document>, cfg: ProjectConfig, i: int)
    requires 0 <= i < |gs|
  {
    Included(gs[i], cfg) &&
    forall j :: i < j < |gs| && gs[j].name == gs[i].name ==> !Included(gs[j], cfg)
  }

  lemma {:induction false} GlobalsKeys(gs: seq<Document>, cfg: ProjectConfig, k: string)
    ensures k in Globals(gs, cfg) <==> IncludedIn(gs, cfg, k)
    ensures k in Globals(gs, cfg) ==>
      exists i :: 0 <= i < |gs| && gs[i] == Globals(gs, cfg)[k] && gs[i].name == k && LastIncluded(gs, cfg, i)
    decreases |gs|
  {
    if gs != [] {
      var n := |gs| - 1;
      var init := gs[..n];
      GlobalsKeys(init, cfg, k);
      assert forall i :: 0 <= i < n ==> init[i] == gs[i];
      if gs[n].name == k && Included(gs[n], cfg) {
        assert LastIncluded(gs, cfg, n);
      } else if k in Globals(init, cfg) {
        var i :| 0 <= i < n && init[i] == Globals(init, cfg)[k] && init[i].name == k && LastIncluded(init, cfg, i);
        assert LastIncluded(gs, cfg, i);
      }
      if IncludedIn(gs, cfg, k) && !(gs[n].name == k && Included(gs[n], cfg)) {
        var i :| 0 <= i < |gs| && gs[i].name == k && Included(gs[i], cfg);
        assert i < n && init[i] == gs[i];
      }
    }
  }

  lemma {:induction false} OverlayKeys(base: Registry, ps: seq<Document>, k: string)
    ensures k in Overlay(base, ps) <==> k in base || NamedIn(ps, k)
    ensures !NamedIn(ps, k) && k in base ==> Overlay(base, ps)[k] == base[k]
    ensures NamedIn(ps, k) ==>
      exists i :: 0 <= i < |ps| && ps[i].name == k && LastNamed(ps, i) && Overlay(base, ps)[k] == ps[i]
    decreases |ps|
  {
    if ps != [] {
      var n := |ps| - 1;
      var init := ps[..n];
      OverlayKeys(base, init, k);
      assert forall i :: 0 <= i < n ==> init[i] == ps[i];
      if ps[n].name == k {
        assert LastNamed(ps, n);
      } else {
        if NamedIn(ps, k) {
          var i :| 0 <= i < |ps| && ps[i].name == k;
          assert i < n && init[i] == ps[i];
          var m :| 0 <= m < n && init[m].name == k && LastNamed(init, m) && Overlay(base, init)[k] == init[m];
          assert LastNamed(ps, m);
        }
        if NamedIn(init, k) {
          var i :| 0 <= i < n && init[i].name == k;
          assert ps[i].name == k;
        }
      }
    }
  }

  /** The key set is exactly the names of the project documents and of the
      global documents that pass the inclusion rule. */
  lemma BuildKeys(gs: seq<Document>, ps: seq<Document>, cfg: ProjectConfig, k: string)
    ensures k in Build(gs, ps, cfg) <==> NamedIn(ps, k) || IncludedIn(gs, cfg, k)
  {
    GlobalsKeys(gs, cfg, k);
    OverlayKeys(Globals(gs, cfg), ps, k);
  }

  /** A project document always goes in, and the value under its name is the
      whole of the last project document with that name. */
  lemma BuildProjectWins(gs: seq<Document>, ps: seq<Document>, cfg: ProjectConfig, i: int)
    requires 0 <= i < |ps| && LastNamed(ps, i)
    ensures ps[i].name in Build(gs, ps, cfg) && Build(gs, ps, cfg)[ps[i].name] == ps[i]
  {
    var k := ps[i].name;
    OverlayKeys(Globals(gs, cfg), ps, k);
    var m :| 0 <= m < |ps| && ps[m].name == k && LastNamed(ps, m) && Build(gs, ps, cfg)[k] == ps[m];
  }

  /** Without a project document of that name, the value under a name is the
      last global document with that name that passes the inclusion rule. */
  lemma BuildGlobalKept(gs: seq<Document>, ps: seq<Document>, cfg: ProjectConfig, i: int)
    requires 0 <= i < |gs| && LastIncluded(gs, cfg, i) && !NamedIn(ps, gs[i].name)
    ensures gs[i].name in Build(gs, ps, cfg) && Build(gs, ps, cfg)[gs[i].name] == gs[i]
  {
    var k := gs[i].name;
    GlobalsKeys(gs, cfg, k);
    OverlayKeys(Globals(gs, cfg), ps, k);
    var m :| 0 <= m < |gs| && gs[m] == Globals(gs, cfg)[k] && gs[m].name == k && LastIncluded(gs, cfg, m);
  }

  /** A global document that is not required, not named by the config and not
      shadowed by a project document does not appear. */
  lemma BuildExcludesOptional(gs: seq<Document>, ps: seq<Document>, cfg: ProjectConfig, k: string)
    requires forall i :: 0 <= i < |gs| && gs[i].name == k ==> !gs[i].required
    requires k !in cfg.require && !NamedIn(ps, k)
    ensures k !in Build(gs, ps, cfg)
  {
    BuildKeys(gs, ps, cfg, k);
  }

  /** Every value is stored under its own name. */
  lemma BuildValuesNamed(gs: seq<Document>, ps: seq<Document>, cfg: ProjectConfig, k: string)
    requires k in Build(gs, ps, cfg)
    ensures Build(gs, ps, cfg)[k].name == k
  {
    GlobalsKeys(gs, cfg, k);
    OverlayKeys(Globals(gs, cfg), ps, k);
  }

  lemma UpdateCard(r: Registry, k: string, d: Document)
    ensures |r[k := d]| <= |r| + 1
  {
    assert r[k := d].Keys == r.Keys + {k};
  }

  lemma {:induction false} GlobalsCard(gs: seq<Document>, cfg: ProjectConfig)
    ensures |Globals(gs, cfg)| <= |gs|
    decreases |gs|
  {
    if gs != [] {
      GlobalsCard(gs[..|gs| - 1], cfg);
      UpdateCard(Globals(gs[..|gs| - 1], cfg), gs[|gs| - 1].name, gs[|gs| - 1]);
    }
  }

  lemma {:induction false} OverlayCard(base: Registry, ps: seq<Document>)
    ensures |Overlay(base, ps)| <= |base| + |ps|
    decreases |ps|
  {
    if ps != [] {
      OverlayCard(base, ps[..|ps| - 1]);
      UpdateCard(Overlay(base, ps[..|ps| - 1]), ps[|ps| - 1].name, ps[|ps| - 1]);
    }
  }

  /** There are at most as many entries as documents, and none for no documents. */
  lemma BuildCount(gs: seq<Document>, ps: seq<Document>, cfg: ProjectConfig)
    ensures Count(Build(gs, ps, cfg)) <= |gs| + |ps|
  {
    GlobalsCard(gs, cfg);
    OverlayCard(Globals(gs, cfg), ps);
  }

  // ---------------------------------------------------------------- Get, Has, Count

  /** `Registry.Get`: the stored document, unchanged, when the name is a key. */
  function Get(r: Registry, name: string): (d: Option<Document>)
    ensures d.Some? <==> name in r
    ensures d.Some? ==> d.value == r[name]
  {
    if name in r then Some(r[name]) else None
  }

  /** `Registry.Has` agrees with `Get`. */
  function Has(r: Registry, name: string): (b: bool)
    ensures b <==> Get(r, name).Some?
  {
    name in r
  }

  /** `Registry.Count`: the number of keys. */
  function Count(r: Registry): (n: nat)
    ensures n == 0 <==> r == map[]
  {
    |r|
  }

  // ---------------------------------------------------------------- List, GetAll

  /** An element of the sort in `List`. */
  datatype Entry = Entry(name: string, sortKey: string)

  /** The comparison handed to `sort.Slice`: by sort key, then by name. */
  predicate EntryLess(a: Entry, b: Entry) {
    if a.sortKey == b.sortKey then StrLess(a.name, b.name) else StrLess(a.sortKey, b.sortKey)
  }

  lemma EntryLessOrder()
    ensures forall a, b, c :: EntryLess(a, b) && EntryLess(b, c) ==> EntryLess(a, c)
    ensures forall a, b :: a != b ==> EntryLess(a, b) || EntryLess(b, a)
    ensures forall a :: !EntryLess(a, a)
  {
    forall a, b, c | EntryLess(a, b) && EntryLess(b, c) ensures EntryLess(a, c) {
      if a.sortKey == b.sortKey && b.sortKey == c.sortKey {
        StrLessTransitive(a.name, b.name, c.name);
      } else if a.sortKey == b.sortKey {
        assert StrLess(b.sortKey, c.sortKey);
      } else if b.sortKey == c.sortKey {
        assert StrLess(a.sortKey, b.sortKey);
      } else {
        StrLessTransitive(a.sortKey, b.sortKey, c.sortKey);
        if a.sortKey == c.sortKey {
          StrLessIrreflexive(a.sortKey);
        }
      }
    }
    forall a, b | a != b ensures EntryLess(a, b) || EntryLess(b, a) {
      if a.sortKey == b.sortKey {
        StrLessTotal(a.name, b.name);
      } else {
        StrLessTotal(a.sortKey, b.sortKey);
      }
    }
    forall a ensures !EntryLess(a, a) {
      StrLessIrreflexive(a.name);
    }
  }

  /** The sort key `List` computes for a name; `filepath.Base` never returns
      "", so the fallback to the name never applies. */
  function SortKey(r: Registry, name: string): (key: string)
    ensures key != ""
    ensures name in r && r[name].filePath == "" ==> key == "."
  {
    if name in r then Base(r[name].filePath) else "."
  }

  function EntryOf(r: Registry, name: string): Entry {
    Entry(name, SortKey(r, name))
  }

  /** The order of `List` on names: by `filepath.Base` of the file path, then
      by name. */
  function KeyOrder(r: Registry): (string, string) -> bool {
    (a: string, b: string) => EntryLess(EntryOf(r, a), EntryOf(r, b))
  }

  lemma KeyOrderIsStrictTotal(r: Registry)
    ensures forall a, b, c :: KeyOrder(r)(a, b) && KeyOrder(r)(b, c) ==> KeyOrder(r)(a, c)
    ensures forall a, b :: a != b ==> KeyOrder(r)(a, b) || KeyOrder(r)(b, a)
    ensures forall a :: !KeyOrder(r)(a, a)
  {
    EntryLessOrder();
    forall a, b | a != b ensures KeyOrder(r)(a, b) || KeyOrder(r)(b, a) {
      assert EntryOf(r, a) != EntryOf(r, b);
    }
  }

  /** The names `List` returns: the keys, each once, in `KeyOrder`. */
  ghost function Listing(r: Registry): (names: seq<string>)
    ensures |names| == |r| && Distinct(names)
    ensures forall n :: n in names <==> n in r
  {
    KeyOrderIsStrictTotal(r);
    SortSetSorted(r.Keys, KeyOrder(r));
    SortedDistinct(SortSet(r.Keys, KeyOrder(r)), KeyOrder(r));
    var names := SortSet(r.Keys, KeyOrder(r));
    assert forall n :: n in names <==> n in multiset(names);
    assert |names| == |multiset(names)| == |multiset(r.Keys)| == |r.Keys|;
    names
  }

  lemma ListingSorted(r: Registry)
    ensures StrictlySorted(Listing(r), KeyOrder(r))
  {
    KeyOrderIsStrictTotal(r);
    SortSetSorted(r.Keys, KeyOrder(r));
  }

  /** Any duplicate-free ordering of the keys in `KeyOrder` is `Listing(r)`. */
  lemma ListingUnique(r: Registry, names: seq<string>)
    requires forall n :: n in names <==> n in r
    requires StrictlySorted(names, KeyOrder(r))
    ensures names == Listing(r)
  {
    KeyOrderIsStrictTotal(r);
    ListingSorted(r);
    StrictlySortedUnique(names, Listing(r), KeyOrder(r));
  }

  /** `Registry.List`: collects one entry per key, sorts the entries and
      copies their names out. Whatever order the map is visited in, the result
      is `Listing(r)`. */
  method List(r: Registry) returns (names: seq<string>)
    ensures names == Listing(r)
    ensures forall n :: n in names <==> n in r
    ensures |names| == |r| && Distinct(names)
    ensures forall i, j :: 0 <= i < j < |names| ==> EntryLess(EntryOf(r, names[i]), EntryOf(r, names[j]))
  {
    var entries := CollectEntries(r);
    EntryLessOrder();
    var sorted := Sort(entries, EntryLess);
    names := [];
    for i := 0 to |sorted|
      invariant |names| == i
      invariant forall k :: 0 <= k < i ==> names[k] == sorted[k].name
    {
      names := names + [sorted[i].name];
    }
    SortedEntriesGiveListing(r, entries, sorted, names);
  }

  /** The first loop of `List`: one entry per key, visited in an unspecified order. */
  method CollectEntries(r: Registry) returns (entries: seq<Entry>)
    ensures forall e :: e in entries ==> e.name in r && e == EntryOf(r, e.name)
    ensures forall n :: n in r ==> EntryOf(r, n) in entries
    ensures Distinct(entries)
  {
    entries := [];
    var rest := r.Keys;
    while rest != {}
      invariant rest <= r.Keys
      invariant forall e :: e in entries ==> e.name in r && e.name !in rest && e == EntryOf(r, e.name)
      invariant forall n :: n in r ==> n in rest || EntryOf(r, n) in entries
      invariant Distinct(entries)
      decreases |rest|
    {
      var name :| name in rest;
      var doc := r[name];
      var sortKey := Base(doc.filePath);
      if sortKey == "" {
        sortKey := name;
      }
      entries := entries + [Entry(name, sortKey)];
      rest := rest - {name};
    }
  }

  lemma SortedEntriesGiveListing(r: Registry, entries: seq<Entry>, sorted: seq<Entry>, names: seq<string>)
    requires forall e :: e in entries ==> e.name in r && e == EntryOf(r, e.name)
    requires forall n :: n in r ==> EntryOf(r, n) in entries
    requires multiset(sorted) == multiset(entries) && StrictlySorted(sorted, EntryLess)
    requires |names| == |sorted| && forall k :: 0 <= k < |names| ==> names[k] == sorted[k].name
    ensures names == Listing(r)
    ensures forall i, j :: 0 <= i < j < |names| ==> EntryLess(EntryOf(r, names[i]), EntryOf(r, names[j]))
  {
    forall k | 0 <= k < |names| ensures sorted[k] == EntryOf(r, names[k]) && names[k] in r {
      assert sorted[k] in multiset(entries);
    }
    forall n | n in r ensures n in names {
      assert EntryOf(r, n) in multiset(sorted);
      var k :| 0 <= k < |sorted| && sorted[k] == EntryOf(r, n);
      assert names[k] == n;
    }
    KeyOrderIsStrictTotal(r);
    assert StrictlySorted(names, KeyOrder(r));
    ListingUnique(r, names);
  }

  /** The documents stored under `names`, in that order. */
  function DocumentsAt(r: Registry, names: seq<string>): (docs: seq<Document>)
    requires forall n :: n in names ==> n in r
    ensures |docs| == |names| && forall i :: 0 <= i < |names| ==> docs[i] == r[names[i]]
    decreases |names|
  {
    if names == [] then [] else DocumentsAt(r, names[..|names| - 1]) + [r[names[|names| - 1]]]
  }

  /** What `GetAll` returns: the documents in `List` order. */
  ghost function AllDocuments(r: Registry): seq<Document> {
    DocumentsAt(r, Listing(r))
  }

  /** `Registry.GetAll`: the documents in `List` order. */
  method GetAll(r: Registry) returns (docs: seq<Document>)
    ensures docs == AllDocuments(r)
    ensures |docs| == |r| && forall i :: 0 <= i < |docs| ==> Listing(r)[i] in r && docs[i] == r[Listing(r)[i]]
  {
    var names := List(r);
    docs := [];
    for i := 0 to |names|
      invariant docs == DocumentsAt(r, names[..i])
    {
      assert names[..i + 1][..i] == names[..i];
      docs := docs + [r[names[i]]];
    }
    assert names[..|names|] == names;
  }
}
