/** The watch edges: field indexes of internal/operator/indexes.go and the event mappers of
    internal/operator/reconciler.go, against a full scan and against the graph the cycle walk follows. */
module WatchEdges {
  import opened Cascade
  import opened DependencyGraph
  import opened EpochCache
  import opened OperatorCaches
  import opened Wrappers

  /** sourceRefIndexKey and libID. */
  function IndexKey(kind: string, namespace: string, name: string): string {
    kind + "|" + namespace + "|" + name
  }

  predicate NoSeparator(s: string) { '|' !in s }

  lemma KeyChars(kind: string, namespace: string, name: string)
    ensures var key := IndexKey(kind, namespace, name);
      && key[..|kind|] == kind && key[|kind|] == '|'
      && key[|kind| + 1..|kind| + 1 + |namespace|] == namespace && key[|kind| + 1 + |namespace|] == '|'
      && key[|kind| + |namespace| + 2..] == name
  {
  }

  /** No other place of an object's key holds the separator. */
  lemma SeparatorsOf(kind: string, namespace: string, name: string, i: nat)
    requires NoSeparator(kind) && NoSeparator(namespace) && NoSeparator(name)
    requires i < |IndexKey(kind, namespace, name)| && i != |kind| && i != |kind| + 1 + |namespace|
    ensures IndexKey(kind, namespace, name)[i] != '|'
  {
    var key := IndexKey(kind, namespace, name);
    KeyChars(kind, namespace, name);
    if i < |kind| {
      assert key[i] == kind[i] && kind[i] in kind;
    } else if i < |kind| + 1 + |namespace| {
      assert key[i] == namespace[i - |kind| - 1] && namespace[i - |kind| - 1] in namespace;
    } else {
      assert key[i] == name[i - |kind| - |namespace| - 2] && name[i - |kind| - |namespace| - 2] in name;
    }
  }

  /** A reference, whatever it holds, has an object's key only if it names that object. */
  lemma IndexKeyInjective(kind: string, namespace: string, name: string, kind': string, namespace': string,
                          name': string)
    requires NoSeparator(kind) && NoSeparator(namespace) && NoSeparator(name)
    requires IndexKey(kind, namespace, name) == IndexKey(kind', namespace', name')
    ensures kind == kind' && namespace == namespace' && name == name'
  {
    var key := IndexKey(kind, namespace, name);
    KeyChars(kind, namespace, name);
    KeyChars(kind', namespace', name');
    assert |key| == |IndexKey(kind', namespace', name')|;
    var first, second := |kind'|, |kind'| + 1 + |namespace'|;
    if first != |kind| && first != |kind| + 1 + |namespace| { SeparatorsOf(kind, namespace, name, first); }
    if second != |kind| && second != |kind| + 1 + |namespace| { SeparatorsOf(kind, namespace, name, second); }
    assert first == |kind| && second == |kind| + 1 + |namespace|;
  }

  /** A separator in the object's own name breaks this. */
  lemma SeparatorInNameCollides()
    ensures IndexKey("K", "n", "a|b") == IndexKey("K", "n|a", "b")
  {
    assert IndexKey("K", "n", "a|b") == "K|n|a|b" == IndexKey("K", "n|a", "b");
  }

  // -- the index functions ------------------------------------------------------------

  function SourceRefIDs(ref: Option<SourceRef>, ownerNs: string): seq<string> {
    if ref.None? || ref.value.kind == "" || ref.value.name == "" then []
    else [IndexKey(ref.value.kind, Default(ref.value.namespace, ownerNs), ref.value.name)]
  }

  predicate RefersTo(ref: LibraryRef, ownerNs: string, key: string) {
    ref.kind != "" && ref.name != "" && key == IndexKey(ref.kind, Default(ref.namespace, ownerNs), ref.name)
  }

  method SnippetLibraryRefIDs(id: Id, snip: Snippet) returns (keys: seq<string>)
    ensures forall key :: key in keys <==> exists ref <- snip.libraries :: RefersTo(ref, id.namespace, key)
  {
    keys := [];
    for i := 0 to |snip.libraries|
      invariant forall key :: key in keys <==> exists ref <- snip.libraries[..i] :: RefersTo(ref, id.namespace, key)
    {
      var ref := snip.libraries[i];
      assert snip.libraries[..i + 1] == snip.libraries[..i] + [ref];
      assert forall key :: (exists r <- snip.libraries[..i + 1] :: RefersTo(r, id.namespace, key)) <==>
          (exists r <- snip.libraries[..i] :: RefersTo(r, id.namespace, key)) || RefersTo(ref, id.namespace, key);
      if ref.kind == "" || ref.name == "" { continue; }
      keys := keys + [IndexKey(ref.kind, Default(ref.namespace, id.namespace), ref.name)];
    }
    assert snip.libraries[..|snip.libraries|] == snip.libraries;
  }

  /** List with MatchingFields on each of the three indexes: the objects whose index function yields the key. */
  function SnippetsBySource(c: Cluster, key: string): set<Id> {
    set id | id in c.snippets && key in SourceRefIDs(c.snippets[id].sourceRef, id.namespace)
  }

  function LibrariesBySource(c: Cluster, key: string): set<Id> {
    set id | id in c.libraries && key in SourceRefIDs(c.libraries[id].sourceRef, id.namespace)
  }

  function SnippetsByLibrary(c: Cluster, key: string): set<Id> {
    set id | id in c.snippets && exists ref <- c.snippets[id].libraries :: RefersTo(ref, id.namespace, key)
  }

  // -- the mappers --------------------------------------------------------------------

  /** Which lists fail; a failing library list loses only the indirect edges. */
  datatype ListFaults = ListFaults(direct: bool, libraries: bool, through: set<Id>)

  const NO_FAULTS := ListFaults(false, false, {})

  /** A snippet that reads one of these libraries. */
  ghost predicate ReadsThrough(c: Cluster, x: Id, libs: set<Id>) {
    exists lib <- libs :: x in SnippetsByLibrary(c, IndexKey(LIBRARY, lib.namespace, lib.name))
  }

  ghost function Enqueued(c: Cluster, key: string, faults: ListFaults): set<Id> {
    var libs := if faults.libraries then {} else LibrariesBySource(c, key) - faults.through;
    if faults.direct then {}
    else SnippetsBySource(c, key) + set x | x in c.snippets && ReadsThrough(c, x, libs)
  }

  /** The cached verdicts of these snippets are forgotten, and a walk under way for anyone may no longer store its
      own. */
  ghost predicate Dropped(before: Cache<string, int, Verdict>, after: Cache<string, int, Verdict>,
                          uids: map<Id, string>, ids: set<Id>)
    requires ids <= uids.Keys
  {
    var named := set x | x in ids && uids[x] != "";
    && after.entries == before.entries - (set x | x in named :: uids[x])
    && after.gen == before.gen + |named|
  }

  lemma DroppedNext(before: Cache<string, int, Verdict>, now: Cache<string, int, Verdict>, uids: map<Id, string>,
                    done: set<Id>, x: Id)
    requires done <= uids.Keys && x in uids && x !in done && Dropped(before, now, uids, done)
    ensures Dropped(before, if uids[x] == "" then now else Forgotten(now, uids[x]), uids, done + {x})
  {
    var named, named' := set y | y in done && uids[y] != "", set y | y in done + {x} && uids[y] != "";
    if uids[x] == "" {
      assert named' == named;
    } else {
      assert named' == named + {x};
      assert (set y | y in named' :: uids[y]) == (set y | y in named :: uids[y]) + {uids[x]};
    }
  }

  method ForgetAll(cache: CycleCache, uids: map<Id, string>, ids: set<Id>)
    requires ids <= uids.Keys
    modifies cache
    ensures Dropped(old(cache.View()), cache.View(), uids, ids)
  {
    var left := ids;
    ghost var before := cache.View();
    ghost var done: set<Id> := {};
    assert before.entries - {} == before.entries;
    while left != {}
      invariant left <= ids && done == ids - left && Dropped(before, cache.View(), uids, done)
    {
      var x :| x in left;
      DroppedNext(before, cache.View(), uids, done, x);
      cache.Forget(uids[x]);
      left, done := left - {x}, done + {x};
    }
    assert done == ids;
  }

  /** The three indexed lookups of mapFluxSource. */
  method MatchFluxSource(c: Cluster, kind: string, namespace: string, name: string, faults: ListFaults)
    returns (matched: set<Id>)
    ensures matched == Enqueued(c, IndexKey(kind, namespace, name), faults)
  {
    var key := IndexKey(kind, namespace, name);
    if faults.direct { return {}; }
    matched := SnippetsBySource(c, key);
    ghost var direct := matched;
    var items := LibrariesBySource(c, key);
    if faults.libraries { items := {}; }
    ghost var all, done := items, {};
    while items != {}
      invariant items <= all && done == (all - items) - faults.through
      invariant matched == direct + set x | x in c.snippets && ReadsThrough(c, x, done)
    {
      var lib :| lib in items;
      items := items - {lib};
      if lib in faults.through { continue; }
      var more := SnippetsByLibrary(c, IndexKey(LIBRARY, lib.namespace, lib.name));
      ghost var before := done;
      done := done + {lib};
      assert forall x :: ReadsThrough(c, x, done) <==> ReadsThrough(c, x, before) || x in more;
      matched := matched + more;
    }
  }

  /** mapFluxSource: who is enqueued, and that their verdicts are forgotten. */
  method MapFluxSource(cache: CycleCache, c: Cluster, uids: map<Id, string>, kind: string, namespace: string,
                       name: string, faults: ListFaults)
    returns (matched: set<Id>)
    requires c.snippets.Keys <= uids.Keys
    modifies cache
    ensures matched == Enqueued(c, IndexKey(kind, namespace, name), faults) && matched <= uids.Keys
    ensures Dropped(old(cache.View()), cache.View(), uids, matched)
  {
    matched := MatchFluxSource(c, kind, namespace, name, faults);
    ForgetAll(cache, uids, matched);
  }

  function LibraryMatches(c: Cluster, lib: Id, fails: bool): set<Id> {
    if fails then {} else SnippetsByLibrary(c, IndexKey(LIBRARY, lib.namespace, lib.name))
  }

  /** mapJsonnetLibrary. */
  method MapJsonnetLibrary(cache: CycleCache, c: Cluster, uids: map<Id, string>, lib: Id, fails: bool)
    returns (matched: set<Id>)
    requires c.snippets.Keys <= uids.Keys
    modifies cache
    ensures matched == LibraryMatches(c, lib, fails) && matched <= uids.Keys
    ensures Dropped(old(cache.View()), cache.View(), uids, matched)
  {
    matched := if fails then {} else SnippetsByLibrary(c, IndexKey(LIBRARY, lib.namespace, lib.name));
    ForgetAll(cache, uids, matched);
  }

  // -- against a full scan --------------------------------------------------------------

  ghost predicate Names(ref: Option<SourceRef>, ownerNs: string, kind: string, namespace: string, name: string) {
    ref.Some? && ref.value.kind == kind && Default(ref.value.namespace, ownerNs) == namespace && ref.value.name == name
  }

  ghost predicate ReadsVia(c: Cluster, x: Id, ref: LibraryRef, kind: string, namespace: string, name: string) {
    var lib := LibraryId(ref, x.namespace);
    ref.kind == LIBRARY && lib in c.libraries && Names(c.libraries[lib].sourceRef, lib.namespace, kind, namespace, name)
  }

  /** Reads the source directly or through a library that exists. */
  ghost predicate Watches(c: Cluster, x: Id, kind: string, namespace: string, name: string) {
    x in c.snippets &&
    (Names(c.snippets[x].sourceRef, x.namespace, kind, namespace, name) ||
     exists ref <- c.snippets[x].libraries :: ReadsVia(c, x, ref, kind, namespace, name))
  }

  /** Kubernetes names: not empty, and without the separator. */
  ghost predicate Named(kind: string, id: Id) {
    kind != "" && id.name != "" && NoSeparator(kind) && NoSeparator(id.namespace) && NoSeparator(id.name)
  }

  ghost predicate LibrariesNamed(c: Cluster) {
    forall lib <- c.libraries.Keys :: Named(LIBRARY, lib)
  }

  lemma SourceKeyIff(ref: Option<SourceRef>, ownerNs: string, kind: string, src: Id)
    requires Named(kind, src)
    ensures IndexKey(kind, src.namespace, src.name) in SourceRefIDs(ref, ownerNs) <==>
        Names(ref, ownerNs, kind, src.namespace, src.name)
    ensures SourceRefIDs(ref, ownerNs) == [] <==> ref.None? || ref.value.kind == "" || ref.value.name == ""
  {
    var key := IndexKey(kind, src.namespace, src.name);
    if key in SourceRefIDs(ref, ownerNs) {
      IndexKeyInjective(kind, src.namespace, src.name, ref.value.kind, Default(ref.value.namespace, ownerNs),
          ref.value.name);
    }
  }

  lemma LibraryKeyIff(ref: LibraryRef, ownerNs: string, lib: Id)
    requires Named(LIBRARY, lib)
    ensures RefersTo(ref, ownerNs, IndexKey(LIBRARY, lib.namespace, lib.name)) <==>
        ref.kind == LIBRARY && LibraryId(ref, ownerNs) == lib
  {
    if RefersTo(ref, ownerNs, IndexKey(LIBRARY, lib.namespace, lib.name)) {
      IndexKeyInjective(LIBRARY, lib.namespace, lib.name, ref.kind, Default(ref.namespace, ownerNs), ref.name);
    }
  }

  /** A library event reaches exactly the snippets that name the library, namespace defaulting included. */
  lemma LibraryEventIsFullScan(c: Cluster, lib: Id)
    requires Named(LIBRARY, lib)
    ensures LibraryMatches(c, lib, false) ==
        set x | x in c.snippets &&
                exists ref <- c.snippets[x].libraries :: ref.kind == LIBRARY && LibraryId(ref, x.namespace) == lib
  {
    var key := IndexKey(LIBRARY, lib.namespace, lib.name);
    forall x | x in c.snippets
      ensures (exists ref <- c.snippets[x].libraries :: RefersTo(ref, x.namespace, key)) <==>
          exists ref <- c.snippets[x].libraries :: ref.kind == LIBRARY && LibraryId(ref, x.namespace) == lib
    {
      forall ref
        ensures RefersTo(ref, x.namespace, key) <==> ref.kind == LIBRARY && LibraryId(ref, x.namespace) == lib {
        LibraryKeyIff(ref, x.namespace, lib);
      }
    }
  }

  lemma ThroughIff(c: Cluster, x: Id, kind: string, src: Id)
    requires Named(kind, src) && LibrariesNamed(c) && x in c.snippets
    ensures ReadsThrough(c, x, LibrariesBySource(c, IndexKey(kind, src.namespace, src.name))) <==>
        exists ref <- c.snippets[x].libraries :: ReadsVia(c, x, ref, kind, src.namespace, src.name)
  {
    var libs := LibrariesBySource(c, IndexKey(kind, src.namespace, src.name));
    if ReadsThrough(c, x, libs) {
      var lib :| lib in libs && x in SnippetsByLibrary(c, IndexKey(LIBRARY, lib.namespace, lib.name));
      var ref :| ref in c.snippets[x].libraries &&
          RefersTo(ref, x.namespace, IndexKey(LIBRARY, lib.namespace, lib.name));
      LibraryKeyIff(ref, x.namespace, lib);
      SourceKeyIff(c.libraries[lib].sourceRef, lib.namespace, kind, src);
      assert ReadsVia(c, x, ref, kind, src.namespace, src.name);
    }
    if ref :| ref in c.snippets[x].libraries && ReadsVia(c, x, ref, kind, src.namespace, src.name) {
      var lib := LibraryId(ref, x.namespace);
      LibraryKeyIff(ref, x.namespace, lib);
      SourceKeyIff(c.libraries[lib].sourceRef, lib.namespace, kind, src);
      assert lib in libs && x in SnippetsByLibrary(c, IndexKey(LIBRARY, lib.namespace, lib.name));
    }
  }

  /** A failing list loses no more than what it would have found: a snippet found directly is enqueued whatever becomes
      of the libraries, and one found through a library that could be listed whatever becomes of the others. */
  lemma FaultsLoseTheirOwn(c: Cluster, key: string, faults: ListFaults, x: Id)
    ensures !faults.direct && x in SnippetsBySource(c, key) ==> x in Enqueued(c, key, faults)
    ensures !faults.direct && !faults.libraries ==>
        forall lib <- LibrariesBySource(c, key) - faults.through ::
          x in SnippetsByLibrary(c, IndexKey(LIBRARY, lib.namespace, lib.name)) ==> x in Enqueued(c, key, faults)
    ensures x in Enqueued(c, key, faults) ==> x in Enqueued(c, key, NO_FAULTS)
  {
    assert LibrariesBySource(c, key) - {} == LibrariesBySource(c, key);
  }

  /** The three indexed lookups find exactly the snippets a scan of everything finds. */
  lemma IndexedIsFullScan(c: Cluster, kind: string, src: Id)
    requires Named(kind, src) && LibrariesNamed(c)
    ensures Enqueued(c, IndexKey(kind, src.namespace, src.name), NO_FAULTS) ==
        set x | x in c.snippets && Watches(c, x, kind, src.namespace, src.name)
  {
    var key := IndexKey(kind, src.namespace, src.name);
    assert LibrariesBySource(c, key) - {} == LibrariesBySource(c, key);
    forall x | x in c.snippets
      ensures x in Enqueued(c, key, NO_FAULTS) <==> Watches(c, x, kind, src.namespace, src.name)
    {
      SourceKeyIff(c.snippets[x].sourceRef, x.namespace, kind, src);
      ThroughIff(c, x, kind, src);
    }
  }

  // -- against the cycle walk -------------------------------------------------------------

  lemma ArtifactNamesIff(ref: Option<SourceRef>, ownerNs: string, src: Id)
    ensures Names(ref, ownerNs, ARTIFACT, src.namespace, src.name) <==> ExternalArtifactDep(ref, ownerNs) == Some(src)
  {
  }

  /** For ExternalArtifacts the watch follows the very edges the cycle walk follows, namespace defaulting included:
      what a publication wakes is the snippet's dependents in the graph. */
  lemma WatchFollowsGraph(c: Cluster, src: Id)
    requires Named(ARTIFACT, src) && LibrariesNamed(c)
    ensures Enqueued(c, IndexKey(ARTIFACT, src.namespace, src.name), NO_FAULTS) == Dependents(GraphOf(c), src)
  {
    IndexedIsFullScan(c, ARTIFACT, src);
    forall x | x in c.snippets
      ensures Watches(c, x, ARTIFACT, src.namespace, src.name) <==> src in Deps(c, x, c.snippets[x])
    {
      DepsMembers(c, x, c.snippets[x], src);
      ArtifactNamesIff(c.snippets[x].sourceRef, x.namespace, src);
      forall ref
        ensures ReadsVia(c, x, ref, ARTIFACT, src.namespace, src.name) <==> LibraryDep(c, ref, x.namespace) == Some(src)
      {
        var lib := LibraryId(ref, x.namespace);
        if lib in c.libraries { ArtifactNamesIff(c.libraries[lib].sourceRef, lib.namespace, src); }
      }
    }
  }
}
