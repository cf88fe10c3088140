/** InMemoryImporter of internal/eval/importer.go: three memo tables that must never be noticed. */
module Importer {
  import opened GoPath
  import opened ImportRuns
  import opened ImportTree
  import opened Strings
  import opened Wrappers

  /** go-jsonnet compares these by reference. */
  class Contents {
    const body: string

    constructor (body: string)
      ensures this.body == body
    {
      this.body := body;
    }
  }

  datatype CachedImport = CachedImport(contents: Contents, foundAt: string)

  datatype Imported = Imported(contents: Contents, foundAt: string)

  function BodyOf(t: Tree, loc: Location): string
    requires loc.path in Root(t, loc.alias)
  {
    Root(t, loc.alias)[loc.path]
  }

  /** A file's one Contents instance holds its bytes. */
  ghost predicate ContentsOk(t: Tree, locs: map<string, Location>, contents: map<string, Contents>) {
    forall f <- contents.Keys :: f in locs && InTree(t, locs[f]) && contents[f].body == BodyOf(t, locs[f])
  }

  /** A cached entry is the run's answer to the pair its key was made of. */
  ghost predicate EntryOk(t: Tree, m: Memo, contents: map<string, Contents>, key: string, q: Query,
                          entry: CachedImport) {
    && Label(q.from) && key == CacheKey(q.from, q.path)
    && q in m.answers && entry.foundAt == FoundAt(t, m.answers[q])
    && entry.foundAt in contents && contents[entry.foundAt] == entry.contents
  }

  /** The cache holds the run's answers and nothing else. */
  ghost predicate CacheOk(t: Tree, m: Memo, contents: map<string, Contents>, cache: map<string, CachedImport>,
                          queries: map<string, Query>)
  {
    && (forall key <- cache.Keys :: key in queries && EntryOk(t, m, contents, key, queries[key], cache[key]))
    && forall q <- m.answers.Keys :: CacheKey(q.from, q.path) in cache
  }

  lemma HitIsAnswer(t: Tree, m: Memo, contents: map<string, Contents>, cache: map<string, CachedImport>,
                    queries: map<string, Query>, from: string, path: string)
    requires Encodable(t) && TablesOk(t, m) && ContentsOk(t, m.locs, contents) &&
        CacheOk(t, m, contents, cache, queries)
    requires Label(from) && CacheKey(from, path) in cache
    ensures var q, entry := Query(from, path), cache[CacheKey(from, path)];
      && q in m.answers && InTree(t, m.answers[q]) && entry.foundAt == FoundAt(t, m.answers[q])
      && entry.foundAt in contents && contents[entry.foundAt] == entry.contents
      && entry.contents.body == BodyOf(t, m.answers[q])
  {
    var key := CacheKey(from, path);
    assert EntryOk(t, m, contents, key, queries[key], cache[key]);
    CacheKeyInjective(from, path, queries[key].from, queries[key].path);
    FoundAtInjective(t, m.answers[Query(from, path)], m.locs[cache[key].foundAt]);
  }

  lemma ContentsStayOk(t: Tree, m: Memo, contents: map<string, Contents>, loc: Location, c: Contents)
    requires Encodable(t) && TablesOk(t, m) && ContentsOk(t, m.locs, contents) && InTree(t, loc) &&
        c.body == BodyOf(t, loc)
    ensures ContentsOk(t, m.locs[FoundAt(t, loc) := loc], contents[FoundAt(t, loc) := c])
  {
  }

  /** Storing the answer to q keeps the cache in step. */
  lemma CacheStaysOk(t: Tree, m: Memo, contents: map<string, Contents>, contents': map<string, Contents>,
                     cache: map<string, CachedImport>, queries: map<string, Query>, q: Query, entry: CachedImport)
    requires CacheOk(t, m, contents, cache, queries) && Label(q.from) && q !in m.answers && Answer(t, m, q).Ok?
    requires forall f <- contents.Keys :: f in contents' && contents'[f] == contents[f]
    requires entry.foundAt == FoundAt(t, Answer(t, m, q).value)
    requires entry.foundAt in contents' && contents'[entry.foundAt] == entry.contents
    ensures var key := CacheKey(q.from, q.path);
            CacheOk(t, Next(t, m, q), contents', cache[key := entry], queries[key := q])
  {
    var key := CacheKey(q.from, q.path);
    var m', cache', queries' := Next(t, m, q), cache[key := entry], queries[key := q];
    forall k | k in cache' ensures EntryOk(t, m', contents', k, queries'[k], cache'[k]) {
      if k != key { assert EntryOk(t, m, contents, k, queries[k], cache[k]); }
    }
  }

  lemma LocsStay(t: Tree, qs: seq<Query>, q: Query)
    requires Encodable(t)
    ensures TablesOk(t, After(t, qs))
    ensures forall f <- After(t, qs).locs.Keys ::
        f in Next(t, After(t, qs), q).locs && Next(t, After(t, qs), q).locs[f] == After(t, qs).locs[f]
  {
    TablesOkAfter(t, qs);
    TablesOkNext(t, After(t, qs), q);
    var m, m' := After(t, qs), Next(t, After(t, qs), q);
    forall f | f in m.locs ensures f in m'.locs && m'.locs[f] == m.locs[f] {
      FoundAtInjective(t, m.locs[f], m'.locs[f]);
    }
  }

  lemma KnownIsLabel(t: Tree, qs: seq<Query>, entryLabel: string, from: string)
    requires Encodable(t) && Label(entryLabel) && Known(t, entryLabel, qs, from)
    ensures TablesOk(t, After(t, qs)) && Label(from)
  {
    TablesOkAfter(t, qs);
    if from in After(t, qs).locs { FoundAtIsLabel(t, After(t, qs).locs[from]); }
  }

  lemma LeastIsFirstListed(names: seq<string>, i: nat, holders: set<string>)
    requires SortedDistinct(names) && i < |names| && names[i] in holders
    requires forall a <- holders :: a in names
    requires forall k :: 0 <= k < i ==> names[k] !in holders
    ensures Least(holders) == names[i]
  {
    var least := Least(holders);
    var j :| 0 <= j < |names| && names[j] == least;
    if j != i { LeqAntisymmetric(names[i], least); }
  }

  class InMemoryImporter {
    const tree: Tree
    ghost const entryLabel: string
    var cache: map<string, CachedImport>
    var foundAtContents: map<string, Contents>
    var locs: map<string, Location>
    var aliases: Option<seq<string>>
    ghost var queries: map<string, Query>
    ghost var asked: seq<Query>

    /** An importedFrom go-jsonnet may pass: the entry's label or an earlier foundAt. */
    ghost predicate MayAsk(from: string)
      reads this
    {
      from == entryLabel || from in locs
    }

    ghost predicate AliasesOk()
      reads this
    {
      aliases.Some? ==> aliases.value == SortedListing(tree.libraries.Keys)
    }

    ghost predicate Valid()
      reads this
    {
      && Encodable(tree) && Label(entryLabel) && AliasesOk()
      && Legal(tree, entryLabel, asked) && locs == After(tree, asked).locs && ContentsOk(tree, locs, foundAtContents)
      && CacheOk(tree, After(tree, asked), foundAtContents, cache, queries)
    }

    constructor (tree: Tree, ghost entryLabel: string)
      requires Encodable(tree) && Label(entryLabel)
      ensures Valid() && this.tree == tree && this.entryLabel == entryLabel && asked == []
    {
      this.tree := tree;
      this.entryLabel := entryLabel;
      cache, foundAtContents, locs, aliases := map[], map[], map[], None;
      queries, asked := map[], [];
    }

    function LookUp(importedFrom: string): Location
      reads this
    {
      if importedFrom in locs then locs[importedFrom] else EntryLocation(tree)
    }

    /** sync.Once over the sorted alias list. */
    method SortedAliases() returns (r: seq<string>)
      requires AliasesOk()
      modifies this`aliases
      ensures r == SortedListing(tree.libraries.Keys) && aliases == Some(r)
    {
      if aliases.None? {
        aliases := Some(SortedListing(tree.libraries.Keys));
      }
      return aliases.value;
    }

    /** Step 4: Self, then every library in alias order. */
    method Search(importedPath: string) returns (r: Result<Location, ImportError>)
      requires AliasesOk()
      modifies this`aliases
      ensures aliases == Some(SortedListing(tree.libraries.Keys))
      ensures r == VendorSearch(tree, importedPath)
    {
      var clean := Clean(importedPath);
      var names := SortedAliases();
      if clean in tree.self { return Ok(Location("", clean)); }
      for i := 0 to |names|
        invariant forall k :: 0 <= k < i ==> names[k] !in Holders(tree, clean)
      {
        if clean in tree.libraries[names[i]] {
          LeastIsFirstListed(names, i, Holders(tree, clean));
          return Ok(Location(names[i], clean));
        }
      }
      assert forall a :: a in Holders(tree, clean) ==> a in names;
      assert Holders(tree, clean) == {};
      return Err(NoMatch(importedPath));
    }

    /** record: names a resolved file and remembers where it lives. */
    method Record(loc: Location) returns (foundAt: string)
      modifies this`locs
      ensures foundAt == FoundAt(tree, loc) && locs == old(locs)[foundAt := loc]
    {
      foundAt := loc.path;
      if loc.alias != "" {
        foundAt := loc.alias + "/" + loc.path;
        if foundAt in tree.self { foundAt := "\0" + foundAt; }
      }
      locs := locs[foundAt := loc];
    }

    /** resolve, step by step. */
    method ResolveImport(importedFrom: string, importedPath: string) returns (r: Result<Location, ImportError>)
      requires AliasesOk()
      modifies this`aliases
      ensures r == Resolve(tree, LookUp(importedFrom), importedPath)
      ensures AliasesOk()
    {
      if importedPath == "" { return Err(EmptyPath); }
      var src := LookUp(importedFrom);
      var rel := Clean(Join(Dir(src.path), importedPath));
      if !Escapes(rel) {
        if rel in Root(tree, src.alias) { return Ok(Location(src.alias, rel)); }
      }
      var slash := IndexOf(importedPath, '/');
      if slash == |importedPath| {
        assert importedPath[..slash] == importedPath;
        if importedPath in tree.libraries {
          if MAIN !in tree.libraries[importedPath] { return Err(NoDefaultEntry(importedPath)); }
          return Ok(Location(importedPath, MAIN));
        }
      } else {
        var alias := importedPath[..slash];
        var fileWithin := Clean(importedPath[slash + 1..]);
        if alias in tree.libraries {
          if fileWithin !in tree.libraries[alias] { return Err(NotInLibrary(fileWithin, alias)); }
          return Ok(Location(alias, fileWithin));
        }
      }
      r := Search(importedPath);
    }

    /** contentsFor: one instance per foundAt. */
    method ContentsFor(foundAt: string, body: string) returns (c: Contents)
      requires foundAt in foundAtContents ==> foundAtContents[foundAt].body == body
      modifies this`foundAtContents
      ensures c.body == body && foundAtContents == old(foundAtContents)[foundAt := c]
      ensures forall f <- old(foundAtContents).Keys ::
          f in foundAtContents && foundAtContents[f] == old(foundAtContents)[f]
    {
      if foundAt in foundAtContents { return foundAtContents[foundAt]; }
      c := new Contents(body);
      foundAtContents := foundAtContents[foundAt := c];
    }

    /** r is what the resolver's answer asks for, in the one instance kept for that foundAt. */
    ghost predicate Answers(r: Result<Imported, ImportError>, expected: Result<Location, ImportError>)
      reads this
    {
      match expected
      case Err(e) => r == Err(e)
      case Ok(loc) =>
        && InTree(tree, loc) && r.Ok? && r.value.foundAt == FoundAt(tree, loc)
        && r.value.contents.body ==
            (if loc.alias == "" then tree.self[loc.path] else tree.libraries[loc.alias][loc.path])
        && r.value.foundAt in foundAtContents && r.value.contents == foundAtContents[r.value.foundAt]
        && r.value.foundAt in locs
    }

    /** Any call go-jsonnet may make is answered as its run asks for; and where the entry's label is harmless, whatever
        was imported before and in whatever order, as the stateless resolver answers it. A foundAt keeps one Contents
        instance for good. */
    method Import(importedFrom: string, importedPath: string) returns (r: Result<Imported, ImportError>)
      requires Valid() && MayAsk(importedFrom)
      modifies this
      ensures Valid() && asked == old(asked) + [Query(importedFrom, importedPath)]
      ensures Answers(r, Answer(tree, After(tree, old(asked)), Query(importedFrom, importedPath)))
      ensures LabelHarmless(tree, entryLabel) ==>
          Answers(r, Resolve(tree, Meant(tree, entryLabel, importedFrom), importedPath))
      ensures LabelOk(tree, entryLabel) ==> Answers(r, Resolve(tree, SourceOf(tree, importedFrom), importedPath))
      ensures forall f <- old(foundAtContents).Keys ::
          f in foundAtContents && foundAtContents[f] == old(foundAtContents)[f]
      ensures forall f <- old(locs).Keys :: f in locs && locs[f] == old(locs)[f]
    {
      ghost var q, before := Query(importedFrom, importedPath), asked;
      KnownIsLabel(tree, asked, entryLabel, importedFrom);
      r := ImportOnce(importedFrom, importedPath, After(tree, asked));
      OneMore(tree, entryLabel, before, q);
      asked := asked + [q];
      LocsStay(tree, before, q);
      if LabelHarmless(tree, entryLabel) { AnswerIsStateless(tree, entryLabel, before, q); }
      if LabelOk(tree, entryLabel) { LabelOkIsHarmless(tree, entryLabel, importedFrom, importedPath); }
    }

    /** The body of Import, on the tables of a run that left m. */
    method ImportOnce(importedFrom: string, importedPath: string, ghost m: Memo)
      returns (r: Result<Imported, ImportError>)
      requires Encodable(tree) && Label(importedFrom) && AliasesOk() && TablesOk(tree, m)
      requires m.locs == locs && ContentsOk(tree, locs, foundAtContents)
      requires CacheOk(tree, m, foundAtContents, cache, queries)
      modifies this`aliases, this`locs, this`foundAtContents, this`cache, this`queries
      ensures var m' := Next(tree, m, Query(importedFrom, importedPath));
        && AliasesOk() && m'.locs == locs && ContentsOk(tree, locs, foundAtContents)
        && CacheOk(tree, m', foundAtContents, cache, queries)
      ensures Answers(r, Answer(tree, m, Query(importedFrom, importedPath)))
      ensures forall f <- old(foundAtContents).Keys ::
          f in foundAtContents && foundAtContents[f] == old(foundAtContents)[f]
    {
      var key := CacheKey(importedFrom, importedPath);
      if key in cache {
        HitIsAnswer(tree, m, foundAtContents, cache, queries, importedFrom, importedPath);
        return Ok(Imported(cache[key].contents, cache[key].foundAt));
      }
      var resolved := ResolveImport(importedFrom, importedPath);
      if resolved.Err? { return Err(resolved.error); }
      ResolvedIsInTree(tree, LookUp(importedFrom), importedPath);
      var entry := Remember(Query(importedFrom, importedPath), resolved.value, m);
      r := Ok(Imported(entry.contents, entry.foundAt));
    }

    /** record and contentsFor. */
    method Intern(loc: Location, ghost m: Memo) returns (foundAt: string, contents: Contents)
      requires Encodable(tree) && TablesOk(tree, m) && m.locs == locs && ContentsOk(tree, locs, foundAtContents)
      requires InTree(tree, loc)
      modifies this`locs, this`foundAtContents
      ensures foundAt == FoundAt(tree, loc) && contents.body == BodyOf(tree, loc)
      ensures locs == old(locs)[foundAt := loc] && foundAtContents == old(foundAtContents)[foundAt := contents]
      ensures ContentsOk(tree, locs, foundAtContents)
      ensures forall f <- old(foundAtContents).Keys ::
          f in foundAtContents && foundAtContents[f] == old(foundAtContents)[f]
    {
      if FoundAt(tree, loc) in foundAtContents { FoundAtInjective(tree, loc, locs[FoundAt(tree, loc)]); }
      foundAt := Record(loc);
      contents := ContentsFor(foundAt, BodyOf(tree, loc));
      ContentsStayOk(tree, m, old(foundAtContents), loc, contents);
    }

    /** The tail of Import: record, contentsFor, cache.Store. */
    method Remember(q: Query, loc: Location, ghost m: Memo) returns (entry: CachedImport)
      requires Encodable(tree) && TablesOk(tree, m) && m.locs == locs && ContentsOk(tree, locs, foundAtContents)
      requires CacheOk(tree, m, foundAtContents, cache, queries) && InTree(tree, loc)
      requires Label(q.from) && q !in m.answers && Answer(tree, m, q) == Ok(loc)
      modifies this`locs, this`foundAtContents, this`cache, this`queries
      ensures Next(tree, m, q).locs == locs && ContentsOk(tree, locs, foundAtContents)
      ensures CacheOk(tree, Next(tree, m, q), foundAtContents, cache, queries)
      ensures entry.foundAt == FoundAt(tree, loc) && entry.contents.body == BodyOf(tree, loc) && entry.foundAt in locs
      ensures entry.foundAt in foundAtContents && foundAtContents[entry.foundAt] == entry.contents
      ensures forall f <- old(foundAtContents).Keys ::
          f in foundAtContents && foundAtContents[f] == old(foundAtContents)[f]
    {
      var foundAt, contents := Intern(loc, m);
      entry := CachedImport(contents, foundAt);
      CacheStaysOk(tree, m, old(foundAtContents), foundAtContents, cache, queries, q, entry);
      cache := cache[CacheKey(q.from, q.path) := entry];
      queries := queries[CacheKey(q.from, q.path) := q];
    }
  }
}
