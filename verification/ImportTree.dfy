/** What internal/eval/importer.go resolves against, the stateless four-step resolution, and the two string
    encodings its memo tables are keyed by. */
module ImportTree {
  import opened GoPath
  import opened Strings
  import opened Wrappers

  const MAIN := "main.libsonnet"

  type Files = map<string, string>

  datatype Tree = Tree(self: Files, entryPath: string, libraries: map<string, Files>)

  /** alias "" is the snippet itself. */
  datatype Location = Location(alias: string, path: string)

  datatype ImportError =
    | EmptyPath
    | NoDefaultEntry(alias: string)
    | NotInLibrary(file: string, alias: string)
    | NoMatch(path: string)

  function Root(t: Tree, alias: string): Files {
    if alias == "" then t.self else if alias in t.libraries then t.libraries[alias] else map[]
  }

  ghost predicate InTree(t: Tree, loc: Location) {
    loc.path != "" && loc.path in Root(t, loc.alias)
  }

  // -- stateless resolution ------------------------------------------------------

  /** The importing file's directory first, within its own root. */
  function RelativePath(src: Location, importedPath: string): string {
    Clean(Join(Dir(src.path), importedPath))
  }

  /** The libraries that hold a file under this very path. */
  function Holders(t: Tree, clean: string): set<string> {
    set a | a in t.libraries && clean in t.libraries[a]
  }

  function VendorSearch(t: Tree, importedPath: string): Result<Location, ImportError> {
    var clean := Clean(importedPath);
    if clean in t.self then Ok(Location("", clean))
    else if Holders(t, clean) != {} then Ok(Location(Least(Holders(t, clean)), clean))
    else Err(NoMatch(importedPath))
  }

  /** A bare alias means the library's main file. */
  function LibraryDefault(t: Tree, alias: string): Result<Location, ImportError>
    requires alias in t.libraries
  {
    if MAIN in t.libraries[alias] then Ok(Location(alias, MAIN)) else Err(NoDefaultEntry(alias))
  }

  /** A matching alias is committed to: no other library is searched. */
  function LibraryFile(t: Tree, alias: string, rest: string): Result<Location, ImportError>
    requires alias in t.libraries
  {
    var file := Clean(rest);
    if file in t.libraries[alias] then Ok(Location(alias, file)) else Err(NotInLibrary(file, alias))
  }

  function Resolve(t: Tree, src: Location, importedPath: string): Result<Location, ImportError> {
    var slash := IndexOf(importedPath, '/');
    var head := importedPath[..slash];
    var rel := RelativePath(src, importedPath);
    if importedPath == "" then Err(EmptyPath)
    else if !Escapes(rel) && rel in Root(t, src.alias) then Ok(Location(src.alias, rel))
    else if head !in t.libraries then VendorSearch(t, importedPath)
    else if slash == |importedPath| then LibraryDefault(t, head)
    else LibraryFile(t, head, importedPath[slash + 1..])
  }

  // -- the foundAt encoding ------------------------------------------------------

  // -- what an answer means ---------------------------------------------------------

  ghost predicate Misses(t: Tree, src: Location, rel: string) {
    || rel == ".." || HasPrefix(rel, "../")
    || rel !in (if src.alias == "" then t.self else if src.alias in t.libraries then t.libraries[src.alias] else map[])
  }

  /** No library is named by p or by its first element. */
  ghost predicate NoAlias(t: Tree, p: string) {
    forall a <- t.libraries.Keys :: '/' !in a ==> p != a && !HasPrefix(p, a + "/")
  }

  /** The search through all roots: the snippet's own file of that path, or that of the first library in byte order that
      has one, or an error if none has. */
  ghost predicate FirstHolder(t: Tree, p: string, r: Result<Location, ImportError>) {
    var clean := Clean(p);
    if clean in t.self then r == Ok(Location("", clean))
    else
      && (r.Err? ==> r == Err(NoMatch(p)) && forall a <- t.libraries.Keys :: clean !in t.libraries[a])
      && (r.Ok? ==>
          && r.value.path == clean && r.value.alias in t.libraries && clean in t.libraries[r.value.alias]
          && forall a <- t.libraries.Keys :: clean in t.libraries[a] ==>
              a == r.value.alias || ByteBefore(r.value.alias, a))
  }

  lemma SearchFindsFirst(t: Tree, p: string)
    ensures FirstHolder(t, p, VendorSearch(t, p))
  {
    var clean := Clean(p);
    forall a | a in t.libraries && clean in t.libraries[a] ensures a in Holders(t, clean) {}
    if Holders(t, clean) != {} {
      forall a | a in Holders(t, clean)
        ensures a == Least(Holders(t, clean)) || ByteBefore(Least(Holders(t, clean)), a) {
        LeqIsByteOrder(Least(Holders(t, clean)), a);
      }
    }
  }

  lemma AliasFile(t: Tree, src: Location, a: string, rest: string)
    requires a in t.libraries && '/' !in a && Misses(t, src, Clean(Join(Dir(src.path), a + "/" + rest)))
    ensures Resolve(t, src, a + "/" + rest) ==
      if Clean(rest) in t.libraries[a] then Ok(Location(a, Clean(rest))) else Err(NotInLibrary(Clean(rest), a))
  {
    assert a + "/" + rest == a + ['/'] + rest;
    CutIs(a, rest, '/');
  }

  lemma AliasMain(t: Tree, src: Location, p: string)
    requires p in t.libraries && '/' !in p && p != "" && Misses(t, src, Clean(Join(Dir(src.path), p)))
    ensures Resolve(t, src, p) ==
      if "main.libsonnet" in t.libraries[p] then Ok(Location(p, "main.libsonnet")) else Err(NoDefaultEntry(p))
  {
    NotBeforeIndex(p, '/');
  }

  lemma NoAliasHead(t: Tree, p: string)
    requires NoAlias(t, p)
    ensures p[..IndexOf(p, '/')] !in t.libraries
  {
    var i := IndexOf(p, '/');
    NotBeforeIndex(p, '/');
    if i < |p| {
      assert p[..i + 1] == p[..i] + "/";
    } else {
      assert p[..i] == p;
    }
  }

  /** Every answer, step by step: the file at the relative path within the importer's own root; missing that, the main
      file of the library that is named, or the file of the library that the path starts with, and no other; and where
      no library is named, the first holder. */
  lemma ResolveMeans(t: Tree, src: Location, p: string)
    ensures p == "" ==> Resolve(t, src, p) == Err(EmptyPath)
    ensures var rel := Clean(Join(Dir(src.path), p));
      p != "" && !Misses(t, src, rel) ==> Resolve(t, src, p) == Ok(Location(src.alias, rel))
    ensures p != "" && Misses(t, src, Clean(Join(Dir(src.path), p))) ==>
        && (p in t.libraries && '/' !in p ==>
            Resolve(t, src, p) ==
            if "main.libsonnet" in t.libraries[p] then Ok(Location(p, "main.libsonnet")) else Err(NoDefaultEntry(p)))
        && (forall a, rest :: a in t.libraries && '/' !in a && p == a + "/" + rest ==>
            Resolve(t, src, p) ==
            if Clean(rest) in t.libraries[a] then Ok(Location(a, Clean(rest))) else Err(NotInLibrary(Clean(rest), a)))
        && (NoAlias(t, p) ==> FirstHolder(t, p, Resolve(t, src, p)))
  {
    SearchFindsFirst(t, p);
    if p in t.libraries && '/' !in p && p != "" && Misses(t, src, Clean(Join(Dir(src.path), p))) {
      AliasMain(t, src, p);
    }
    forall a, rest |
      a in t.libraries && '/' !in a && p == a + "/" + rest && p != "" && Misses(t, src, Clean(Join(Dir(src.path), p)))
      ensures Resolve(t, src, p) ==
        if Clean(rest) in t.libraries[a] then Ok(Location(a, Clean(rest))) else Err(NotInLibrary(Clean(rest), a))
    {
      AliasFile(t, src, a, rest);
    }
    if NoAlias(t, p) { NoAliasHead(t, p); }
  }

  /** Aliases are non-empty single path elements, and neither they nor Self's file names hold a NUL. */
  ghost predicate Taggable(t: Tree) {
    && (forall a <- t.libraries.Keys :: a != "" && '/' !in a && '\0' !in a)
    && (forall f <- t.self.Keys :: '\0' !in f)
  }

  /** Nor do the libraries' file names. */
  ghost predicate Encodable(t: Tree) {
    Taggable(t) && forall a <- t.libraries.Keys, f <- t.libraries[a].Keys :: '\0' !in f
  }

  function FoundAt(t: Tree, loc: Location): string {
    if loc.alias == "" then loc.path
    else
      var plain := loc.alias + "/" + loc.path;
      if plain in t.self then "\0" + plain else plain
  }

  lemma PlainHasNoNul(t: Tree, loc: Location)
    requires Encodable(t) && InTree(t, loc)
    ensures loc.alias != "" ==> loc.alias in t.libraries && '\0' !in loc.alias + "/" + loc.path
    ensures loc.alias == "" ==> '\0' !in loc.path
  {
  }

  predicate Shadowed(t: Tree, loc: Location) { loc.alias != "" && loc.alias + "/" + loc.path in t.self }

  /** A foundAt starts with a NUL exactly when it was tagged. */
  lemma TagShows(t: Tree, loc: Location)
    requires Taggable(t) && InTree(t, loc)
    ensures FoundAt(t, loc) != "" && (FoundAt(t, loc)[0] == '\0' <==> Shadowed(t, loc))
    ensures Shadowed(t, loc) ==> FoundAt(t, loc)[1..] == loc.alias + "/" + loc.path
  {
    if loc.alias == "" {
      assert loc.path[0] in loc.path;
    } else {
      assert loc.alias in t.libraries && loc.alias[0] in loc.alias;
      assert (loc.alias + "/" + loc.path)[0] == loc.alias[0];
    }
  }

  /** One foundAt per file and one file per foundAt, even when a Self subtree shadows a library alias, and whatever
      the library's file names hold. */
  lemma FoundAtInjective(t: Tree, l1: Location, l2: Location)
    requires Taggable(t) && InTree(t, l1) && InTree(t, l2)
    requires FoundAt(t, l1) == FoundAt(t, l2)
    ensures l1 == l2
  {
    TagShows(t, l1);
    TagShows(t, l2);
    if l1.alias != "" && l2.alias != "" {
      assert l1.alias + "/" + l1.path == l2.alias + "/" + l2.path;
      CutInjective(l1.alias, l1.path, l2.alias, l2.path, '/');
    }
  }

  /** What go-jsonnet may hand back as importedFrom: non-empty, with a NUL at most in front. */
  ghost predicate Label(from: string) {
    from != "" && '\0' !in from[1..]
  }

  lemma FoundAtIsLabel(t: Tree, loc: Location)
    requires Encodable(t) && InTree(t, loc)
    ensures Label(FoundAt(t, loc))
  {
    PlainHasNoNul(t, loc);
    var plain := loc.alias + "/" + loc.path;
    assert ("\0" + plain)[1..] == plain;
    var f := FoundAt(t, loc);
    forall i | 1 <= i < |f| ensures f[i] != '\0' {
      if loc.alias == "" { assert f[i] in loc.path; }
      else if plain in t.self { assert f[i] == plain[i - 1] && plain[i - 1] in plain; }
      else { assert f[i] in plain; }
    }
  }

  function CacheKey(importedFrom: string, importedPath: string): string {
    importedFrom + "\0" + importedPath
  }

  /** Whatever bytes the import path holds, the key splits back into the pair it was made of. */
  lemma CacheKeyInjective(f1: string, p1: string, f2: string, p2: string)
    requires Label(f1) && Label(f2) && CacheKey(f1, p1) == CacheKey(f2, p2)
    ensures f1 == f2 && p1 == p2
  {
    var k := CacheKey(f1, p1);
    assert k[1..] == f1[1..] + ['\0'] + p1 && k[1..] == f2[1..] + ['\0'] + p2;
    CutInjective(f1[1..], p1, f2[1..], p2, '\0');
    assert f1 == [k[0]] + f1[1..] && f2 == [k[0]] + f2[1..];
  }

  /** A NUL inside a library file's name is enough to confuse the key, whatever surrounds it. */
  lemma NulInLibraryNameBreaksKey(file: string, y: string, p: string)
    ensures CacheKey(file, y + "\0" + p) == CacheKey(file + "\0" + y, p)
  {
    assert file + "\0" + (y + "\0" + p) == (file + "\0" + y) + "\0" + p;
  }

  /** Without the tag a shadowed library file and the Self file would share a foundAt. */
  lemma ShadowTagNeeded(t: Tree, alias: string, file: string)
    requires Encodable(t) && alias in t.libraries && file in t.libraries[alias] && file != ""
    requires alias + "/" + file in t.self
    ensures FoundAt(t, Location("", alias + "/" + file)) == alias + "/" + file
    ensures FoundAt(t, Location(alias, file)) != alias + "/" + file
    ensures InTree(t, Location("", alias + "/" + file)) && InTree(t, Location(alias, file))
  {
    assert |"\0" + (alias + "/" + file)| == |alias + "/" + file| + 1;
  }

  /** An alias holding a slash would make two libraries' files indistinguishable. */
  lemma SlashAliasCollides()
    ensures var t := Tree(map[], "", map["v" := map["l/x" := "1"], "v/l" := map["x" := "2"]]);
            && Location("v", "l/x") != Location("v/l", "x")
            && FoundAt(t, Location("v", "l/x")) == FoundAt(t, Location("v/l", "x"))
  {
    assert "v" + "/" + "l/x" == "v/l" + "/" + "x";
  }

  // -- importing files ------------------------------------------------------------

  function EntryLocation(t: Tree): Location { Location("", t.entryPath) }

  /** Resolution depends on the importing file only through its root and directory. */
  predicate SameSource(a: Location, b: Location) {
    a.alias == b.alias && Dir(a.path) == Dir(b.path)
  }

  lemma SameSourceResolvesAlike(t: Tree, a: Location, b: Location, importedPath: string)
    requires SameSource(a, b)
    ensures Resolve(t, a, importedPath) == Resolve(t, b, importedPath)
  {
  }

  /** The entry's diagnostic label is fit for use: it is nobody's foundAt, unless of a file beside the entry. */
  ghost predicate LabelOk(t: Tree, entryLabel: string) {
    && Label(entryLabel)
    && forall loc :: InTree(t, loc) && FoundAt(t, loc) == entryLabel ==> SameSource(loc, EntryLocation(t))
  }

  ghost predicate Names(t: Tree, from: string, loc: Location) {
    InTree(t, loc) && FoundAt(t, loc) == from
  }

  /** The file an importedFrom stands for, with no memory of earlier calls. */
  ghost function SourceOf(t: Tree, from: string): Location {
    if exists loc :: Names(t, from, loc) then
      var loc :| Names(t, from, loc);
      loc
    else EntryLocation(t)
  }

  lemma SourceOfFoundAt(t: Tree, loc: Location)
    requires Encodable(t) && InTree(t, loc)
    ensures SourceOf(t, FoundAt(t, loc)) == loc
  {
    assert Names(t, FoundAt(t, loc), loc);
    FoundAtInjective(t, SourceOf(t, FoundAt(t, loc)), loc);
  }

  lemma CleanIsNotEmpty(p: string)
    ensures Clean(p) != ""
  {
    CleanNormalForm(p);
  }

  lemma VendorHitIsInTree(t: Tree, importedPath: string)
    requires "" !in t.libraries
    ensures var r := VendorSearch(t, importedPath); r.Ok? ==> InTree(t, r.value)
  {
    CleanIsNotEmpty(importedPath);
    if Holders(t, Clean(importedPath)) != {} {
      var least := Least(Holders(t, Clean(importedPath)));
      assert least in Holders(t, Clean(importedPath));
    }
  }

  lemma LibraryHitIsInTree(t: Tree, alias: string, rest: string)
    requires alias != "" && alias in t.libraries
    ensures LibraryDefault(t, alias).Ok? ==> InTree(t, LibraryDefault(t, alias).value)
    ensures LibraryFile(t, alias, rest).Ok? ==> InTree(t, LibraryFile(t, alias, rest).value)
  {
    CleanIsNotEmpty(rest);
  }

  lemma RelativeIsNotEmpty(src: Location, importedPath: string)
    ensures RelativePath(src, importedPath) != ""
  {
    CleanIsNotEmpty(Join(Dir(src.path), importedPath));
  }

  lemma ResolvedIsInTree(t: Tree, src: Location, importedPath: string)
    requires "" !in t.libraries
    ensures var r := Resolve(t, src, importedPath); r.Ok? ==> InTree(t, r.value)
  {
    var slash := IndexOf(importedPath, '/');
    var head, rel := importedPath[..slash], RelativePath(src, importedPath);
    if importedPath == "" {
    } else if !Escapes(rel) && rel in Root(t, src.alias) {
      RelativeIsNotEmpty(src, importedPath);
    } else if head !in t.libraries {
      VendorHitIsInTree(t, importedPath);
    } else {
      LibraryHitIsInTree(t, head, if slash < |importedPath| then importedPath[slash + 1..] else "");
    }
  }

  lemma {:induction false} NoParentAfterPlain(segs: seq<string>, n: nat)
    requires Normal(segs, false) && segs != [] && segs[0] != ".." && n <= |segs|
    ensures forall i :: 0 <= i < n ==> segs[i] != ".."
  {
    if n == 0 {
    } else {
      NoParentAfterPlain(segs, n - 1);
      assert NormalAt(segs, false, n - 1);
    }
  }

  /** A relative hit never leaves the importing file's root. */
  lemma RelativeStaysInside(src: Location, importedPath: string)
    requires importedPath != "" && !Escapes(RelativePath(src, importedPath)) && !Rooted(RelativePath(src, importedPath))
    ensures ".." !in SplitSlash(RelativePath(src, importedPath))
  {
    var joined := Join(Dir(src.path), importedPath);
    var rel := Clean(joined);
    CleanNormalForm(DirPart(src.path));
    CleanNormalForm(Dir(src.path) + "/" + importedPath);
    CleanNormalForm(joined);
    var segs := CleanSegs(SplitSlash(joined), [], Rooted(joined));
    NormalRenders(segs, Rooted(joined));
    EscapesIff(segs);
    if segs == [] {
      SplitOfJoin(["."]);
    } else {
      NoParentAfterPlain(segs, |segs|);
    }
  }
}
