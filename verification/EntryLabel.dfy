/** The label evaluate in internal/operator/reconciler.go gives the entry, namespace/name/entryFile, and exactly when
    it keeps the answers of internal/eval/importer.go independent of the order of the imports. */
module EntryLabel {
  import opened GoPath
  import opened ImportRuns
  import opened ImportTree
  import opened Strings
  import opened Wrappers

  function LabelFor(ns: string, name: string, entry: string): string { ns + "/" + (name + "/" + entry) }

  /** The entry's path, element by element: a clean relative path below its root. */
  ghost predicate CleanEntry(segs: seq<string>) { segs != [] && forall i :: 0 <= i < |segs| ==> Plain(segs[i]) }

  /** A snippet as evaluate sets it up: its entry is one of its files. */
  ghost predicate SetUp(t: Tree, ns: string, name: string, segs: seq<string>) {
    && Encodable(t) && CleanEntry(segs) && t.entryPath == JoinSlash(segs) && t.entryPath in t.self
    && Plain(ns) && Plain(name) && '\0' !in ns && '\0' !in name
  }

  /** The label is also the foundAt of a file: of a Self file, or of one in a library named like the namespace. */
  predicate Collides(t: Tree, ns: string, name: string) {
    LabelFor(ns, name, t.entryPath) in t.self ||
    (ns in t.libraries && name + "/" + t.entryPath in t.libraries[ns])
  }

  // -- a file's siblings ----------------------------------------------------------------

  lemma PlainIsNormal(segs: seq<string>)
    requires CleanEntry(segs)
    ensures Normal(segs, false) && SplitSlash(JoinSlash(segs)) == segs && Clean(JoinSlash(segs)) == JoinSlash(segs)
    ensures JoinSlash(segs) != "" && !Rooted(JoinSlash(segs)) && !Escapes(JoinSlash(segs))
  {
    forall i | 0 <= i < |segs| ensures NormalAt(segs, false, i) {}
    NormalRenders(segs, false);
    EscapesIff(segs);
  }

  lemma {:induction false} JoinAppend(segs: seq<string>, last: string)
    requires segs != []
    ensures JoinSlash(segs + [last]) == JoinSlash(segs) + "/" + last
  {
    if |segs| == 1 {
      assert (segs + [last])[1..] == [last];
    } else {
      assert (segs + [last])[1..] == segs[1..] + [last];
      JoinAppend(segs[1..], last);
    }
  }

  lemma {:induction false} DirPartOf(p: string, last: string)
    requires '/' !in last
    ensures DirPart(p + "/" + last) == p + "/"
    decreases |last|
  {
    var s := p + "/" + last;
    if last == "" {
      assert s == p + "/" && s[|s| - 1] == '/';
    } else {
      assert s[|s| - 1] == last[|last| - 1] && last[|last| - 1] in last;
      assert s[..|s| - 1] == p + "/" + last[..|last| - 1];
      DirPartOf(p, last[..|last| - 1]);
    }
  }

  lemma {:induction false} DirPartOfName(last: string)
    requires '/' !in last
    ensures DirPart(last) == ""
  {
    if last == "" {
    } else {
      assert last[|last| - 1] in last;
      DirPartOfName(last[..|last| - 1]);
    }
  }

  lemma CleanOfSegs(p: string, segs: seq<string>)
    requires p != "" && !Rooted(p) && SplitSlash(p) == segs
    ensures Clean(p) == Render(CleanSegs(segs, [], false), false)
  {
  }

  /** path.Dir drops the last element. */
  lemma DirOfFile(init: seq<string>, last: string)
    requires CleanEntry(init + [last])
    ensures Dir(JoinSlash(init + [last])) == if init == [] then "." else JoinSlash(init)
  {
    assert Plain((init + [last])[|init|]);
    if init == [] {
      assert init + [last] == [last];
      DirPartOfName(last);
    } else {
      assert forall i :: 0 <= i < |init| ==> init[i] == (init + [last])[i];
      var p := JoinSlash(init);
      PlainIsNormal(init);
      JoinAppend(init, last);
      DirPartOf(p, last);
      IndexOfAbsent("", '/');
      SplitConcat(p, "");
      assert p + "/" + "" == p + "/";
      CleanSegsConcat(init, [""], [], false);
      assert init[0..] == init && init[..0] == [];
      NormalIsFixed(init, false, 0);
      CleanOfSegs(p + "/", init + [""]);
    }
  }

  /** Importing a plain name from a file means the file of that name beside it. */
  lemma SiblingPath(alias: string, init: seq<string>, last: string, sibling: string)
    requires CleanEntry(init + [last]) && Plain(sibling)
    ensures CleanEntry(init + [sibling])
    ensures RelativePath(Location(alias, JoinSlash(init + [last])), sibling) == JoinSlash(init + [sibling])
  {
    var segs := init + [sibling];
    assert forall i :: 0 <= i < |init| ==> init[i] == (init + [last])[i];
    DirOfFile(init, last);
    PlainIsNormal(segs);
    if init == [] {
      assert segs == [sibling];
      SplitOfJoin([".", sibling]);
      assert JoinSlash([".", sibling]) == "." + "/" + sibling && [".", sibling][1..] == [sibling];
      assert Push([], ".", false) == [] && [sibling][1..] == [] && Push([], sibling, false) == [sibling];
      assert CleanSegs([".", sibling], [], false) == CleanSegs([sibling], [], false) == CleanSegs([], [sibling], false);
      CleanOfSegs("." + "/" + sibling, [".", sibling]);
    } else {
      PlainIsNormal(init);
      JoinAppend(init, sibling);
    }
  }

  lemma SiblingFound(t: Tree, alias: string, init: seq<string>, last: string, sibling: string)
    requires CleanEntry(init + [last]) && Plain(sibling) && JoinSlash(init + [sibling]) in Root(t, alias)
    ensures Resolve(t, Location(alias, JoinSlash(init + [last])), sibling) ==
        Ok(Location(alias, JoinSlash(init + [sibling])))
  {
    SiblingPath(alias, init, last, sibling);
    PlainIsNormal(init + [sibling]);
  }

  lemma CleanBelow(front: seq<string>, segs: seq<string>)
    requires CleanEntry(segs) && forall s <- front :: Plain(s)
    ensures CleanEntry(front + segs) && Plain(segs[|segs| - 1])
    ensures front + segs == (front + segs[..|segs| - 1]) + [segs[|segs| - 1]]
  {
  }

  lemma FindsItself(t: Tree, alias: string, front: seq<string>, segs: seq<string>)
    requires CleanEntry(segs) && (forall s <- front :: Plain(s)) && JoinSlash(front + segs) in Root(t, alias)
    ensures var loc := Location(alias, JoinSlash(front + segs)); Resolve(t, loc, segs[|segs| - 1]) == Ok(loc)
  {
    var init, base := front + segs[..|segs| - 1], segs[|segs| - 1];
    CleanBelow(front, segs);
    SiblingFound(t, alias, init, base, base);
  }

  // -- the label -----------------------------------------------------------------------

  lemma LabelSegs(ns: string, name: string, segs: seq<string>)
    requires segs != []
    ensures JoinSlash([name] + segs) == name + "/" + JoinSlash(segs)
    ensures JoinSlash([ns, name] + segs) == LabelFor(ns, name, JoinSlash(segs))
  {
    assert ([name] + segs)[1..] == segs;
    assert ([ns, name] + segs)[1..] == [name] + segs;
  }

  /** The file the label collides with, if any. */
  function Colliding(t: Tree, ns: string, name: string): Location {
    var from := LabelFor(ns, name, t.entryPath);
    if from in t.self then Location("", from) else Location(ns, name + "/" + t.entryPath)
  }

  lemma CollidingIsNamed(t: Tree, ns: string, name: string, segs: seq<string>)
    requires SetUp(t, ns, name, segs) && Collides(t, ns, name)
    ensures Names(t, LabelFor(ns, name, t.entryPath), Colliding(t, ns, name))
  {
    assert ns + "/" + (name + "/" + t.entryPath) == LabelFor(ns, name, t.entryPath);
  }

  /** No other file has the label for its foundAt. */
  lemma NamedIsColliding(t: Tree, ns: string, name: string, segs: seq<string>, loc: Location)
    requires SetUp(t, ns, name, segs) && Names(t, LabelFor(ns, name, t.entryPath), loc)
    ensures Collides(t, ns, name)
  {
    var from := LabelFor(ns, name, t.entryPath);
    assert from[0] == ns[0] && ns[0] in ns;
    TagShows(t, loc);
    if loc.alias != "" {
      assert from == ns + ['/'] + (name + "/" + t.entryPath) == loc.alias + ['/'] + loc.path;
      CutInjective(ns, name + "/" + t.entryPath, loc.alias, loc.path, '/');
    }
  }

  lemma LabelIsLabel(t: Tree, ns: string, name: string, segs: seq<string>)
    requires SetUp(t, ns, name, segs)
    ensures Label(LabelFor(ns, name, t.entryPath))
  {
    var from := LabelFor(ns, name, t.entryPath);
    assert '\0' !in t.entryPath && '\0' !in from;
    assert forall i :: 0 <= i < |from| - 1 ==> from[1..][i] == from[i + 1] && from[i + 1] in from;
  }

  lemma CollidingIsOther(t: Tree, ns: string, name: string, segs: seq<string>)
    requires SetUp(t, ns, name, segs)
    ensures Colliding(t, ns, name) != EntryLocation(t)
  {
    assert |LabelFor(ns, name, t.entryPath)| > |t.entryPath|;
  }

  /** The colliding file, importing its own base name, finds itself. */
  lemma CollidingFindsItself(t: Tree, ns: string, name: string, segs: seq<string>)
    requires SetUp(t, ns, name, segs) && Collides(t, ns, name)
    ensures Resolve(t, Colliding(t, ns, name), segs[|segs| - 1]) == Ok(Colliding(t, ns, name))
  {
    LabelSegs(ns, name, segs);
    if LabelFor(ns, name, t.entryPath) in t.self {
      FindsItself(t, "", [ns, name], segs);
    } else {
      FindsItself(t, ns, [name], segs);
    }
  }

  /** The entry's base name, imported by the entry: the entry itself. Imported by the colliding file: that file. */
  lemma BaseNameTellsApart(t: Tree, ns: string, name: string, segs: seq<string>)
    requires SetUp(t, ns, name, segs) && Collides(t, ns, name)
    ensures Resolve(t, EntryLocation(t), segs[|segs| - 1]) == Ok(EntryLocation(t))
    ensures Resolve(t, SourceOf(t, LabelFor(ns, name, t.entryPath)), segs[|segs| - 1]) == Ok(Colliding(t, ns, name))
    ensures Colliding(t, ns, name) != EntryLocation(t)
  {
    var init, base, loc := segs[..|segs| - 1], segs[|segs| - 1], Colliding(t, ns, name);
    assert segs == init + [base];
    SiblingFound(t, "", init, base, base);
    CollidingIsNamed(t, ns, name, segs);
    SourceOfFoundAt(t, loc);
    CollidingFindsItself(t, ns, name, segs);
    CollidingIsOther(t, ns, name, segs);
  }

  /** What resolution from the label means does not depend on whether the colliding file was imported before. */
  ghost predicate OrderIndependent(t: Tree, from: string) {
    forall p: string :: Resolve(t, EntryLocation(t), p) == Resolve(t, SourceOf(t, from), p)
  }

  lemma NoCollisionNoChange(t: Tree, ns: string, name: string, segs: seq<string>)
    requires SetUp(t, ns, name, segs) && !Collides(t, ns, name)
    ensures LabelOk(t, LabelFor(ns, name, t.entryPath)) && OrderIndependent(t, LabelFor(ns, name, t.entryPath))
  {
    var from := LabelFor(ns, name, t.entryPath);
    LabelIsLabel(t, ns, name, segs);
    forall loc ensures !(InTree(t, loc) && FoundAt(t, loc) == from) {
      if Names(t, from, loc) { NamedIsColliding(t, ns, name, segs, loc); }
    }
    assert forall loc :: !Names(t, from, loc);
  }

  /** The exact condition, for flat and nested entries alike: the label the operator builds is fit for use, and the
      answers are independent of the order of the imports, iff no file collides with it. */
  lemma LabelOkIff(t: Tree, ns: string, name: string, segs: seq<string>)
    requires SetUp(t, ns, name, segs)
    ensures LabelOk(t, LabelFor(ns, name, t.entryPath)) <==> !Collides(t, ns, name)
    ensures OrderIndependent(t, LabelFor(ns, name, t.entryPath)) <==> !Collides(t, ns, name)
  {
    var from := LabelFor(ns, name, t.entryPath);
    if Collides(t, ns, name) {
      BaseNameTellsApart(t, ns, name, segs);
      CollidingIsNamed(t, ns, name, segs);
      var loc := Colliding(t, ns, name);
      SourceOfFoundAt(t, loc);
      if SameSource(loc, EntryLocation(t)) { SameSourceResolvesAlike(t, loc, EntryLocation(t), segs[|segs| - 1]); }
    } else {
      NoCollisionNoChange(t, ns, name, segs);
    }
  }

  /** Joining a clean path to "." changes nothing. */
  lemma RootImport(p: string)
    requires p != "" && !Rooted(p) && Clean(p) == p
    ensures Clean(Join(".", p)) == p
  {
    IndexOfAbsent(".", '/');
    SplitConcat(".", p);
    var segs := SplitSlash(p);
    assert (["."] + segs)[1..] == segs && Push([], ".", false) == [];
    CleanOfSegs("." + "/" + p, ["."] + segs);
    CleanOfSegs(p, segs);
  }

  lemma FlatLabelIsRelative(t: Tree, ns: string, name: string, entry: string)
    requires SetUp(t, ns, name, [entry])
    ensures var from, rest := LabelFor(ns, name, entry), name + "/" + entry;
            && RelativePath(EntryLocation(t), from) == from && from != "" && !Escapes(from)
            && !Escapes(rest) && Clean(rest) == rest
  {
    LabelSegs(ns, name, [entry]);
    CleanBelow([ns, name], [entry]);
    CleanBelow([name], [entry]);
    PlainIsNormal([ns, name] + [entry]);
    PlainIsNormal([name] + [entry]);
    RootImport(LabelFor(ns, name, entry));
    assert [] + [entry] == [entry];
    DirOfFile([], entry);
  }

  /** A path that is not relative to src but starts with a library's name is read in that library. */
  lemma LabelReadsLibrary(t: Tree, src: Location, ns: string, rest: string)
    requires '/' !in ns && ns in t.libraries && rest in t.libraries[ns] && Clean(rest) == rest
    requires RelativePath(src, ns + "/" + rest) !in Root(t, src.alias)
    ensures Resolve(t, src, ns + "/" + rest) == Ok(Location(ns, rest))
  {
    assert ns + "/" + rest == ns + ['/'] + rest;
    CutIs(ns, rest, '/');
  }

  /** An entry at the root of its files can import the colliding file, and so bring the other meaning about. */
  lemma FlatEntryImportsCollision(t: Tree, ns: string, name: string, entry: string)
    requires SetUp(t, ns, name, [entry]) && Collides(t, ns, name)
    ensures Resolve(t, EntryLocation(t), LabelFor(ns, name, entry)) == Ok(Colliding(t, ns, name))
    ensures FoundAt(t, Colliding(t, ns, name)) == LabelFor(ns, name, entry)
  {
    var from, rest := LabelFor(ns, name, entry), name + "/" + entry;
    CollidingIsNamed(t, ns, name, [entry]);
    FlatLabelIsRelative(t, ns, name, entry);
    if from in t.self {
    } else {
      LabelReadsLibrary(t, EntryLocation(t), ns, rest);
    }
  }

  // -- every file of the snippet, and the colliding one, is in reach ---------------------

  lemma CleanOfDir(init: seq<string>, dir: seq<string>)
    requires dir == (if init == [] then ["."] else init) && (init == [] || CleanEntry(init))
    ensures CleanSegs(dir, [], false) == init
  {
    if init == [] {
      assert ["."][1..] == [] && Push([], ".", false) == [];
    } else {
      PlainIsNormal(init);
      assert init[0..] == init && init[..0] == [];
      NormalIsFixed(init, false, 0);
    }
  }

  /** An import from a file in directory init, element by element. */
  lemma RelativeBelow(alias: string, init: seq<string>, last: string, q: seq<string>)
    requires CleanEntry(init + [last]) && q != [] && JoinSlash(q) != "" && forall k :: 0 <= k < |q| ==> '/' !in q[k]
    ensures RelativePath(Location(alias, JoinSlash(init + [last])), JoinSlash(q)) ==
        Render(CleanSegs(q, init, false), false)
  {
    var dir, p := if init == [] then ["."] else init, JoinSlash(q);
    DirOfFile(init, last);
    assert forall i :: 0 <= i < |init| ==> init[i] == (init + [last])[i];
    if init != [] { PlainIsNormal(init); } else { SplitOfJoin(["."]); }
    SplitOfJoin(q);
    SplitConcat(JoinSlash(dir), p);
    CleanSegsConcat(dir, q, [], false);
    CleanOfDir(init, dir);
    CleanOfSegs(JoinSlash(dir) + "/" + p, dir + q);
    CleanIdempotent(JoinSlash(dir) + "/" + p);
  }

  function Up(n: nat): seq<string> { seq(n, _ => "..") }

  lemma {:induction false} UpPops(init: seq<string>, q: seq<string>)
    requires forall i :: 0 <= i < |init| ==> Plain(init[i])
    ensures CleanSegs(Up(|init|) + q, init, false) == CleanSegs(q, [], false)
    decreases |init|
  {
    var n := |init|;
    if n == 0 {
      assert Up(0) + q == q && init == [];
    } else {
      assert (Up(n) + q)[0] == ".." && (Up(n) + q)[1..] == Up(n - 1) + q;
      assert Push(init, "..", false) == init[..n - 1];
      UpPops(init[..n - 1], q);
    }
  }

  lemma JoinNotEmpty(q: seq<string>)
    requires q != [] && (|q| > 1 || q[0] != "")
    ensures JoinSlash(q) != ""
  {
  }

  /** A file can import any file of its own root by climbing to the root first. */
  lemma ClimbFinds(t: Tree, alias: string, init: seq<string>, last: string, target: seq<string>)
    requires CleanEntry(init + [last]) && CleanEntry(target) && JoinSlash(target) in Root(t, alias)
    ensures Resolve(t, Location(alias, JoinSlash(init + [last])), JoinSlash(Up(|init|) + target)) ==
            Ok(Location(alias, JoinSlash(target)))
  {
    var q := Up(|init|) + target;
    assert forall i :: 0 <= i < |init| ==> init[i] == (init + [last])[i];
    assert q[|init|] == target[0];
    JoinNotEmpty(q);
    RelativeBelow(alias, init, last, q);
    UpPops(init, target);
    PlainIsNormal(target);
    assert target[0..] == target && target[..0] == [];
    NormalIsFixed(target, false, 0);
  }

  /** A plain path is read below the importing file's directory. */
  lemma DescendPath(alias: string, init: seq<string>, last: string, target: seq<string>)
    requires CleanEntry(init + [last]) && CleanEntry(target)
    ensures RelativePath(Location(alias, JoinSlash(init + [last])), JoinSlash(target)) == JoinSlash(init + target)
    ensures CleanEntry(init + target)
  {
    var all := init + target;
    assert forall i :: 0 <= i < |init| ==> init[i] == (init + [last])[i];
    PlainIsNormal(target);
    RelativeBelow(alias, init, last, target);
    PlainIsNormal(all);
    assert all[|init|..] == target && all[..|init|] == init;
    NormalIsFixed(all, false, |init|);
  }

  lemma {:induction false} JoinGrows(init: seq<string>, last: string, target: seq<string>)
    requires target != [] && |JoinSlash(target)| > |last|
    ensures |JoinSlash(init + target)| > |JoinSlash(init + [last])|
  {
    if init == [] {
      assert init + target == target && init + [last] == [last];
    } else {
      assert (init + target)[1..] == init[1..] + target && (init + [last])[1..] == init[1..] + [last];
      JoinGrows(init[1..], last, target);
    }
  }

  lemma NsIsPlainSeg(ns: string, name: string, segs: seq<string>)
    requires Plain(ns) && Plain(name) && CleanEntry(segs)
    ensures CleanEntry([ns, name] + segs) && CleanEntry([name] + segs)
    ensures JoinSlash([name] + segs) == name + "/" + JoinSlash(segs)
    ensures JoinSlash([ns, name] + segs) == ns + "/" + (name + "/" + JoinSlash(segs))
    ensures Clean(name + "/" + JoinSlash(segs)) == name + "/" + JoinSlash(segs)
  {
    CleanBelow([ns, name], segs);
    CleanBelow([name], segs);
    LabelSegs(ns, name, segs);
    PlainIsNormal([name] + segs);
  }

  lemma LabelFound(t: Tree, ns: string, rest: string, src: Location, rel: string)
    requires Reachable(t, src) && src.alias == "" && RelativePath(src, ns + "/" + rest) == rel && !Escapes(rel)
    requires '/' !in ns && ns in t.libraries && rest in t.libraries[ns] && Clean(rest) == rest
    ensures Reachable(t, if rel in t.self then Location("", rel) else Location(ns, rest))
  {
    if rel !in t.self { LabelReadsLibrary(t, src, ns, rest); }
    ReachMore(t, src, ns + "/" + rest);
  }

  lemma LastIsShorter(segs: seq<string>)
    requires |segs| >= 2
    ensures |JoinSlash(segs)| > |segs[|segs| - 1]|
  {
    if |segs| == 2 {
      assert segs[1..] == [segs[1]];
    } else {
      LastIsShorter(segs[1..]);
    }
  }

  /** The entry can come to import the Self file last in directory init. */
  ghost predicate AtFile(t: Tree, init: seq<string>, last: string) {
    CleanEntry(init + [last]) && Reachable(t, Location("", JoinSlash(init + [last])))
  }

  /** From there, the label leads to a Self file deeper down or to the goal. */
  ghost predicate LabelLeads(t: Tree, goal: Location, init: seq<string>, front: seq<string>, last: string) {
    && |JoinSlash((init + front) + [last])| > |JoinSlash(init + [last])|
    && ((AtFile(t, init + front, last) && JoinSlash((init + front) + [last]) in t.self) || Reachable(t, goal))
  }

  lemma LabelStep(t: Tree, ns: string, name: string, segs: seq<string>, init: seq<string>)
    requires SetUp(t, ns, name, segs) && Collides(t, ns, name) && LabelFor(ns, name, t.entryPath) !in t.self
    requires AtFile(t, init, segs[|segs| - 1])
    ensures LabelLeads(t, Colliding(t, ns, name), init, [ns, name] + segs[..|segs| - 1], segs[|segs| - 1])
  {
    var last, full, front := segs[|segs| - 1], [ns, name] + segs, [ns, name] + segs[..|segs| - 1];
    assert (init + front) + [last] == init + full;
    NsIsPlainSeg(ns, name, segs);
    DescendPath("", init, last, full);
    LastIsShorter(full);
    JoinGrows(init, last, full);
    PlainIsNormal(init + full);
    LabelFound(t, ns, name + "/" + t.entryPath, Location("", JoinSlash(init + [last])), JoinSlash(init + full));
  }

  /** There are only so many Self files, so the goal is reached. */
  lemma {:induction false} LabelArrives(t: Tree, goal: Location, front: seq<string>, last: string, init: seq<string>,
                                        bound: nat)
    requires AtFile(t, init, last) && JoinSlash(init + [last]) in t.self && forall f <- t.self.Keys :: |f| <= bound
    requires forall i :: AtFile(t, i, last) ==> LabelLeads(t, goal, i, front, last)
    ensures Reachable(t, goal)
    decreases bound - |JoinSlash(init + [last])|
  {
    assert LabelLeads(t, goal, init, front, last);
    if !Reachable(t, goal) { LabelArrives(t, goal, front, last, init + front, bound); }
  }

  lemma {:induction false} LongestName(names: set<string>) returns (bound: nat)
    ensures forall n <- names :: |n| <= bound
  {
    if names == {} {
      bound := 0;
    } else {
      var n :| n in names;
      var rest := LongestName(names - {n});
      bound := if |n| > rest then |n| else rest;
      assert forall x <- names :: x == n || x in names - {n};
    }
  }

  /** The entry, flat or nested, can always come to import the colliding file. */
  lemma CollidingIsReachable(t: Tree, ns: string, name: string, segs: seq<string>)
    requires SetUp(t, ns, name, segs) && Collides(t, ns, name)
    ensures Reachable(t, Colliding(t, ns, name))
  {
    var init, last := segs[..|segs| - 1], segs[|segs| - 1];
    assert segs == init + [last];
    EntryIsReachable(t);
    NsIsPlainSeg(ns, name, segs);
    if LabelFor(ns, name, t.entryPath) in t.self {
      ClimbFinds(t, "", init, last, [ns, name] + segs);
      ReachMore(t, EntryLocation(t), JoinSlash(Up(|init|) + ([ns, name] + segs)));
    } else {
      var bound := LongestName(t.self.Keys);
      forall i | AtFile(t, i, last) ensures LabelLeads(t, Colliding(t, ns, name), i, [ns, name] + init, last) {
        LabelStep(t, ns, name, segs, i);
      }
      LabelArrives(t, Colliding(t, ns, name), [ns, name] + init, last, init, bound);
    }
  }

  lemma OnlyColliding(t: Tree, ns: string, name: string, segs: seq<string>, loc: Location)
    requires SetUp(t, ns, name, segs) && Names(t, LabelFor(ns, name, t.entryPath), loc)
    ensures Collides(t, ns, name) && loc == Colliding(t, ns, name)
  {
    NamedIsColliding(t, ns, name, segs, loc);
    CollidingIsNamed(t, ns, name, segs);
    FoundAtInjective(t, loc, Colliding(t, ns, name));
  }

  /** The exact condition over whole runs: any two sequences of Import calls that go-jsonnet may make answer a further
      call alike iff no file collides with the label. */
  lemma RunsAgreeIff(t: Tree, ns: string, name: string, segs: seq<string>)
    requires SetUp(t, ns, name, segs)
    ensures RunsAgree(t, LabelFor(ns, name, t.entryPath)) <==> !Collides(t, ns, name)
  {
    var from := LabelFor(ns, name, t.entryPath);
    if Collides(t, ns, name) {
      var loc := Colliding(t, ns, name);
      CollidingIsReachable(t, ns, name, segs);
      CollidingIsNamed(t, ns, name, segs);
      BaseNameTellsApart(t, ns, name, segs);
      SourceOfFoundAt(t, loc);
      var b := DirectRunDisagrees(t, from, loc, segs[|segs| - 1]);
    } else {
      forall loc ensures !Names(t, from, loc) {
        if Names(t, from, loc) { OnlyColliding(t, ns, name, segs, loc); }
      }
      HarmlessLabelAgrees(t, from);
    }
  }

  /** A snippet with an entry and a file beside it, and copies of both under namespace/name/. */
  function WithCopy(ns: string, name: string, entry: string, lib: string): Tree {
    Tree(map[entry := "1", lib := "2", LabelFor(ns, name, entry) := "3", LabelFor(ns, name, lib) := "4"], entry, map[])
  }

  predicate PlainName(s: string) { Plain(s) && '\0' !in s }

  lemma CopySetUp(ns: string, name: string, entry: string, lib: string)
    requires PlainName(ns) && PlainName(name) && PlainName(entry) && PlainName(lib)
    ensures var t := WithCopy(ns, name, entry, lib);
      && SetUp(t, ns, name, [entry]) && Collides(t, ns, name)
      && Colliding(t, ns, name) == Location("", LabelFor(ns, name, entry)) && EntryLocation(t) == Location("", entry)
  {
  }

  lemma CopySiblings(ns: string, name: string, entry: string, lib: string)
    requires PlainName(ns) && PlainName(name) && PlainName(entry) && PlainName(lib)
    ensures var t := WithCopy(ns, name, entry, lib);
      && Resolve(t, Location("", entry), lib) == Ok(Location("", lib))
      && Resolve(t, Location("", LabelFor(ns, name, entry)), lib) == Ok(Location("", LabelFor(ns, name, lib)))
  {
    var t := WithCopy(ns, name, entry, lib);
    assert [] + [entry] == [entry] && [] + [lib] == [lib];
    SiblingFound(t, "", [], entry, lib);
    LabelSegs(ns, name, [entry]);
    LabelSegs(ns, name, [lib]);
    SiblingFound(t, "", [ns, name], entry, lib);
  }

  /** Before the copy of the entry is imported the entry's import of lib means the file beside it, afterwards the
      copy. */
  lemma CopyChangesImports(ns: string, name: string, entry: string, lib: string)
    requires PlainName(ns) && PlainName(name) && PlainName(entry) && PlainName(lib)
    ensures var t, from := WithCopy(ns, name, entry, lib), LabelFor(ns, name, entry);
      && SetUp(t, ns, name, [entry]) && !OrderIndependent(t, from)
      && Resolve(t, EntryLocation(t), from) == Ok(Location("", from))
      && Resolve(t, EntryLocation(t), lib) == Ok(Location("", lib))
      && Resolve(t, SourceOf(t, from), lib) == Ok(Location("", LabelFor(ns, name, lib)))
  {
    var t := WithCopy(ns, name, entry, lib);
    CopySetUp(ns, name, entry, lib);
    FlatEntryImportsCollision(t, ns, name, entry);
    LabelOkIff(t, ns, name, [entry]);
    CollidingIsNamed(t, ns, name, [entry]);
    SourceOfFoundAt(t, Colliding(t, ns, name));
    CopySiblings(ns, name, entry, lib);
  }

  lemma TeamAppNames()
    ensures PlainName("team") && PlainName("app") && PlainName("main.jsonnet") && PlainName("lib.libsonnet")
  {
  }

  lemma TeamAppLabels()
    ensures LabelFor("team", "app", "main.jsonnet") == "team/app/main.jsonnet"
    ensures LabelFor("team", "app", "lib.libsonnet") == "team/app/lib.libsonnet"
  {
  }

  /** So for the snippet app in namespace team, whose label is "team/app/main.jsonnet". */
  lemma TeamAppChangesImports(t: Tree)
    requires t == Tree(map["main.jsonnet" := "1", "lib.libsonnet" := "2",
                           "team/app/main.jsonnet" := "3", "team/app/lib.libsonnet" := "4"], "main.jsonnet", map[])
    ensures !OrderIndependent(t, "team/app/main.jsonnet")
    ensures Resolve(t, EntryLocation(t), "lib.libsonnet") == Ok(Location("", "lib.libsonnet"))
    ensures Resolve(t, SourceOf(t, "team/app/main.jsonnet"), "lib.libsonnet") ==
        Ok(Location("", "team/app/lib.libsonnet"))
  {
    TeamAppNames();
    TeamAppLabels();
    var ns, name, entry, lib := "team", "app", "main.jsonnet", "lib.libsonnet";
    CopyChangesImports(ns, name, entry, lib);
  }

  lemma LabelIsLonger(ns: string, name: string, lib: string, from: string)
    requires '/' !in lib && '/' in from
    ensures lib != from
  {
  }

  /** Two runs with different answers: the entry's import of lib before and after its import of the label. */
  lemma CopyRunsDisagree(ns: string, name: string, entry: string, lib: string)
    requires PlainName(ns) && PlainName(name) && PlainName(entry) && PlainName(lib)
    ensures var t, from := WithCopy(ns, name, entry, lib), LabelFor(ns, name, entry);
      var a, b, q := [], [Query(from, from)], Query(from, lib);
      && Legal(t, from, a + [q]) && Legal(t, from, b + [q])
      && Answer(t, After(t, a), q) == Ok(Location("", lib))
      && Answer(t, After(t, b), q) == Ok(Location("", LabelFor(ns, name, lib)))
  {
    var t, from := WithCopy(ns, name, entry, lib), LabelFor(ns, name, entry);
    var first, q := Query(from, from), Query(from, lib);
    CopyChangesImports(ns, name, entry, lib);
    CopySiblings(ns, name, entry, lib);
    OneMore(t, from, [], first);
    OneMore(t, from, [], q);
    OneMore(t, from, [first], q);
    assert [] + [first] == [first];
    LabelIsLonger(ns, name, lib, from);
  }
}
