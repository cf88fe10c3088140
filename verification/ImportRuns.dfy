/** Sequences of Import calls on one importer of internal/eval/importer.go: what its tables remember, what it answers,
    and when the answers do not depend on the calls before. */
module ImportRuns {
  import opened ImportTree
  import opened Wrappers

  datatype Query = Query(from: string, path: string)

  /** The recorded locations and the cached answers. Failures are not remembered. */
  datatype Memo = Memo(locs: map<string, Location>, answers: map<Query, Location>)

  const FRESH := Memo(map[], map[])

  /** An importedFrom not recorded is taken for the entry. */
  function LocationOf(t: Tree, m: Memo, from: string): Location {
    if from in m.locs then m.locs[from] else EntryLocation(t)
  }

  function Answer(t: Tree, m: Memo, q: Query): Result<Location, ImportError> {
    if q in m.answers then Ok(m.answers[q]) else Resolve(t, LocationOf(t, m, q.from), q.path)
  }

  function Next(t: Tree, m: Memo, q: Query): Memo {
    match Answer(t, m, q)
    case Ok(loc) => if q in m.answers then m else Memo(m.locs[FoundAt(t, loc) := loc], m.answers[q := loc])
    case Err(_) => m
  }

  function After(t: Tree, qs: seq<Query>): Memo {
    if qs == [] then FRESH else Next(t, After(t, qs[..|qs| - 1]), qs[|qs| - 1])
  }

  /** go-jsonnet passes the entry's label or an earlier foundAt. */
  predicate Known(t: Tree, entryLabel: string, qs: seq<Query>, from: string) {
    from == entryLabel || from in After(t, qs).locs
  }

  ghost predicate Legal(t: Tree, entryLabel: string, qs: seq<Query>)
    decreases |qs|
  {
    qs == [] || (Legal(t, entryLabel, qs[..|qs| - 1]) && Known(t, entryLabel, qs[..|qs| - 1], qs[|qs| - 1].from))
  }

  lemma OneMore(t: Tree, entryLabel: string, qs: seq<Query>, q: Query)
    ensures After(t, qs + [q]) == Next(t, After(t, qs), q)
    ensures Legal(t, entryLabel, qs + [q]) <==> Legal(t, entryLabel, qs) && Known(t, entryLabel, qs, q.from)
  {
    assert (qs + [q])[..|qs|] == qs;
  }

  /** Whatever was imported before, in whatever order, a legal call is answered alike. */
  ghost predicate RunsAgree(t: Tree, entryLabel: string) {
    forall a, b, q :: Legal(t, entryLabel, a + [q]) && Legal(t, entryLabel, b + [q]) ==>
        Answer(t, After(t, a), q) == Answer(t, After(t, b), q)
  }

  // -- which files a program can come to import ---------------------------------------

  /** Files, each imported by the one before under the path between them; the first is the entry. */
  datatype Walk = Walk(files: seq<Location>, paths: seq<string>)

  ghost predicate Hop(t: Tree, a: Location, p: string, b: Location) { Resolve(t, a, p) == Ok(b) }

  ghost predicate IsWalk(t: Tree, w: Walk) {
    && |w.files| == |w.paths| + 1 && w.files[0] == EntryLocation(t)
    && forall i :: 0 <= i < |w.paths| ==> Hop(t, w.files[i], w.paths[i], w.files[i + 1])
  }

  ghost predicate LeadsTo(t: Tree, loc: Location, w: Walk) { IsWalk(t, w) && w.files[|w.paths|] == loc }

  ghost predicate Reachable(t: Tree, loc: Location) { exists w :: LeadsTo(t, loc, w) }

  ghost predicate ArrivesIn(t: Tree, loc: Location, n: nat) { exists w: Walk :: |w.paths| == n && LeadsTo(t, loc, w) }

  ghost predicate Shortest(t: Tree, loc: Location, w: Walk) {
    LeadsTo(t, loc, w) && forall n: nat :: n < |w.paths| ==> !ArrivesIn(t, loc, n)
  }

  lemma {:induction false} ShortestWalk(t: Tree, loc: Location, w: Walk) returns (least: Walk)
    requires LeadsTo(t, loc, w)
    ensures Shortest(t, loc, least)
    decreases |w.paths|
  {
    if n: nat :| n < |w.paths| && ArrivesIn(t, loc, n) {
      var v: Walk :| |v.paths| == n && LeadsTo(t, loc, v);
      least := ShortestWalk(t, loc, v);
    } else {
      least := w;
    }
  }

  // -- what the tables hold --------------------------------------------------------------

  /** The file an importedFrom means in a run that never imports a file of that name. */
  ghost function Meant(t: Tree, entryLabel: string, from: string): Location {
    if from == entryLabel then EntryLocation(t) else SourceOf(t, from)
  }

  /** Recorded files are files of the tree that the entry can come to import, under their own foundAt, and every answer
      is recorded. */
  ghost predicate TablesOk(t: Tree, m: Memo) {
    && (forall f <- m.locs.Keys :: InTree(t, m.locs[f]) && FoundAt(t, m.locs[f]) == f && Reachable(t, m.locs[f]))
    && forall q <- m.answers.Keys :: InTree(t, m.answers[q]) && FoundAt(t, m.answers[q]) in m.locs
  }

  ghost predicate AnswersOk(t: Tree, entryLabel: string, m: Memo) {
    forall q <- m.answers.Keys :: Resolve(t, Meant(t, entryLabel, q.from), q.path) == Ok(m.answers[q])
  }

  /** A file that has the label for its foundAt is out of reach, or resolves imports like the entry. */
  ghost predicate LabelHarmless(t: Tree, entryLabel: string) {
    forall loc {:trigger Names(t, entryLabel, loc)} :: Names(t, entryLabel, loc) && Reachable(t, loc) ==>
        forall p :: Resolve(t, loc, p) == Resolve(t, EntryLocation(t), p)
  }

  lemma EntryIsReachable(t: Tree)
    ensures Reachable(t, EntryLocation(t))
  {
    assert LeadsTo(t, EntryLocation(t), Walk([EntryLocation(t)], []));
  }

  lemma WalkMore(t: Tree, w: Walk, p: string, next: Location)
    requires IsWalk(t, w) && Hop(t, w.files[|w.paths|], p, next)
    ensures IsWalk(t, Walk(w.files + [next], w.paths + [p]))
  {
    var n, files, paths := |w.paths|, w.files + [next], w.paths + [p];
    forall i | 0 <= i <= n ensures Hop(t, files[i], paths[i], files[i + 1]) {
      if i < n { assert Hop(t, w.files[i], w.paths[i], w.files[i + 1]); }
    }
  }

  lemma ReachMore(t: Tree, loc: Location, p: string)
    requires Reachable(t, loc) && Resolve(t, loc, p).Ok?
    ensures Reachable(t, Resolve(t, loc, p).value)
  {
    var w :| LeadsTo(t, loc, w);
    var next := Resolve(t, loc, p).value;
    WalkMore(t, w, p, next);
    assert LeadsTo(t, next, Walk(w.files + [next], w.paths + [p]));
  }

  lemma TablesOkNext(t: Tree, m: Memo, q: Query)
    requires Encodable(t) && TablesOk(t, m)
    ensures TablesOk(t, Next(t, m, q))
  {
    EntryIsReachable(t);
    var src := LocationOf(t, m, q.from);
    if q !in m.answers && Resolve(t, src, q.path).Ok? {
      ResolvedIsInTree(t, src, q.path);
      ReachMore(t, src, q.path);
    }
  }

  lemma {:induction false} TablesOkAfter(t: Tree, qs: seq<Query>)
    requires Encodable(t)
    ensures TablesOk(t, After(t, qs))
  {
    if qs == [] {
    } else {
      TablesOkAfter(t, qs[..|qs| - 1]);
      TablesOkNext(t, After(t, qs[..|qs| - 1]), qs[|qs| - 1]);
    }
  }

  /** Unless a file with the label was recorded that resolves otherwise, a known importedFrom is read as meant. */
  lemma ReadAsMeant(t: Tree, entryLabel: string, m: Memo, from: string, path: string)
    requires Encodable(t) && TablesOk(t, m) && (from == entryLabel || from in m.locs)
    requires entryLabel !in m.locs || LabelHarmless(t, entryLabel)
    ensures Resolve(t, LocationOf(t, m, from), path) == Resolve(t, Meant(t, entryLabel, from), path)
  {
    if from in m.locs {
      SourceOfFoundAt(t, m.locs[from]);
      if from == entryLabel { assert Names(t, entryLabel, m.locs[from]); }
    }
  }

  lemma {:induction false} AnswersOkAfter(t: Tree, entryLabel: string, qs: seq<Query>)
    requires Encodable(t) && Legal(t, entryLabel, qs)
    requires LabelHarmless(t, entryLabel) || forall i :: 0 <= i < |qs| ==> entryLabel !in After(t, qs[..i]).locs
    ensures AnswersOk(t, entryLabel, After(t, qs))
  {
    if qs == [] {
    } else {
      var init, q := qs[..|qs| - 1], qs[|qs| - 1];
      assert forall i :: 0 <= i < |init| ==> qs[..i] == init[..i];
      AnswersOkAfter(t, entryLabel, init);
      TablesOkAfter(t, init);
      ReadAsMeant(t, entryLabel, After(t, init), q.from, q.path);
    }
  }

  /** Where the label is harmless every legal call is answered as the stateless resolver answers it. */
  lemma AnswerIsStateless(t: Tree, entryLabel: string, qs: seq<Query>, q: Query)
    requires Encodable(t) && LabelHarmless(t, entryLabel) && Legal(t, entryLabel, qs + [q])
    ensures Answer(t, After(t, qs), q) == Resolve(t, Meant(t, entryLabel, q.from), q.path)
  {
    OneMore(t, entryLabel, qs, q);
    TablesOkAfter(t, qs);
    AnswersOkAfter(t, entryLabel, qs);
    ReadAsMeant(t, entryLabel, After(t, qs), q.from, q.path);
  }

  /** A label that is nobody's foundAt but of files beside the entry is harmless. */
  lemma LabelOkIsHarmless(t: Tree, entryLabel: string, from: string, path: string)
    requires Encodable(t) && LabelOk(t, entryLabel)
    ensures LabelHarmless(t, entryLabel)
    ensures Resolve(t, Meant(t, entryLabel, from), path) == Resolve(t, SourceOf(t, from), path)
  {
    forall loc | Names(t, entryLabel, loc) ensures forall p :: Resolve(t, loc, p) == Resolve(t, EntryLocation(t), p) {
      forall p ensures Resolve(t, loc, p) == Resolve(t, EntryLocation(t), p) {
        SameSourceResolvesAlike(t, loc, EntryLocation(t), p);
      }
    }
  }

  lemma HarmlessLabelAgrees(t: Tree, entryLabel: string)
    requires Encodable(t) && LabelHarmless(t, entryLabel)
    ensures RunsAgree(t, entryLabel)
  {
    forall a, b, q | Legal(t, entryLabel, a + [q]) && Legal(t, entryLabel, b + [q])
      ensures Answer(t, After(t, a), q) == Answer(t, After(t, b), q)
    {
      AnswerIsStateless(t, entryLabel, a, q);
      AnswerIsStateless(t, entryLabel, b, q);
    }
  }

  // -- a run that records the file with the label -------------------------------------------

  /** A walk to a file with the label that comes neither to it nor back to the entry on the way. */
  ghost predicate Direct(t: Tree, entryLabel: string, w: Walk) {
    && IsWalk(t, w) && w.paths != [] && Names(t, entryLabel, w.files[|w.paths|])
    && forall i :: 0 < i <= |w.paths| ==>
        w.files[i] != EntryLocation(t) && (i < |w.paths| ==> w.files[i] != w.files[|w.paths|])
  }

  /** The n'th import along a walk, made from the file before. */
  ghost function QueryAt(t: Tree, entryLabel: string, w: Walk, n: nat): Query
    requires IsWalk(t, w) && 0 < n <= |w.paths|
  {
    Query(if n == 1 then entryLabel else FoundAt(t, w.files[n - 1]), w.paths[n - 1])
  }

  lemma WalkIsInTree(t: Tree, w: Walk, i: nat)
    requires Encodable(t) && IsWalk(t, w) && 0 < i <= |w.paths|
    ensures Hop(t, w.files[i - 1], w.paths[i - 1], w.files[i]) && InTree(t, w.files[i])
  {
    assert Hop(t, w.files[i - 1], w.paths[i - 1], w.files[i - 1 + 1]);
    ResolvedIsInTree(t, w.files[i - 1], w.paths[i - 1]);
  }

  /** The state after n imports along a direct walk. */
  ghost predicate WentAlong(t: Tree, entryLabel: string, w: Walk, n: nat, m: Memo)
    requires IsWalk(t, w) && n <= |w.paths|
  {
    && (entryLabel in m.locs <==> n == |w.paths|)
    && (n > 0 ==> FoundAt(t, w.files[n]) in m.locs)
    && forall p :: Query(entryLabel, p) in m.answers ==> n > 0 && p == w.paths[0]
  }

  lemma LabelOnlyAtEnd(t: Tree, entryLabel: string, w: Walk, n: nat)
    requires Encodable(t) && Direct(t, entryLabel, w) && 0 < n <= |w.paths|
    ensures InTree(t, w.files[n]) && (FoundAt(t, w.files[n]) == entryLabel <==> n == |w.paths|)
  {
    WalkIsInTree(t, w, n);
    WalkIsInTree(t, w, |w.paths|);
    if n < |w.paths| && FoundAt(t, w.files[n]) == entryLabel { FoundAtInjective(t, w.files[n], w.files[|w.paths|]); }
  }

  /** The n'th query is answered with the n'th file. */
  lemma QueryIsMeant(t: Tree, entryLabel: string, w: Walk, n: nat)
    requires Encodable(t) && Direct(t, entryLabel, w) && 0 < n <= |w.paths|
    ensures var q := QueryAt(t, entryLabel, w, n);
      && Meant(t, entryLabel, q.from) == w.files[n - 1] && Hop(t, w.files[n - 1], q.path, w.files[n])
      && (q.from == entryLabel <==> n == 1)
  {
    WalkIsInTree(t, w, n);
    if n > 1 {
      LabelOnlyAtEnd(t, entryLabel, w, n - 1);
      SourceOfFoundAt(t, w.files[n - 1]);
    }
  }

  /** What one answered call leaves. */
  lemma NextRecords(t: Tree, entryLabel: string, m: Memo, q: Query, next: Location)
    requires TablesOk(t, m) && AnswersOk(t, entryLabel, m) && Answer(t, m, q) == Ok(next)
    requires Resolve(t, Meant(t, entryLabel, q.from), q.path) == Ok(next)
    ensures AnswersOk(t, entryLabel, Next(t, m, q)) && FoundAt(t, next) in Next(t, m, q).locs
    ensures forall f :: f in Next(t, m, q).locs <==> f in m.locs || f == FoundAt(t, next)
    ensures forall p :: Query(entryLabel, p) in Next(t, m, q).answers <==>
        Query(entryLabel, p) in m.answers || q == Query(entryLabel, p)
  {
  }

  /** qs went along the first n imports of a direct walk. */
  ghost predicate AlongOk(t: Tree, entryLabel: string, w: Walk, n: nat, qs: seq<Query>)
    requires IsWalk(t, w) && n <= |w.paths|
  {
    Legal(t, entryLabel, qs) && WentAlong(t, entryLabel, w, n, After(t, qs)) && AnswersOk(t, entryLabel, After(t, qs))
  }

  lemma GoOn(t: Tree, entryLabel: string, w: Walk, n: nat, before: seq<Query>)
    requires Encodable(t) && Direct(t, entryLabel, w) && 0 < n <= |w.paths| && AlongOk(t, entryLabel, w, n - 1, before)
    ensures AlongOk(t, entryLabel, w, n, before + [QueryAt(t, entryLabel, w, n)])
  {
    var m, q := After(t, before), QueryAt(t, entryLabel, w, n);
    OneMore(t, entryLabel, before, q);
    TablesOkAfter(t, before);
    LabelOnlyAtEnd(t, entryLabel, w, n);
    QueryIsMeant(t, entryLabel, w, n);
    ReadAsMeant(t, entryLabel, m, q.from, q.path);
    NextRecords(t, entryLabel, m, q, w.files[n]);
  }

  lemma {:induction false} GoAlong(t: Tree, entryLabel: string, w: Walk, n: nat) returns (qs: seq<Query>)
    requires Encodable(t) && Direct(t, entryLabel, w) && n <= |w.paths|
    ensures AlongOk(t, entryLabel, w, n, qs)
  {
    if n == 0 {
      qs := [];
    } else {
      var before := GoAlong(t, entryLabel, w, n - 1);
      GoOn(t, entryLabel, w, n, before);
      qs := before + [QueryAt(t, entryLabel, w, n)];
    }
  }

  lemma NoDetour(t: Tree, loc: Location, w: Walk, i: nat)
    requires Shortest(t, loc, w) && 0 < i <= |w.paths|
    ensures w.files[i] != EntryLocation(t) && (i < |w.paths| ==> w.files[i] != loc)
  {
    var n, left: nat := |w.paths|, |w.paths| - i;
    var front, back := Walk(w.files[..i + 1], w.paths[..i]), Walk(w.files[i..], w.paths[i..]);
    forall k | 0 <= k < i ensures Hop(t, front.files[k], front.paths[k], front.files[k + 1]) {
      assert Hop(t, w.files[k], w.paths[k], w.files[k + 1]);
    }
    forall k | 0 <= k < n - i ensures Hop(t, back.files[k], back.paths[k], back.files[k + 1]) {
      assert Hop(t, w.files[i + k], w.paths[i + k], w.files[i + k + 1]);
    }
    assert LeadsTo(t, w.files[i], front) && (i < n && w.files[i] == loc ==> ArrivesIn(t, loc, i));
    assert w.files[i] == EntryLocation(t) ==> LeadsTo(t, loc, back) && ArrivesIn(t, loc, left);
  }

  /** A file in reach that has the label and is not the entry is the end of a direct walk. */
  lemma DirectWalk(t: Tree, entryLabel: string, loc: Location) returns (w: Walk)
    requires Encodable(t) && Names(t, entryLabel, loc) && Reachable(t, loc) && loc != EntryLocation(t)
    ensures Direct(t, entryLabel, w) && w.files[|w.paths|] == loc
  {
    var some :| LeadsTo(t, loc, some);
    w := ShortestWalk(t, loc, some);
    forall i | 0 < i <= |w.paths| ensures w.files[i] != EntryLocation(t) && (i < |w.paths| ==> w.files[i] != loc) {
      NoDetour(t, loc, w, i);
    }
  }

  /** Where a file in reach has the label and finds itself under a path under which the entry finds itself, two runs
      disagree: none at all before the call, and the direct walk to that file. */
  lemma DirectRunDisagrees(t: Tree, entryLabel: string, loc: Location, p: string) returns (b: seq<Query>)
    requires Encodable(t) && Names(t, entryLabel, loc) && Reachable(t, loc) && loc != EntryLocation(t)
    requires Resolve(t, EntryLocation(t), p) == Ok(EntryLocation(t)) && Resolve(t, loc, p) == Ok(loc)
    ensures Legal(t, entryLabel, [] + [Query(entryLabel, p)]) && Legal(t, entryLabel, b + [Query(entryLabel, p)])
    ensures Answer(t, After(t, []), Query(entryLabel, p)) == Ok(EntryLocation(t))
    ensures Answer(t, After(t, b), Query(entryLabel, p)) == Ok(loc)
  {
    var w := DirectWalk(t, entryLabel, loc);
    b := GoAlong(t, entryLabel, w, |w.paths|);
    OneMore(t, entryLabel, [], Query(entryLabel, p));
    OneMore(t, entryLabel, b, Query(entryLabel, p));
    WalkIsInTree(t, w, 1);
    TablesOkAfter(t, b);
    FoundAtInjective(t, After(t, b).locs[entryLabel], loc);
  }
}
