/** Go's path.Clean, path.Join and path.Dir, segment by segment. */
module GoPath {
  import opened Strings

  /** strings.Split(p, "/"). */
  function SplitSlash(p: string): (segs: seq<string>)
    ensures segs != []
    ensures forall k :: 0 <= k < |segs| ==> '/' !in segs[k]
    decreases |p|
  {
    var i := IndexOf(p, '/');
    IndexOfIsFirst(p, '/');
    if i == |p| then [p] else [p[..i]] + SplitSlash(p[i + 1..])
  }

  function JoinSlash(segs: seq<string>): string {
    if segs == [] then ""
    else if |segs| == 1 then segs[0]
    else segs[0] + "/" + JoinSlash(segs[1..])
  }

  /** One path element seen by Clean, on top of the elements kept so far. */
  function Push(out: seq<string>, seg: string, rooted: bool): seq<string> {
    if seg == "" || seg == "." then out
    else if seg != ".." then out + [seg]
    else if out != [] && out[|out| - 1] != ".." then out[..|out| - 1]
    else if rooted then out
    else out + [".."]
  }

  function CleanSegs(segs: seq<string>, out: seq<string>, rooted: bool): seq<string>
    decreases |segs|
  {
    if segs == [] then out else CleanSegs(segs[1..], Push(out, segs[0], rooted), rooted)
  }

  predicate Rooted(p: string) { p != "" && p[0] == '/' }

  function Render(segs: seq<string>, rooted: bool): string {
    if rooted then "/" + JoinSlash(segs) else if segs == [] then "." else JoinSlash(segs)
  }

  function Clean(p: string): string {
    if p == "" then "." else Render(CleanSegs(SplitSlash(p), [], Rooted(p)), Rooted(p))
  }

  function Join(a: string, b: string): string {
    if a == "" && b == "" then ""
    else Clean(if a == "" then b else if b == "" then a else a + "/" + b)
  }

  /** Everything up to and including the last slash. */
  function DirPart(p: string): string
    decreases |p|
  {
    if p == "" || p[|p| - 1] == '/' then p else DirPart(p[..|p| - 1])
  }

  function Dir(p: string): string { Clean(DirPart(p)) }

  // -- what Clean produces -----------------------------------------------------

  predicate Plain(seg: string) { seg != "" && seg != "." && seg != ".." && '/' !in seg }

  /** Plain elements, after leading ".." ones that only a relative path may have. */
  ghost predicate NormalAt(segs: seq<string>, rooted: bool, i: nat)
    requires i < |segs|
  {
    Plain(segs[i]) || (segs[i] == ".." && !rooted && (i == 0 || segs[i - 1] == ".."))
  }

  ghost predicate Normal(segs: seq<string>, rooted: bool) {
    forall i :: 0 <= i < |segs| ==> NormalAt(segs, rooted, i)
  }

  lemma PushKeepsNormal(out: seq<string>, seg: string, rooted: bool)
    requires Normal(out, rooted) && '/' !in seg
    ensures Normal(Push(out, seg, rooted), rooted)
  {
    var next := Push(out, seg, rooted);
    if seg == "" || seg == "." {
    } else if seg != ".." {
      forall i | 0 <= i < |next| ensures NormalAt(next, rooted, i) {
        if i < |out| { assert NormalAt(out, rooted, i); }
      }
    } else {
      if out != [] { assert NormalAt(out, rooted, |out| - 1); }
      forall i | 0 <= i < |next| ensures NormalAt(next, rooted, i) {
        if i < |out| { assert NormalAt(out, rooted, i); }
      }
    }
  }

  lemma {:induction false} CleanSegsNormal(segs: seq<string>, out: seq<string>, rooted: bool)
    requires Normal(out, rooted) && forall k :: 0 <= k < |segs| ==> '/' !in segs[k]
    ensures Normal(CleanSegs(segs, out, rooted), rooted)
    decreases |segs|
  {
    if segs == [] {
    } else {
      PushKeepsNormal(out, segs[0], rooted);
      CleanSegsNormal(segs[1..], Push(out, segs[0], rooted), rooted);
    }
  }

  lemma NormalTake(segs: seq<string>, rooted: bool, k: nat)
    requires Normal(segs, rooted) && k < |segs|
    ensures Push(segs[..k], segs[k], rooted) == segs[..k + 1]
  {
    assert NormalAt(segs, rooted, k);
    assert segs[..k + 1] == segs[..k] + [segs[k]];
    assert k > 0 ==> segs[..k][|segs[..k]| - 1] == segs[k - 1];
  }

  lemma NormalMembers(segs: seq<string>, rooted: bool)
    requires Normal(segs, rooted)
    ensures forall i :: 0 <= i < |segs| ==> segs[i] != "" && '/' !in segs[i]
  {
    forall i | 0 <= i < |segs| ensures segs[i] != "" && '/' !in segs[i] {
      assert NormalAt(segs, rooted, i);
    }
  }

  lemma {:induction false} NormalIsFixed(segs: seq<string>, rooted: bool, k: nat)
    requires Normal(segs, rooted) && k <= |segs|
    ensures CleanSegs(segs[k..], segs[..k], rooted) == segs
    decreases |segs| - k
  {
    if k < |segs| {
      NormalTake(segs, rooted, k);
      assert segs[k..][1..] == segs[k + 1..];
      NormalIsFixed(segs, rooted, k + 1);
    } else {
      assert segs[k..] == [] && segs[..k] == segs;
    }
  }

  lemma {:induction false} SplitOfJoin(segs: seq<string>)
    requires segs != [] && forall k :: 0 <= k < |segs| ==> '/' !in segs[k]
    ensures SplitSlash(JoinSlash(segs)) == segs
  {
    var p := JoinSlash(segs);
    if |segs| == 1 {
      IndexOfAbsent(p, '/');
    } else {
      var rest := JoinSlash(segs[1..]);
      assert p == segs[0] + ['/'] + rest;
      CutIs(segs[0], rest, '/');
      SplitOfJoin(segs[1..]);
    }
  }

  lemma {:induction false} JoinOfSplit(p: string)
    ensures JoinSlash(SplitSlash(p)) == p
    decreases |p|
  {
    var i := IndexOf(p, '/');
    if i == |p| {
    } else {
      JoinOfSplit(p[i + 1..]);
      assert p == p[..i] + "/" + p[i + 1..];
    }
  }

  lemma {:induction false} SplitConcat(p: string, q: string)
    ensures SplitSlash(p + "/" + q) == SplitSlash(p) + SplitSlash(q)
    decreases |p|
  {
    var s := p + "/" + q;
    var i := IndexOf(p, '/');
    IndexOfIsFirst(p, '/');
    assert forall k :: 0 <= k < i ==> s[k] == p[k];
    IndexOfIs(s, '/', i);
    assert s[..i] == p[..i];
    if i < |p| {
      assert s[i + 1..] == p[i + 1..] + "/" + q;
      SplitConcat(p[i + 1..], q);
    } else {
      assert s[i + 1..] == q && p[..i] == p;
    }
  }

  lemma {:induction false} CleanSegsConcat(a: seq<string>, b: seq<string>, out: seq<string>, rooted: bool)
    ensures CleanSegs(a + b, out, rooted) == CleanSegs(b, CleanSegs(a, out, rooted), rooted)
    decreases |a|
  {
    if a == [] {
      assert a + b == b;
    } else {
      assert (a + b)[1..] == a[1..] + b;
      CleanSegsConcat(a[1..], b, Push(out, a[0], rooted), rooted);
    }
  }

  lemma JoinStart(segs: seq<string>)
    requires segs != [] && segs[0] != ""
    ensures JoinSlash(segs) != "" && JoinSlash(segs)[0] == segs[0][0]
  {
  }

  lemma RootedRender(segs: seq<string>)
    requires segs != [] && forall i :: 0 <= i < |segs| ==> '/' !in segs[i]
    ensures SplitSlash("/" + JoinSlash(segs)) == [""] + segs
    ensures CleanSegs([""] + segs, [], true) == CleanSegs(segs, [], true)
  {
    assert ([""] + segs)[1..] == segs;
    assert JoinSlash([""] + segs) == "" + "/" + JoinSlash(segs) == "/" + JoinSlash(segs);
    SplitOfJoin([""] + segs);
  }

  lemma EmptyRenders(rooted: bool)
    ensures Clean(Render([], rooted)) == Render([], rooted)
    ensures Rooted(Render([], rooted)) == rooted
  {
    if rooted {
      assert SplitSlash("/") == ["", ""] by { SplitOfJoin(["", ""]); assert JoinSlash(["", ""]) == "/"; }
      assert CleanSegs(["", ""], [], true) == CleanSegs([""], [], true) == [];
    } else {
      assert SplitSlash(".") == ["."] by { SplitOfJoin(["."]); }
      assert CleanSegs(["."], [], false) == [];
    }
  }

  lemma NormalRenders(segs: seq<string>, rooted: bool)
    requires Normal(segs, rooted)
    ensures Render(segs, rooted) != "" && Rooted(Render(segs, rooted)) == rooted
    ensures Clean(Render(segs, rooted)) == Render(segs, rooted)
    ensures segs != [] && !rooted ==> SplitSlash(Render(segs, rooted)) == segs
  {
    NormalMembers(segs, rooted);
    if segs == [] {
      EmptyRenders(rooted);
    } else {
      JoinStart(segs);
      assert segs[0][0] in segs[0];
      assert segs[0..] == segs && segs[..0] == [];
      NormalIsFixed(segs, rooted, 0);
      if rooted {
        RootedRender(segs);
      } else {
        SplitOfJoin(segs);
      }
    }
  }

  /** The segments Clean settles on are what splitting its result gives back. */
  lemma CleanNormalForm(p: string)
    ensures Clean(p) != ""
    ensures p != "" ==> Normal(CleanSegs(SplitSlash(p), [], Rooted(p)), Rooted(p))
  {
    if p != "" {
      CleanSegsNormal(SplitSlash(p), [], Rooted(p));
      NormalRenders(CleanSegs(SplitSlash(p), [], Rooted(p)), Rooted(p));
    }
  }

  /** Cleaning twice changes nothing more. */
  lemma CleanIdempotent(p: string)
    ensures Clean(Clean(p)) == Clean(p)
  {
    if p == "" {
      EmptyRenders(false);
    } else {
      CleanNormalForm(p);
      NormalRenders(CleanSegs(SplitSlash(p), [], Rooted(p)), Rooted(p));
    }
  }

  /** The guard of the relative import step, and exactly what it rules out: a first element "..". */
  predicate Escapes(rel: string) { rel == ".." || HasPrefix(rel, "../") }

  lemma EscapesIff(segs: seq<string>)
    requires Normal(segs, false)
    ensures Escapes(Render(segs, false)) <==> segs != [] && segs[0] == ".."
  {
    if segs != [] {
      NormalMembers(segs, false);
      var rel := JoinSlash(segs);
      var head := segs[0];
      if HasPrefix(rel, "../") {
        PrefixChars(rel, "../");
        assert rel[0] == "../"[0] && rel[1] == "../"[1] && rel[2] == "../"[2];
      }
      assert forall i :: 0 <= i < |head| ==> rel[i] == head[i] && head[i] in head;
      assert |head| == 2 ==> head == [head[0], head[1]];
      if |segs| == 1 {
        assert rel == head;
      } else {
        assert rel == head + ("/" + JoinSlash(segs[1..]));
        assert rel[|head|] == '/';
        if head == ".." {
          assert rel[..3] == head + "/" == "../";
        } else if |head| == 2 {
          assert rel[0] == head[0] && rel[1] == head[1];
        }
        assert rel != ".." by { assert ".."[0] == '.' && ".."[1] == '.'; }
      }
    }
  }
}
