/** What a path means: the walk it describes from a directory. path.Clean, path.Dir and path.Join keep it. */
module PathMeaning {
  import opened Archive
  import opened GoPath
  import opened Strings

  /** A directory is the list of names that leads to it; above the root there is only the root. */
  function Enter(at: seq<string>, seg: string): seq<string> {
    if seg == "" || seg == "." then at
    else if seg != ".." then at + [seg]
    else if at == [] then [] else at[..|at| - 1]
  }

  /** Where the elements lead, one after another. */
  function WalkTo(at: seq<string>, segs: seq<string>): seq<string> {
    if segs == [] then at else Enter(WalkTo(at, segs[..|segs| - 1]), segs[|segs| - 1])
  }

  /** Where a path leads from a directory; a rooted one starts at the root. */
  function Leads(at: seq<string>, p: string): seq<string> {
    WalkTo(if Rooted(p) then [] else at, SplitSlash(p))
  }

  lemma WalkOne(at: seq<string>, segs: seq<string>, seg: string)
    ensures WalkTo(at, segs + [seg]) == Enter(WalkTo(at, segs), seg)
  {
    assert (segs + [seg])[..|segs|] == segs;
  }

  lemma {:induction false} WalkConcat(at: seq<string>, a: seq<string>, b: seq<string>)
    ensures WalkTo(at, a + b) == WalkTo(WalkTo(at, a), b)
  {
    if b == [] {
      assert a + b == a;
    } else {
      var init, last := b[..|b| - 1], b[|b| - 1];
      WalkConcat(at, a, init);
      WalkOne(at, a + init, last);
      assert a + b == (a + init) + [last];
    }
  }

  /** Pushing an element onto a normal path is entering it. */
  lemma PushEnters(at: seq<string>, out: seq<string>, seg: string, rooted: bool)
    requires Normal(out, rooted) && (rooted ==> at == [])
    ensures WalkTo(at, Push(out, seg, rooted)) == Enter(WalkTo(at, out), seg)
  {
    assert out != [] ==> NormalAt(out, rooted, |out| - 1);
    if seg == "" || seg == "." {
    } else if seg != ".." {
      WalkOne(at, out, seg);
    } else if out != [] && out[|out| - 1] != ".." {
      var init, last := out[..|out| - 1], out[|out| - 1];
      assert WalkTo(at, out) == WalkTo(at, init) + [last];
    } else if rooted {
    } else {
      WalkOne(at, out, seg);
    }
  }

  lemma {:induction false} CleanSegsLead(at: seq<string>, segs: seq<string>, out: seq<string>, rooted: bool)
    requires Normal(out, rooted) && (rooted ==> at == []) && forall k :: 0 <= k < |segs| ==> '/' !in segs[k]
    ensures WalkTo(at, CleanSegs(segs, out, rooted)) == WalkTo(WalkTo(at, out), segs)
    decreases |segs|
  {
    if segs == [] {
    } else {
      PushKeepsNormal(out, segs[0], rooted);
      PushEnters(at, out, segs[0], rooted);
      CleanSegsLead(at, segs[1..], Push(out, segs[0], rooted), rooted);
      assert segs == [segs[0]] + segs[1..];
      WalkConcat(WalkTo(at, out), [segs[0]], segs[1..]);
      WalkOne(WalkTo(at, out), [], segs[0]);
      assert [] + [segs[0]] == [segs[0]];
    }
  }

  lemma RenderedLeads(at: seq<string>, segs: seq<string>, rooted: bool)
    requires Normal(segs, rooted) && (rooted ==> at == [])
    ensures WalkTo(at, SplitSlash(Render(segs, rooted))) == WalkTo(at, segs)
    ensures Rooted(Render(segs, rooted)) <==> rooted
  {
    NormalMembers(segs, rooted);
    if rooted {
      IndexOfAbsent("", '/');
      SplitConcat("", JoinSlash(segs));
      assert "" + "/" + JoinSlash(segs) == "/" + JoinSlash(segs);
      WalkConcat(at, [""], SplitSlash(JoinSlash(segs)));
      WalkOne(at, [], "");
      assert [] + [""] == [""];
      if segs == [] { assert SplitSlash("") == [""]; } else { SplitOfJoin(segs); }
    } else if segs == [] {
      SplitOfJoin(["."]);
      WalkOne(at, [], ".");
      assert [] + ["."] == ["."];
    } else {
      SplitOfJoin(segs);
      JoinStart(segs);
    }
  }

  /** What is left is in normal form: plain elements, after leading ".." ones that only a relative path may have. */
  lemma CleanIsNormal(p: string)
    ensures var c := Clean(p);
      && (Rooted(c) <==> Rooted(p))
      && (c == "." || c == "/" || Normal(if Rooted(p) then SplitSlash(c)[1..] else SplitSlash(c), Rooted(p)))
  {
    if p != "" {
      var segs := CleanSegs(SplitSlash(p), [], Rooted(p));
      CleanNormalForm(p);
      NormalRenders(segs, Rooted(p));
      NormalMembers(segs, Rooted(p));
      if segs != [] && Rooted(p) { RootedRender(segs); }
    }
  }

  /** Cleaning a path keeps what it means, from every directory. */
  lemma CleanLeads(at: seq<string>, p: string)
    ensures Leads(at, Clean(p)) == Leads(at, p)
  {
    var start := if Rooted(p) then [] else at;
    if p == "" {
      SplitOfJoin(["."]);
      IndexOfAbsent("", '/');
      assert WalkTo(start, ["."]) == Enter(WalkTo(start, []), ".") &&
          WalkTo(start, [""]) == Enter(WalkTo(start, []), "");
    } else {
      var segs := CleanSegs(SplitSlash(p), [], Rooted(p));
      CleanSegsNormal(SplitSlash(p), [], Rooted(p));
      CleanSegsLead(start, SplitSlash(p), [], Rooted(p));
      RenderedLeads(start, segs, Rooted(p));
    }
  }

  /** path.Join walks the one path and then the other. */
  lemma JoinLeads(at: seq<string>, a: string, b: string)
    ensures Leads(at, Join(a, b)) == if a == "" then Leads(at, b) else WalkTo(Leads(at, a), SplitSlash(b))
  {
    if a == "" {
      if b != "" { CleanLeads(at, b); }
    } else if b == "" {
      CleanLeads(at, a);
      IndexOfAbsent("", '/');
      WalkOne(Leads(at, a), [], "");
      assert [] + [""] == [""];
    } else {
      CleanLeads(at, a + "/" + b);
      SplitConcat(a, b);
      WalkConcat(if Rooted(a) then [] else at, SplitSlash(a), SplitSlash(b));
    }
  }

  function Lengthened(segs: seq<string>, c: char): seq<string>
    requires segs != []
  {
    segs[..|segs| - 1] + [segs[|segs| - 1] + [c]]
  }

  lemma {:induction false} JoinLengthened(segs: seq<string>, c: char)
    requires segs != []
    ensures JoinSlash(Lengthened(segs, c)) == JoinSlash(segs) + [c]
  {
    if |segs| > 1 {
      JoinLengthened(segs[1..], c);
      assert Lengthened(segs, c)[1..] == Lengthened(segs[1..], c);
    }
  }

  lemma SplitSnoc(p: string, c: char)
    requires c != '/'
    ensures SplitSlash(p + [c]) == Lengthened(SplitSlash(p), c)
  {
    JoinOfSplit(p);
    JoinLengthened(SplitSlash(p), c);
    SplitOfJoin(Lengthened(SplitSlash(p), c));
  }

  /** path.Dir drops the last element. */
  lemma {:induction false} SplitOfDirPart(p: string)
    ensures var s := SplitSlash(p); SplitSlash(DirPart(p)) == s[..|s| - 1] + [""]
    decreases |p|
  {
    if p == "" {
      IndexOfAbsent("", '/');
    } else {
      var init, c := p[..|p| - 1], p[|p| - 1];
      assert p == init + [c];
      if c == '/' {
        assert p == init + "/" + "";
        IndexOfAbsent("", '/');
        SplitConcat(init, "");
      } else {
        SplitSnoc(init, c);
        SplitOfDirPart(init);
      }
    }
  }

  lemma {:induction false} DirPartRooted(p: string)
    ensures Rooted(DirPart(p)) <==> Rooted(p)
    decreases |p|
  {
    if p == "" || p[|p| - 1] == '/' {
    } else {
      DirPartRooted(p[..|p| - 1]);
    }
  }

  lemma DirLeads(at: seq<string>, p: string)
    ensures var s := SplitSlash(p); Leads(at, Dir(p)) == WalkTo(if Rooted(p) then [] else at, s[..|s| - 1])
  {
    var s := SplitSlash(p);
    SplitOfDirPart(p);
    CleanLeads(at, DirPart(p));
    DirPartRooted(p);
    WalkOne(if Rooted(p) then [] else at, s[..|s| - 1], "");
  }

  /** Importing p from a file is walking p from the directory of that file. */
  lemma RelativeLeads(at: seq<string>, file: string, p: string)
    ensures var s := SplitSlash(file);
      Leads(at, Clean(Join(Dir(file), p))) ==
          WalkTo(WalkTo(if Rooted(file) then [] else at, s[..|s| - 1]), SplitSlash(p))
  {
    CleanNormalForm(DirPart(file));
    JoinLeads(at, Dir(file), p);
    CleanLeads(at, Join(Dir(file), p));
    DirLeads(at, file);
  }

  // -- what the store lets into an archive ------------------------------------------------

  lemma {:induction false} WalkStaysBelow(at: seq<string>, segs: seq<string>)
    requires ".." !in segs
    ensures at <= WalkTo(at, segs)
  {
    if segs == [] {
    } else {
      var init, last := segs[..|segs| - 1], segs[|segs| - 1];
      assert last in segs && forall s <- init :: s in segs;
      WalkStaysBelow(at, init);
    }
  }

  /** Wherever the archive is unpacked, a member the store accepts lands below that directory. */
  lemma StoredNamesStayInside(at: seq<string>, p: string)
    requires ValidTarEntryPath(p)
    ensures at <= Leads(at, p)
  {
    assert p[..1] == [p[0]];
    WalkStaysBelow(at, SplitSlash(p));
  }

  /** What the store refuses, in full. */
  lemma RefusedNames(p: string)
    ensures !ValidTarEntryPath(p) <==>
        || p == "" || p[0] == '/' || '\0' in p || '\\' in p
        || exists i :: 0 <= i < |SplitSlash(p)| && SplitSlash(p)[i] == ".."
  {
    if p != "" && p[0] == '/' { assert p[..1] == "/"; }
    if HasPrefix(p, "/") { PrefixChars(p, "/"); }
  }
}
