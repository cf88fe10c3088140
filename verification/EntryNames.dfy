/** normaliseEntry and SafeEntryName of internal/sources/sources.go: which archive members a consumer keeps,
    and under which name. */
module EntryNames {
  import opened Archive
  import opened GoPath
  import opened Strings
  import opened Wrappers

  predicate IsSafePathByte(c: char) {
    'a' <= c <= 'z' || 'A' <= c <= 'Z' || '0' <= c <= '9' || c == '.' || c == '_' || c == '-' || c == '/'
  }

  /** The allowed bytes: letters, digits, and four others. */
  lemma SafeByteIff(c: char)
    ensures IsSafePathByte(c) <==> IsLower(c) || IsUpper(c) || IsDigit(c) || c in "._-/"
  {
    LowerRange(c);
    UpperRange(c);
    DigitRange(c);
    assert c in "._-/" <==> c == '.' || c == '_' || c == '-' || c == '/' by {
      assert "._-/"[0] == '.' && "._-/"[1] == '_' && "._-/"[2] == '-' && "._-/"[3] == '/';
    }
  }

  predicate SafeBytes(p: string) { forall c <- p :: IsSafePathByte(c) }

  /** Hidden elements; "." and ".." are among them. */
  predicate HasHidden(p: string) { exists seg <- SplitSlash(p) :: HasPrefix(seg, ".") }

  function TrimSlash(p: string): string {
    if p != "" && p[|p| - 1] == '/' then p[..|p| - 1] else p
  }

  function NormaliseEntry(raw: string, pathPrefix: string): Option<string> {
    var cleaned := Clean(raw);
    var base := TrimSlash(pathPrefix) + "/";
    if raw == "" || HasPrefix(raw, "/") then None
    else if '\0' in raw || '\\' in raw then None
    else if HasHidden(cleaned) || !SafeBytes(cleaned) then None
    else if pathPrefix == "" then Some(cleaned)
    else if HasPrefix(cleaned, base) then Some(cleaned[|base|..])
    else None
  }

  predicate SafeEntryName(name: string) { NormaliseEntry(name, "").Some? }

  /** A name that is its own normal form: visible elements of safe bytes, nothing to clean. */
  ghost predicate Canonical(name: string) {
    SafeBytes(name) && forall seg <- SplitSlash(name) :: seg != "" && !HasPrefix(seg, ".")
  }

  lemma SplitKeepsChars(p: string, seg: string, c: char)
    requires seg in SplitSlash(p) && c in seg
    ensures c in p
    decreases |p|
  {
    var i := IndexOf(p, '/');
    if i < |p| && seg != p[..i] { SplitKeepsChars(p[i + 1..], seg, c); }
  }

  lemma VisibleIsPlain(seg: string)
    requires seg != "" && !HasPrefix(seg, ".") && '/' !in seg
    ensures Plain(seg)
  {
  }

  lemma CanonicalIsNormal(name: string)
    requires Canonical(name)
    ensures Normal(SplitSlash(name), false) && Clean(name) == name && !Rooted(name)
  {
    var segs := SplitSlash(name);
    forall i | 0 <= i < |segs| ensures NormalAt(segs, false, i) {
      assert segs[i] in segs;
      VisibleIsPlain(segs[i]);
    }
    JoinOfSplit(name);
    NormalRenders(segs, false);
  }

  lemma SafeBytesExclude(p: string)
    requires SafeBytes(p)
    ensures '\0' !in p && '\\' !in p
  {
  }

  lemma EmptyIsHidden()
    ensures HasHidden(".") && !Canonical("")
  {
    assert SplitSlash(".")[0] in SplitSlash(".") && HasPrefix(".", ".");
    assert SplitSlash("")[0] in SplitSlash("");
  }

  lemma RootedIsPrefix(p: string)
    ensures Rooted(p) <==> HasPrefix(p, "/")
  {
    if HasPrefix(p, "/") { PrefixChars(p, "/"); }
    if Rooted(p) { assert p[..1] == [p[0]]; }
  }

  lemma CleanNameIsCanonical(raw: string)
    requires SafeEntryName(raw)
    ensures Canonical(Clean(raw))
  {
    var segs := CleanSegs(SplitSlash(raw), [], Rooted(raw));
    CleanNormalForm(raw);
    NormalRenders(segs, Rooted(raw));
    NormalMembers(segs, Rooted(raw));
    RootedIsPrefix(raw);
    EmptyIsHidden();
    forall seg | seg in SplitSlash(Clean(raw)) ensures seg != "" {
      var i :| 0 <= i < |segs| && segs[i] == seg;
    }
  }

  /** Canonical names are exactly those a consumer keeps as they are. */
  lemma KeptAsIs(name: string)
    ensures Canonical(name) <==> NormaliseEntry(name, "") == Some(name)
    ensures Canonical(name) <==> SafeEntryName(name) && Clean(name) == name
  {
    if Canonical(name) {
      CanonicalIsNormal(name);
      SafeBytesExclude(name);
      EmptyIsHidden();
      RootedIsPrefix(name);
    }
    if NormaliseEntry(name, "") == Some(name) { CleanNameIsCanonical(name); }
  }

  /** Whatever is kept is canonical, prefix stripped or not, and is the tail of the cleaned name. */
  lemma KeptIsCanonical(raw: string, pathPrefix: string, name: string)
    requires NormaliseEntry(raw, pathPrefix) == Some(name)
    ensures Canonical(name)
    ensures Clean(raw) == (if pathPrefix == "" then name else TrimSlash(pathPrefix) + "/" + name)
  {
    CleanNameIsCanonical(raw);
    if pathPrefix != "" {
      var base, cleaned := TrimSlash(pathPrefix) + "/", Clean(raw);
      assert cleaned == cleaned[..|base|] + cleaned[|base|..] == base + name;
      SplitConcat(TrimSlash(pathPrefix), name);
      forall seg | seg in SplitSlash(name) ensures seg in SplitSlash(cleaned) {}
    }
  }

  /** The member called raw lies at name below the prefix: its cleaned name is the prefix, a slash, and name. */
  ghost predicate LiesAt(raw: string, pathPrefix: string, name: string) {
    Clean(raw) ==
      if pathPrefix == "" then name
      else if pathPrefix[|pathPrefix| - 1] == '/' then pathPrefix + name
      else pathPrefix + "/" + name
  }

  /** Safe names, spelled out: relative, without NUL and backslash, and cleaned to visible elements of safe bytes. */
  lemma SafeIff(raw: string)
    ensures SafeEntryName(raw) <==>
        raw != "" && raw[0] != '/' && '\0' !in raw && '\\' !in raw && Canonical(Clean(raw))
  {
    RootedIsPrefix(raw);
    if SafeEntryName(raw) { CleanNameIsCanonical(raw); }
  }

  /** Both directions, for every prefix: a member is kept under a name iff its own is safe and it lies there. */
  lemma KeptIff(raw: string, pathPrefix: string, name: string)
    ensures NormaliseEntry(raw, pathPrefix) == Some(name) <==> SafeEntryName(raw) && LiesAt(raw, pathPrefix, name)
  {
    var base := TrimSlash(pathPrefix) + "/";
    if pathPrefix != "" {
      if pathPrefix[|pathPrefix| - 1] == '/' { assert base == pathPrefix; }
      if LiesAt(raw, pathPrefix, name) {
        assert Clean(raw) == base + name && (base + name)[..|base|] == base && (base + name)[|base|..] == name;
      }
      if NormaliseEntry(raw, pathPrefix) == Some(name) {
        assert Clean(raw) == Clean(raw)[..|base|] + Clean(raw)[|base|..];
      }
    }
  }

  /** What a consumer keeps as it is, the store accepts as a member name. */
  lemma CanonicalIsStorable(name: string)
    requires Canonical(name)
    ensures ValidTarEntryPath(name)
  {
    KeptAsIs(name);
    SafeBytesExclude(name);
    assert ".."[..1] == ".";
    assert HasPrefix("..", ".");
  }

  predicate Visible(seg: string) { seg != "" && !HasPrefix(seg, ".") && '/' !in seg && SafeBytes(seg) }

  lemma VisibleIsCanonical(name: string)
    requires Visible(name)
    ensures Canonical(name)
  {
    IndexOfAbsent(name, '/');
  }

  lemma KeptAs(raw: string, segs: seq<string>, name: string)
    requires raw != "" && SafeBytes(raw) && !Rooted(raw) && SplitSlash(raw) == segs
    requires Canonical(name) && CleanSegs(segs, [], false) == SplitSlash(name)
    ensures NormaliseEntry(raw, "") == Some(name)
  {
    JoinOfSplit(name);
    CanonicalIsNormal(name);
    SafeBytesExclude(raw);
    RootedIsPrefix(raw);
    KeptAsIs(name);
  }

  lemma SplitTwo(a: string, b: string)
    requires '/' !in a && '/' !in b
    ensures SplitSlash(a + "/" + b) == [a, b]
  {
    IndexOfAbsent(a, '/');
    IndexOfAbsent(b, '/');
    SplitConcat(a, b);
  }

  lemma SplitThree(a: string, b: string, c: string)
    requires '/' !in a && '/' !in b && '/' !in c
    ensures SplitSlash(a + "/" + b + "/" + c) == [a, b, c]
  {
    IndexOfAbsent(a, '/');
    IndexOfAbsent(b, '/');
    IndexOfAbsent(c, '/');
    SplitConcat(a + "/" + b, c);
    SplitConcat(a, b);
  }

  /** A safe name need not be canonical: then a consumer sees another name ... */
  lemma DoubledSlashIsDropped(a: string, b: string)
    requires Visible(a) && Visible(b)
    ensures NormaliseEntry(a + "/" + "" + "/" + b, "") == Some(a + "/" + b)
  {
    SplitThree(a, "", b);
    SplitTwo(a, b);
    var segs := [a, "", b];
    assert segs[1..] == ["", b] && ["", b][1..] == [b] && [b][1..] == [] && [a] + [b] == [a, b];
    assert Push([], a, false) == [a] && Push([a], "", false) == [a] && Push([a], b, false) == [a, b];
    assert CleanSegs(segs, [], false) == CleanSegs(["", b], [a], false) == CleanSegs([b], [a], false);
    assert CleanSegs([b], [a], false) == CleanSegs([], [a, b], false);
    KeptAs(a + "/" + "" + "/" + b, segs, a + "/" + b);
  }

  lemma TraversalCleans(a: string, b: string)
    requires Visible(a) && Visible(b)
    ensures CleanSegs([a, "..", b], [], false) == [b]
  {
    assert [a, "..", b][1..] == ["..", b] && ["..", b][1..] == [b] && [b][1..] == [];
    assert Push([], a, false) == [a] && Push([a], "..", false) == [] && Push([], b, false) == [b];
    assert CleanSegs([a, "..", b], [], false) == CleanSegs(["..", b], [a], false) == CleanSegs([b], [], false);
    assert CleanSegs([b], [], false) == CleanSegs([], [b], false);
  }

  /** ... and the store may refuse it altogether. */
  lemma InnerTraversalIsRefused(a: string, b: string)
    requires Visible(a) && Visible(b)
    ensures NormaliseEntry(a + "/" + ".." + "/" + b, "") == Some(b) && !ValidTarEntryPath(a + "/" + ".." + "/" + b)
  {
    SplitThree(a, "..", b);
    var segs := [a, "..", b];
    TraversalCleans(a, b);
    KeptAs(a + "/" + ".." + "/" + b, segs, b);
    assert segs[1] in segs;
  }
}
