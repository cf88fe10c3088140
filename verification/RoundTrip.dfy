/** Output=source publishing (buildEntries, the size checks of Publish and sourceArchiveRevision in
    internal/operator/publisher.go), and what a consumer extracts from the published archive. */
module RoundTrip {
  import opened Archive
  import opened Common
  import opened EntryNames
  import opened Extraction
  import opened Strings
  import opened Wrappers

  /** A Go map is enumerated in an order of the runtime's choosing. */
  ghost predicate Enumerates(order: seq<string>, files: Files) {
    Distinct(order) && forall k :: k in order <==> k in files
  }

  function EntriesIn(files: Files, order: seq<string>): (es: seq<FileEntry>)
    requires forall k <- order :: k in files
  {
    seq(|order|, i requires 0 <= i < |order| => FileEntry(order[i], files[order[i]]))
  }

  /** The published archive: every file under its name, in name order. */
  function ArchiveOf(files: Files): Tarball {
    EntriesIn(files, SortedListing(files.Keys))
  }

  // -- publishing -------------------------------------------------------------------

  method BuildEntries(files: Files, order: seq<string>) returns (r: Result<seq<FileEntry>, string>)
    requires Enumerates(order, files)
    ensures r.Ok? <==> forall k <- files.Keys :: SafeEntryName(k)
    ensures r.Ok? ==> r.value == EntriesIn(files, order)
    ensures r.Err? ==> r.error in files && !SafeEntryName(r.error)
  {
    var entries: seq<FileEntry> := [];
    for i := 0 to |order|
      invariant entries == EntriesIn(files, order[..i])
      invariant forall j :: 0 <= j < i ==> SafeEntryName(order[j])
    {
      if !SafeEntryName(order[i]) { return Err(order[i]); }
      entries := entries + [FileEntry(order[i], files[order[i]])];
    }
    assert order[..|order|] == order;
    return Ok(entries);
  }

  function ContentSum(es: seq<FileEntry>): nat {
    if es == [] then 0 else ContentSum(es[..|es| - 1]) + |es[|es| - 1].content|
  }

  /** The consumers' caps hold in every mode; maxArtifact is the operator's own, zero for none. */
  ghost predicate Publishable(es: seq<FileEntry>, maxArtifact: int) {
    && (forall i :: 0 <= i < |es| ==> |es[i].content| <= DEFAULT_MAX_PER_ENTRY)
    && ContentSum(es) <= DEFAULT_MAX_EXTRACTED
    && (maxArtifact > 0 ==> ContentSum(es) <= maxArtifact)
  }

  method CheckSizes(es: seq<FileEntry>, maxArtifact: int) returns (ok: bool)
    ensures ok <==> Publishable(es, maxArtifact)
  {
    var total := 0;
    for i := 0 to |es|
      invariant total == ContentSum(es[..i])
      invariant forall j :: 0 <= j < i ==> |es[j].content| <= DEFAULT_MAX_PER_ENTRY
    {
      if |es[i].content| > DEFAULT_MAX_PER_ENTRY { return false; }
      assert es[..i + 1][..i] == es[..i];
      total := total + |es[i].content|;
    }
    assert es[..|es|] == es;
    ok := total <= DEFAULT_MAX_EXTRACTED && !(maxArtifact > 0 && total > maxArtifact);
  }

  // -- enumeration order does not matter --------------------------------------------

  lemma {:induction false} CountsOf<T>(q: seq<T>, x: T)
    requires forall i, j :: 0 <= i < j < |q| ==> q[i] != q[j]
    ensures multiset(q)[x] == if x in q then 1 else 0
  {
    if q == [] {
    } else {
      CountsOf(q[..|q| - 1], x);
      assert q == q[..|q| - 1] + [q[|q| - 1]];
    }
  }

  lemma EntryIn(files: Files, order: seq<string>, e: FileEntry)
    requires Enumerates(order, files)
    ensures e in EntriesIn(files, order) <==> e.path in files && e.content == files[e.path]
  {
    if e.path in files && e.content == files[e.path] {
      var i :| 0 <= i < |order| && order[i] == e.path;
      assert EntriesIn(files, order)[i] == e;
    }
  }

  lemma SameEntries(files: Files, a: seq<string>, b: seq<string>)
    requires Enumerates(a, files) && Enumerates(b, files)
    ensures multiset(EntriesIn(files, a)) == multiset(EntriesIn(files, b))
  {
    var x, y := EntriesIn(files, a), EntriesIn(files, b);
    forall e ensures multiset(x)[e] == multiset(y)[e] {
      CountsOf(x, e);
      CountsOf(y, e);
      EntryIn(files, a, e);
      EntryIn(files, b, e);
    }
  }

  lemma ListingEnumerates(files: Files)
    ensures Enumerates(SortedListing(files.Keys), files)
  {
  }

  /** The tree's entries, whatever order they came in, sorted by path are its archive. */
  lemma SortedIsArchive(files: Files, order: seq<string>, a: Tarball)
    requires Enumerates(order, files) && multiset(a) == multiset(EntriesIn(files, order)) && SortedByPath(a)
    ensures a == ArchiveOf(files)
  {
    ListingEnumerates(files);
    SameEntries(files, order, SortedListing(files.Keys));
    assert SortedByPath(ArchiveOf(files)) && DistinctPaths(ArchiveOf(files));
    SortedOrderUnique(ArchiveOf(files), a);
  }

  /** Whatever order the runtime chose, the archive is the same. */
  lemma ArchiveIgnoresMapOrder(files: Files, order: seq<string>)
    requires Enumerates(order, files)
    ensures SortEntries(EntriesIn(files, order)) == ArchiveOf(files)
  {
    SortIsSorted(EntriesIn(files, order));
    SortedIsArchive(files, order, SortEntries(EntriesIn(files, order)));
  }

  lemma OneLess(files: Files, order: seq<string>)
    requires Enumerates(order, files) && order != []
    ensures var init, last := order[..|order| - 1], order[|order| - 1];
      last in files && Enumerates(init, files - {last}) && (files - {last})[last := files[last]] == files
  {
    var init, last := order[..|order| - 1], order[|order| - 1];
    assert order == init + [last];
  }

  lemma SameInit(files: Files, fewer: Files, order: seq<string>)
    requires order != [] && forall k <- order :: k in files
    requires forall k <- order[..|order| - 1] :: k in fewer && fewer[k] == files[k]
    ensures EntriesIn(files, order)[..|order| - 1] == EntriesIn(fewer, order[..|order| - 1])
  {
  }

  lemma {:induction false} SumOf(files: Files, order: seq<string>)
    requires Enumerates(order, files)
    ensures ContentSum(EntriesIn(files, order)) == BodySum(files)
  {
    if order == [] {
      assert files == map[];
    } else {
      var init, last := order[..|order| - 1], order[|order| - 1];
      var fewer := files - {last};
      OneLess(files, order);
      SumOf(fewer, init);
      BodySumAdd(fewer, last, files[last]);
      SameInit(files, fewer, order);
    }
  }

  lemma EntryCapIff(files: Files, order: seq<string>, c: nat)
    requires Enumerates(order, files)
    ensures (forall i :: 0 <= i < |order| ==> |EntriesIn(files, order)[i].content| <= c) <==>
        forall k <- files.Keys :: |files[k]| <= c
  {
    var es := EntriesIn(files, order);
    if forall i :: 0 <= i < |es| ==> |es[i].content| <= c {
      forall k | k in files ensures |files[k]| <= c {
        var i :| 0 <= i < |order| && order[i] == k;
        assert |es[i].content| <= c;
      }
    }
    assert forall i :: 0 <= i < |es| ==> es[i].content == files[order[i]] && order[i] in files;
  }

  lemma PublishableIff(files: Files, order: seq<string>, maxArtifact: int)
    requires Enumerates(order, files)
    ensures Publishable(EntriesIn(files, order), maxArtifact) <==>
        Fits(files, Caps(DEFAULT_MAX_EXTRACTED, DEFAULT_MAX_PER_ENTRY)) &&
            (maxArtifact > 0 ==> BodySum(files) <= maxArtifact)
  {
    SumOf(files, order);
    EntryCapIff(files, order, DEFAULT_MAX_PER_ENTRY);
    var es := EntriesIn(files, order);
    assert |es| == |order|;
  }

  lemma UsableIff(files: Files, order: seq<string>)
    requires Enumerates(order, files)
    ensures AllNamesUsable(EntriesIn(files, order)) <==> forall k <- files.Keys :: ValidTarEntryPath(k)
  {
    var es := EntriesIn(files, order);
    forall k | k in files ensures exists i :: 0 <= i < |es| && es[i].path == k {
      EntryIn(files, order, FileEntry(k, files[k]));
    }
    assert forall i :: 0 <= i < |es| ==> es[i].path == order[i] && order[i] in order;
  }

  datatype PublishError = UnsafeName(name: string) | TooLarge | Unusable(name: string)

  /** buildEntries, the size checks and the archive Store.Put writes. */
  method PublishSource(files: Files, order: seq<string>, maxArtifact: int) returns (r: Result<Tarball, PublishError>)
    requires Enumerates(order, files)
    ensures r.Ok? <==>
        && (forall k <- files.Keys :: SafeEntryName(k) && ValidTarEntryPath(k))
        && Fits(files, Caps(DEFAULT_MAX_EXTRACTED, DEFAULT_MAX_PER_ENTRY))
        && (maxArtifact > 0 ==> BodySum(files) <= maxArtifact)
    ensures r.Ok? ==> r.value == ArchiveOf(files)
  {
    var entries := BuildEntries(files, order);
    if entries.Err? { return Err(UnsafeName(entries.error)); }
    var ok := CheckSizes(entries.value, maxArtifact);
    PublishableIff(files, order, maxArtifact);
    if !ok { return Err(TooLarge); }
    var t := WriteTarGz(entries.value);
    UsableIff(files, order);
    if t.Err? { return Err(Unusable(t.error)); }
    ArchiveIgnoresMapOrder(files, order);
    return Ok(t.value);
  }

  // -- what a consumer gets -----------------------------------------------------------

  function MembersOf(t: Tarball): (ms: seq<Member>)
    ensures Truthful(ms)
  {
    seq(|t|, i requires 0 <= i < |t| => Member(t[i].path, true, |t[i].content|, t[i].content))
  }

  /** Reading the whole archive without tripping the decompressed cap. */
  function Downloaded(t: Tarball): Stream { Stream(MembersOf(t), Complete) }

  lemma LastMember(files: Files, names: seq<string>)
    requires names != [] && forall k <- names :: k in files
    ensures var last := names[|names| - 1];
      MembersOf(EntriesIn(files, names)) ==
      MembersOf(EntriesIn(files, names[..|names| - 1])) + [Member(last, true, |files[last]|, files[last])]
  {
  }

  lemma {:induction false} CanonicalMembersKept(files: Files, names: seq<string>)
    requires forall k <- names :: k in files && Canonical(k)
    ensures KeptNames(MembersOf(EntriesIn(files, names)), "") == names
    ensures KeptFiles(MembersOf(EntriesIn(files, names)), "") == map k | k in names :: files[k]
  {
    if names == [] {
    } else {
      var init, last := names[..|names| - 1], names[|names| - 1];
      CanonicalMembersKept(files, init);
      KeptAsIs(last);
      LastMember(files, names);
      KeptAppend(MembersOf(EntriesIn(files, init)), Member(last, true, |files[last]|, files[last]), "", last);
      assert names == init + [last];
    }
  }

  lemma CanonicalFilesKept(files: Files)
    requires forall k <- files.Keys :: Canonical(k)
    ensures var ms := MembersOf(ArchiveOf(files)); Distinct(KeptNames(ms, "")) && KeptFiles(ms, "") == files
  {
    var names := SortedListing(files.Keys);
    CanonicalMembersKept(files, names);
    assert files == map k | k in names :: files[k];
  }

  lemma DefaultsAreRoomy(t: Stream, caps: Caps)
    requires Truthful(t.members)
    ensures NoWrap(t.members, Effective(caps))
  {
  }

  /** extract(publish(files)) == files exactly when every name is in normal form, for every consumer whose caps the
      files fit; the one per-entry cap that wraps loses every body there is. */
  lemma ExtractOfPublishIff(files: Files, caps: Caps)
    requires Int64Caps(caps) && Fits(files, Effective(caps))
    ensures Extracted(Downloaded(ArchiveOf(files)), "", caps) == Ok(files) <==>
        (forall k <- files.Keys :: Canonical(k)) && (caps.perEntry < MAX_INT64 || AllEmpty(files))
  {
    var t := Downloaded(ArchiveOf(files));
    if Extracted(t, "", caps) == Ok(files) {
      DefaultsAreRoomy(t, caps);
      ExtractionStaysWithinCaps(t, "", caps);
    }
    if forall k <- files.Keys :: Canonical(k) {
      CanonicalFilesKept(files);
      ExtractedExactlyIff(t, "", caps);
    }
  }

  lemma SingleArchive(name: string, content: string)
    ensures ArchiveOf(map[name := content]) == [FileEntry(name, content)]
  {
    SortedListingUnique([name], map[name := content].Keys);
  }

  lemma RenderedIsCanonical()
    ensures Canonical("rendered.json")
  {
    assert "rendered.json"[..1] == "r";
    VisibleIsCanonical("rendered.json");
  }

  /** Output=rendered: the one member comes back for any text within the caps. */
  lemma RenderedComesBack(rendered: string, caps: Caps)
    requires Int64Caps(caps) && Fits(map["rendered.json" := rendered], Effective(caps))
    ensures var tarball, files := [FileEntry("rendered.json", rendered)], map["rendered.json" := rendered];
      Extracted(Downloaded(tarball), "", caps) == Ok(files) <==> caps.perEntry < MAX_INT64 || rendered == ""
  {
    var name := "rendered.json";
    var files := map[name := rendered];
    RenderedIsCanonical();
    SingleArchive(name, rendered);
    ExtractOfPublishIff(files, caps);
    assert files[name] == rendered;
  }

  // -- the revision -------------------------------------------------------------------

  function Record(e: FileEntry): string { e.path + "\0" + (e.content + "\0") }

  /** The bytes sourceArchiveRevision feeds to SHA-256. */
  function Encode(es: seq<FileEntry>): string {
    if es == [] then "" else Encode(es[..|es| - 1]) + Record(es[|es| - 1])
  }

  function PreHash(files: Files): string { Encode(ArchiveOf(files)) }

  lemma EncodeAppend(es: seq<FileEntry>, e: FileEntry)
    ensures Encode(es + [e]) == Encode(es) + Record(e)
  {
    assert (es + [e])[..|es|] == es;
  }

  /** The hashing loop over the sorted keys. */
  method HashFiles(files: Files, keys: seq<string>) returns (hashed: string)
    requires forall k <- keys :: k in files
    ensures hashed == Encode(EntriesIn(files, keys))
  {
    hashed := "";
    ghost var t := EntriesIn(files, keys);
    for i := 0 to |keys|
      invariant hashed == Encode(t[..i])
    {
      assert t[..i + 1] == t[..i] + [t[i]];
      EncodeAppend(t[..i], t[i]);
      hashed := hashed + Record(FileEntry(keys[i], files[keys[i]]));
    }
    assert t[..|t|] == t;
  }

  method SourceArchiveRevision(files: Files, order: seq<string>) returns (hashed: string)
    requires Enumerates(order, files)
    ensures hashed == PreHash(files)
  {
    assert (set k | k in order) == files.Keys;
    hashed := HashFiles(files, SortedListing(set k | k in order));
  }

  ghost predicate NulFree(es: seq<FileEntry>) {
    forall i :: 0 <= i < |es| ==> '\0' !in es[i].path && '\0' !in es[i].content
  }

  ghost predicate NulFreeFiles(files: Files) {
    forall k <- files.Keys :: '\0' !in k && '\0' !in files[k]
  }

  lemma Regroup(x: string, y: string, z: string)
    ensures (x + y) + z == x + (y + z)
  {
  }

  lemma {:induction false} EncodeConcat(a: seq<FileEntry>, b: seq<FileEntry>)
    ensures Encode(a + b) == Encode(a) + Encode(b)
  {
    if b == [] {
      assert a + b == a;
    } else {
      var init, last := b[..|b| - 1], b[|b| - 1];
      EncodeConcat(a, init);
      EncodeAppend(init, last);
      EncodeAppend(a + init, last);
      assert b == init + [last] && a + b == (a + init) + [last];
      Regroup(Encode(a), Encode(init), Record(last));
    }
  }

  /** The encoding read from its front. */
  lemma EncodeFront(es: seq<FileEntry>)
    requires es != []
    ensures Encode(es) == Record(es[0]) + Encode(es[1..])
  {
    assert es == [es[0]] + es[1..];
    EncodeConcat([es[0]], es[1..]);
    EncodeAppend([], es[0]);
    assert [] + [es[0]] == [es[0]];
  }

  lemma RecordInjective(a: FileEntry, x: string, b: FileEntry, y: string)
    requires NulFree([a]) && NulFree([b]) && Record(a) + x == Record(b) + y
    ensures a == b && x == y
  {
    assert [a][0] == a && [b][0] == b;
    var p, q := a.content + ['\0'] + x, b.content + ['\0'] + y;
    assert Record(a) + x == a.path + ['\0'] + p && Record(b) + y == b.path + ['\0'] + q;
    CutInjective(a.path, p, b.path, q, '\0');
    CutInjective(a.content, x, b.content, y, '\0');
  }

  lemma {:induction false} EncodeInjective(a: seq<FileEntry>, b: seq<FileEntry>)
    requires NulFree(a) && NulFree(b) && Encode(a) == Encode(b)
    ensures a == b
  {
    if a != [] { EncodeFront(a); }
    if b != [] { EncodeFront(b); }
    if a == [] || b == [] {
    } else {
      RecordInjective(a[0], Encode(a[1..]), b[0], Encode(b[1..]));
      EncodeInjective(a[1..], b[1..]);
      assert a == [a[0]] + a[1..] && b == [b[0]] + b[1..];
    }
  }

  lemma InArchive(files: Files, k: string, v: string)
    ensures FileEntry(k, v) in ArchiveOf(files) <==> k in files && files[k] == v
  {
    ListingEnumerates(files);
    EntryIn(files, SortedListing(files.Keys), FileEntry(k, v));
  }

  lemma ArchiveDetermines(a: Files, b: Files)
    requires ArchiveOf(a) == ArchiveOf(b)
    ensures a == b
  {
    forall k | k in a || k in b ensures k in a && k in b && a[k] == b[k] {
      var v := if k in a then a[k] else b[k];
      InArchive(a, k, v);
      InArchive(b, k, v);
    }
  }

  /** Different NUL-free trees never hash the same bytes. */
  lemma PreHashInjective(a: Files, b: Files)
    requires NulFreeFiles(a) && NulFreeFiles(b) && PreHash(a) == PreHash(b)
    ensures a == b
  {
    EncodeInjective(ArchiveOf(a), ArchiveOf(b));
    ArchiveDetermines(a, b);
  }

  lemma EncodeEndsInNul(es: seq<FileEntry>)
    requires es != []
    ensures Encode(es) != "" && Encode(es)[|Encode(es)| - 1] == '\0'
  {
  }

  /** All but the first name can be read as the first file's content. */
  lemma FoldIntoFirst(t: seq<FileEntry>) returns (content: string)
    requires |t| >= 2
    ensures Encode([FileEntry(t[0].path, content)]) == Encode(t)
  {
    var rest := t[0].content + "\0" + Encode(t[1..]);
    EncodeFront(t);
    EncodeEndsInNul(t[1..]);
    content := rest[..|rest| - 1];
    assert content + "\0" == rest;
    EncodeAppend([], FileEntry(t[0].path, content));
    assert [] + [FileEntry(t[0].path, content)] == [FileEntry(t[0].path, content)];
    assert Record(t[0]) + Encode(t[1..]) == t[0].path + "\0" + rest;
  }

  ghost predicate NulFreeNames(files: Files) { forall k <- files.Keys :: '\0' !in k }

  /** Once contents may hold a NUL, every tree of two or more files shares its bytes with a one-file tree. */
  lemma NulContentCollides(files: Files) returns (other: Files)
    requires |files| >= 2
    ensures other != files && PreHash(other) == PreHash(files) && |other| == 1
    ensures NulFreeNames(files) ==> NulFreeNames(other)
  {
    var content := FoldIntoFirst(ArchiveOf(files));
    var name := ArchiveOf(files)[0].path;
    SingleArchive(name, content);
    other := map[name := content];
  }

  /** content is first, then n between two NULs, then rest. */
  ghost predicate Parts(content: string, first: string, n: string, rest: string) {
    content == first + "\0" + (n + "\0" + rest)
  }

  /** Between two NULs of the content stands a NUL-free name that sorts after this one. */
  ghost predicate HidesName(name: string, content: string) {
    exists first, n, rest :: Parts(content, first, n, rest) && '\0' !in n && name != n && Leq(name, n)
  }

  ghost predicate Ambiguous(files: Files) {
    exists other :: NulFreeNames(other) && other != files && PreHash(other) == PreHash(files)
  }

  lemma EncodeOne(e: FileEntry)
    ensures Encode([e]) == Record(e)
  {
    EncodeAppend([], e);
    assert [] + [e] == [e];
  }

  lemma OneRecord(name: string, content: string)
    ensures PreHash(map[name := content]) == name + "\0" + (content + "\0")
  {
    SingleArchive(name, content);
    EncodeOne(FileEntry(name, content));
  }

  lemma TwoArchive(name: string, first: string, n: string, rest: string)
    requires name != n && Leq(name, n)
    ensures ArchiveOf(map[name := first, n := rest]) == [FileEntry(name, first)] + [FileEntry(n, rest)]
  {
    var files, q := map[name := first, n := rest], [name, n];
    assert forall x :: x in q <==> x in files.Keys;
    SortedListingUnique(q, files.Keys);
  }

  lemma DropNul(x: string, y: string)
    requires x + "\0" == y + "\0"
    ensures x == y
  {
    assert (x + "\0")[..|x + "\0"| - 1] == x && (y + "\0")[..|y + "\0"| - 1] == y;
  }

  lemma PartsRegroup(name: string, content: string, first: string, n: string, rest: string)
    ensures Parts(content, first, n, rest) <==>
        name + "\0" + (content + "\0") == name + "\0" + (first + "\0") + (n + "\0" + (rest + "\0"))
  {
    var whole := first + "\0" + (n + "\0" + rest);
    assert whole + "\0" == (first + "\0") + (n + "\0" + (rest + "\0"));
    Regroup(name + "\0", first + "\0", n + "\0" + (rest + "\0"));
    var front := name + "\0";
    if front + (content + "\0") == front + (whole + "\0") {
      assert (front + (content + "\0"))[|front|..] == content + "\0" &&
          (front + (whole + "\0"))[|front|..] == whole + "\0";
      DropNul(content, whole);
    }
  }

  lemma TwoRecords(name: string, first: string, n: string, rest: string)
    requires name != n && Leq(name, n)
    ensures PreHash(map[name := first, n := rest]) == Record(FileEntry(name, first)) + Record(FileEntry(n, rest))
  {
    var a, b := FileEntry(name, first), FileEntry(n, rest);
    TwoArchive(name, first, n, rest);
    EncodeAppend([a], b);
    EncodeOne(a);
  }

  /** A name hidden in the content can be read as a second file. */
  lemma HiddenNameCollides(name: string, content: string)
    requires '\0' !in name && HidesName(name, content)
    ensures Ambiguous(map[name := content])
  {
    var first, n, rest :| Parts(content, first, n, rest) && '\0' !in n && name != n && Leq(name, n);
    var other := map[name := first, n := rest];
    OneRecord(name, content);
    TwoRecords(name, first, n, rest);
    PartsRegroup(name, content, first, n, rest);
    assert n in other && n !in map[name := content];
    assert NulFreeNames(other);
  }

  lemma SortedHead(files: Files)
    requires |ArchiveOf(files)| >= 2
    ensures var t := ArchiveOf(files); t[0].path != t[1].path && Leq(t[0].path, t[1].path)
    ensures NulFreeNames(files) ==> '\0' !in ArchiveOf(files)[0].path && '\0' !in ArchiveOf(files)[1].path
  {
    var q := SortedListing(files.Keys);
    assert q[0] in q && q[1] in q;
  }

  lemma HeadIsFile(files: Files)
    requires ArchiveOf(files) != []
    ensures var t := ArchiveOf(files); t[0].path in files && files[t[0].path] == t[0].content
  {
    var q := SortedListing(files.Keys);
    assert q[0] in q;
  }

  /** The archive of a tree with content hashes to its first name, NUL, its first content, NUL, and the others. */
  lemma FrontOfArchive(files: Files)
    requires PreHash(files) != ""
    ensures var t := ArchiveOf(files);
      && t != [] && t[0].path in files && files[t[0].path] == t[0].content
      && PreHash(files) == t[0].path + ['\0'] + (t[0].content + "\0" + Encode(t[1..]))
  {
    var t := ArchiveOf(files);
    HeadIsFile(files);
    EncodeFront(t);
    Regroup(t[0].path + "\0", t[0].content + "\0", Encode(t[1..]));
  }

  lemma OnlyFile(files: Files)
    requires |ArchiveOf(files)| == 1
    ensures files == map[ArchiveOf(files)[0].path := ArchiveOf(files)[0].content]
  {
    var q := SortedListing(files.Keys);
    assert q == [q[0]] && forall k <- files.Keys :: k in q;
  }

  lemma FoldedRest(es: seq<FileEntry>) returns (rest: string)
    requires es != []
    ensures Encode(es) == es[0].path + "\0" + rest + "\0"
  {
    EncodeFront(es);
    var tail := es[0].content + "\0" + Encode(es[1..]);
    if es[1..] != [] { EncodeEndsInNul(es[1..]); }
    rest := tail[..|tail| - 1];
    assert rest + "\0" == tail;
    assert Record(es[0]) + Encode(es[1..]) == es[0].path + "\0" + tail;
  }

  /** Another tree with the bytes of a one-file tree has that file's name first, and hides the rest in its content. */
  lemma TwoRecordsHide(content: string, t: Tarball) returns (rest: string)
    requires |t| > 1 && t[0].content + "\0" + Encode(t[1..]) == content + "\0"
    ensures Parts(content, t[0].content, t[1].path, rest)
  {
    rest := FoldedRest(t[1..]);
    var whole := t[0].content + "\0" + (t[1].path + "\0" + rest);
    assert whole + "\0" == t[0].content + "\0" + Encode(t[1..]);
    DropNul(content, whole);
  }

  lemma OtherHidesName(name: string, content: string, other: Files)
    requires '\0' !in name && NulFreeNames(other) && other != map[name := content]
    requires PreHash(other) == PreHash(map[name := content])
    ensures HidesName(name, content)
  {
    var t := ArchiveOf(other);
    OneRecord(name, content);
    ListingEnumerates(other);
    FrontOfArchive(other);
    CutInjective(t[0].path, t[0].content + "\0" + Encode(t[1..]), name, content + "\0", '\0');
    if |t| == 1 {
      OnlyFile(other);
      assert t[0].content + "\0" + Encode(t[1..]) == t[0].content + "\0";
      DropNul(t[0].content, content);
    } else {
      SortedHead(other);
      var rest := TwoRecordsHide(content, t);
    }
  }

  lemma NothingHashesToNothing(files: Files)
    ensures PreHash(files) == "" <==> files == map[]
  {
    ListingEnumerates(files);
    if ArchiveOf(files) != [] { EncodeEndsInNul(ArchiveOf(files)); }
  }

  lemma OneFile(files: Files)
    requires |files| == 1 && NulFreeNames(files)
    ensures Ambiguous(files) <==> exists k <- files.Keys :: HidesName(k, files[k])
  {
    var k :| k in files;
    assert files.Keys - {k} == {} by { assert |files.Keys - {k}| == 0; }
    assert forall x <- files.Keys :: x == k;
    assert files == map[k := files[k]];
    if HidesName(k, files[k]) { HiddenNameCollides(k, files[k]); }
    if other :| NulFreeNames(other) && other != files && PreHash(other) == PreHash(files) {
      OtherHidesName(k, files[k], other);
    }
  }

  /** Which trees with NUL-free names share their bytes with another such tree: those of two or more files, and those of
      one whose content hides a greater name between two NULs. */
  lemma AmbiguousIff(files: Files)
    requires NulFreeNames(files)
    ensures Ambiguous(files) <==> |files| >= 2 || exists k <- files.Keys :: HidesName(k, files[k])
  {
    NothingHashesToNothing(files);
    if |files| >= 2 {
      var other := NulContentCollides(files);
    } else if files == map[] {
      forall other | PreHash(other) == "" ensures other == map[] { NothingHashesToNothing(other); }
    } else {
      OneFile(files);
    }
  }
}
