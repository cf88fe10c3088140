/** writeTarGz of internal/storage/store.go: an archive is the path-sorted list of its entries.
    The gzip and tar byte formats are not part of this model. */
module Archive {
  import opened GoPath
  import opened Strings
  import opened Wrappers

  datatype FileEntry = FileEntry(path: string, content: string)

  type Tarball = seq<FileEntry>

  ghost predicate SortedByPath(a: seq<FileEntry>) {
    forall i, j :: 0 <= i < j < |a| ==> Leq(a[i].path, a[j].path)
  }

  ghost predicate DistinctPaths(a: seq<FileEntry>) {
    forall i, j :: 0 <= i < j < |a| ==> a[i].path != a[j].path
  }

  function InsertEntry(e: FileEntry, a: seq<FileEntry>): (r: seq<FileEntry>)
    ensures multiset(r) == multiset(a) + multiset{e}
  {
    if a == [] then [e]
    else if Leq(e.path, a[0].path) then [e] + a
    else
      assert a == [a[0]] + a[1..];
      [a[0]] + InsertEntry(e, a[1..])
  }

  /** slices.SortFunc by path. */
  function SortEntries(entries: seq<FileEntry>): (a: Tarball)
    ensures multiset(a) == multiset(entries)
  {
    if entries == [] then []
    else
      assert entries == [entries[0]] + entries[1..];
      InsertEntry(entries[0], SortEntries(entries[1..]))
  }

  lemma SameMembers(a: seq<FileEntry>, b: seq<FileEntry>)
    requires multiset(a) == multiset(b)
    ensures |a| == |b|
    ensures forall e :: e in a <==> e in b
  {
    assert |multiset(a)| == |multiset(b)|;
    forall e ensures e in a <==> e in b {
      assert e in a <==> e in multiset(a);
      assert e in b <==> e in multiset(b);
    }
  }

  lemma {:induction false} InsertKeepsSorted(e: FileEntry, a: seq<FileEntry>)
    requires SortedByPath(a)
    ensures SortedByPath(InsertEntry(e, a))
  {
    if a == [] {
    } else {
      if Leq(e.path, a[0].path) {
        forall k | 0 < k < |a| ensures Leq(e.path, a[k].path) {
          LeqTransitive(e.path, a[0].path, a[k].path);
        }
      } else {
        var rest := InsertEntry(e, a[1..]);
        InsertKeepsSorted(e, a[1..]);
        LeqTotal(e.path, a[0].path);
        SameMembers(rest, a[1..] + [e]);
        forall k | 0 <= k < |rest| ensures Leq(a[0].path, rest[k].path) {
          assert rest[k] in a[1..] + [e];
        }
      }
    }
  }

  lemma {:induction false} SortIsSorted(entries: seq<FileEntry>)
    ensures SortedByPath(SortEntries(entries))
  {
    if entries == [] {
    } else {
      SortIsSorted(entries[1..]);
      InsertKeepsSorted(entries[0], SortEntries(entries[1..]));
    }
  }

  lemma HeadOfSorted(a: seq<FileEntry>, e: FileEntry)
    requires SortedByPath(a) && e in a
    ensures Leq(a[0].path, e.path)
  {
    LeqReflexive(e.path);
  }

  lemma SameHead(a: seq<FileEntry>, b: seq<FileEntry>)
    requires SortedByPath(a) && SortedByPath(b) && DistinctPaths(a)
    requires multiset(a) == multiset(b) && a != []
    ensures b != [] && a[0] == b[0]
  {
    SameMembers(a, b);
    HeadOfSorted(a, b[0]);
    HeadOfSorted(b, a[0]);
    LeqAntisymmetric(a[0].path, b[0].path);
    var j :| 0 <= j < |a| && a[j] == b[0];
  }

  lemma TailMultiset(a: seq<FileEntry>)
    requires a != []
    ensures multiset(a[1..]) == multiset(a) - multiset{a[0]}
  {
    assert a == [a[0]] + a[1..];
  }

  lemma {:induction false} SortedOrderUnique(a: seq<FileEntry>, b: seq<FileEntry>)
    requires SortedByPath(a) && SortedByPath(b) && DistinctPaths(a)
    requires multiset(a) == multiset(b)
    ensures a == b
  {
    if a == [] {
      SameMembers(a, b);
    } else {
      SameHead(a, b);
      TailMultiset(a);
      TailMultiset(b);
      SortedOrderUnique(a[1..], b[1..]);
      assert a == [a[0]] + a[1..] && b == [b[0]] + b[1..];
    }
  }

  lemma {:induction false} InsertKeepsDistinct(e: FileEntry, a: seq<FileEntry>)
    requires DistinctPaths(a)
    requires forall x <- a :: x.path != e.path
    ensures DistinctPaths(InsertEntry(e, a))
  {
    if a == [] || Leq(e.path, a[0].path) {
    } else {
      InsertKeepsDistinct(e, a[1..]);
      var rest := InsertEntry(e, a[1..]);
      SameMembers(rest, a[1..] + [e]);
      forall k | 0 <= k < |rest| ensures rest[k].path != a[0].path {
        assert rest[k] in a[1..] + [e];
      }
    }
  }

  lemma {:induction false} SortKeepsDistinct(entries: seq<FileEntry>)
    requires DistinctPaths(entries)
    ensures DistinctPaths(SortEntries(entries))
  {
    if entries == [] {
    } else {
      SortKeepsDistinct(entries[1..]);
      SameMembers(SortEntries(entries[1..]), entries[1..]);
      InsertKeepsDistinct(entries[0], SortEntries(entries[1..]));
    }
  }

  /** The archive depends on what was published, not on the order the entries were enumerated in. */
  lemma ArchiveIgnoresEnumerationOrder(a: seq<FileEntry>, b: seq<FileEntry>)
    requires DistinctPaths(a) && multiset(a) == multiset(b)
    ensures SortEntries(a) == SortEntries(b)
  {
    SortKeepsDistinct(a);
    SortIsSorted(a);
    SortIsSorted(b);
    SortedOrderUnique(SortEntries(a), SortEntries(b));
  }

  // -- member names ---------------------------------------------------------

  predicate ValidTarEntryPath(p: string) {
    && p != ""
    && !HasPrefix(p, "/")
    && '\0' !in p && '\\' !in p
    && ".." !in SplitSlash(p)
  }

  ghost predicate AllNamesUsable(entries: seq<FileEntry>) {
    forall i :: 0 <= i < |entries| ==> ValidTarEntryPath(entries[i].path)
  }

  lemma SortKeepsUsable(entries: seq<FileEntry>)
    ensures AllNamesUsable(entries) <==> AllNamesUsable(SortEntries(entries))
  {
    var s := SortEntries(entries);
    SameMembers(s, entries);
    forall i | 0 <= i < |s| ensures s[i] in entries {
      assert s[i] in s;
    }
    forall i | 0 <= i < |entries| ensures entries[i] in s {
      assert entries[i] in entries;
    }
  }

  /** The entry loop of writeTarGz: stops at the first unusable name. */
  method WriteMembers(sorted: seq<FileEntry>) returns (r: Result<Tarball, string>)
    ensures r.Ok? <==> AllNamesUsable(sorted)
    ensures r.Ok? ==> r.value == sorted
    ensures r.Err? ==> !ValidTarEntryPath(r.error)
  {
    var written: Tarball := [];
    for i := 0 to |sorted|
      invariant written == sorted[..i]
      invariant AllNamesUsable(written)
    {
      if !ValidTarEntryPath(sorted[i].path) {
        return Err(sorted[i].path);
      }
      written := written + [sorted[i]];
    }
    return Ok(written);
  }

  method WriteTarGz(entries: seq<FileEntry>) returns (r: Result<Tarball, string>)
    ensures r.Ok? <==> AllNamesUsable(entries)
    ensures r.Ok? ==> r.value == SortEntries(entries)
    ensures r.Err? ==> !ValidTarEntryPath(r.error)
  {
    SortKeepsUsable(entries);
    r := WriteMembers(SortEntries(entries));
  }
}
