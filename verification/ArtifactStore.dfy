/** The filesystem Store of internal/storage/store.go, one call at a time. A call holds its key's lock
    throughout, so a call is a step; StoreInterleaving.dfy opens the steps up. */
module ArtifactStore {
  import opened Archive
  import opened Common
  import opened GoPath
  import opened Retention
  import opened Revision
  import opened Strings
  import opened Wrappers

  datatype StoreError = Required | Traversal | Mkdir | Digest | Write | Rename | List | Remove(name: string)

  /** digestOf stands for the SHA-256 of the stored bytes, taken to be one to one. */
  datatype PutResult = PutResult(file: string, digestOf: Tarball)

  /** Which system call of a Put fails, and whether cleaning up after it fails too. Two failures are tolerated: a
      failing Stat of the final file reads as "not there", and a failing scan of its siblings or Chtimes forgoes the
      revert's new mtime. */
  datatype PutFaults = PutFaults(
    mkdir: bool, stat: bool, digest: bool, bump: bool, write: bool, rename: bool, residue: bool)

  const NO_PUT_FAULTS := PutFaults(false, false, false, false, false, false, false)

  /** What a successful Put leaves, tolerated failures included. */
  function PutOutcome(d: Dir, f: string, content: Tarball, now: Instant, faults: PutFaults): Dir {
    if faults.stat then d[f := File(now, content)]
    else if faults.bump && f in d then d
    else PutDir(d, f, content, now)
  }

  /** The other tarballs strictly newer than f. */
  function OutdatedBy(d: Dir, f: string): set<string>
    requires f in d
  {
    set n | n in d && n != f && HasSuffix(n, ".tar.gz") && d[n].mtime > d[f].mtime
  }

  /** What a successful Put means, file by file: a revision that is not there, or not seen, is written with the entries,
      sorted by path, and the present time; one that is keeps its bytes, and gets the present time exactly if another
      tarball is strictly newer; no other file changes, temporary ones aside. */
  ghost predicate Wrote(d: Dir, d': Dir, f: string, entries: seq<FileEntry>, now: Instant, faults: PutFaults) {
    && f in d'
    && (f !in d || faults.stat ==>
        d'[f].mtime == now && multiset(d'[f].content) == multiset(entries) && SortedByPath(d'[f].content))
    && (f in d && !faults.stat ==>
        && d'[f].content == d[f].content
        && d'[f].mtime == if !faults.bump && OutdatedBy(d, f) != {} then now else d[f].mtime)
    && forall n :: n != f && !HasSuffix(n, ".tmp") ==> (n in d <==> n in d') && (n in d ==> d'[n] == d[n])
  }

  lemma NewerIsOutdated(d: Dir, f: string)
    requires f in d
    ensures HasNewer(d, f) <==> OutdatedBy(d, f) != {}
  {
    if n :| n in d && IsNewer(n, f, d[n].mtime, d[f].mtime) { assert n in OutdatedBy(d, f); }
    if n :| n in OutdatedBy(d, f) { assert IsNewer(n, f, d[n].mtime, d[f].mtime); }
  }

  /** Equal as far as the HTTP server can see: everything but ".tmp" names. */
  ghost predicate SameTarballs(a: Dir, b: Dir) {
    forall n :: n in a || n in b ==> HasSuffix(n, ".tmp") || (n in a && n in b && a[n] == b[n])
  }

  lemma OutcomeIsWritten(d: Dir, d': Dir, f: string, entries: seq<FileEntry>, now: Instant, faults: PutFaults)
    requires SameTarballs(d', PutOutcome(d, f, SortEntries(entries), now, faults)) && !HasSuffix(f, ".tmp")
    ensures Wrote(d, d', f, entries, now, faults)
  {
    SortIsSorted(entries);
    if f in d { NewerIsOutdated(d, f); }
  }

  predicate SafeComponent(p: string) {
    p != "" && '/' !in p && '\\' !in p && p != "." && p != ".."
  }

  /** A component that passes is one plain element: joined to others it names nothing but itself below them. */
  lemma SafeComponentIff(p: string)
    ensures SafeComponent(p) <==> Plain(p) && '\\' !in p
  {
  }

  function DirOf(dirs: map<Key, Dir>, key: Key): Dir {
    if key in dirs then dirs[key] else map[]
  }

  lemma OthersAreSame(a: map<Key, Dir>, b: map<Key, Dir>, key: Key)
    requires a - {key} == b - {key}
    ensures forall k :: k != key ==> DirOf(a, k) == DirOf(b, k)
  {
    forall k | k != key ensures DirOf(a, k) == DirOf(b, k) {
      assert (k in a - {key} <==> k in a) && (k in b - {key} <==> k in b);
      if k in a { assert (a - {key})[k] == (b - {key})[k]; }
    }
  }

  function TemporaryOf(f: string): string { f + ".tmp" }

  lemma TemporaryIsTmp(f: string)
    ensures HasSuffix(TemporaryOf(f), ".tmp") && TemporaryOf(f) != f
  {
    var t := TemporaryOf(f);
    assert t[|t| - 4..] == ".tmp";
  }

  predicate IsOrphan(n: string, mtime: Instant, cutoff: int) {
    HasSuffix(n, TEMPORARY) && LooksLikeOurArtifactFilename(n) && mtime <= cutoff
  }

  /** The residue Sweep reaps; a file whose Stat fails goes unseen. */
  function Orphans(d: Dir, cutoff: int, unseen: set<string>): set<string> {
    set n | n in d && IsOrphan(n, d[n].mtime, cutoff) && n !in unseen
  }

  /** The sorted names of a directory. */
  ghost predicate ListingOf(names: seq<string>, d: Dir) {
    SortedDistinct(names) && forall n :: n in names <==> n in d
  }

  /** What can fail in a Prune: the directory listing, the Stat of these files, the removal of this one. A file whose
      Stat fails is passed over in silence. */
  datatype PruneFaults = PruneFaults(unlisted: bool, unseen: set<string>, removal: Option<string>)

  const NO_PRUNE_FAULTS := PruneFaults(false, {}, None)

  /** The artifacts a Prune gets to see. */
  function Seen(d: Dir, unseen: set<string>): Mtimes { Candidates(d) - unseen }

  /** m holds the artifacts of d that can be seen: what the filter test accepts, with its time. */
  ghost predicate Accepts(d: Dir, unseen: set<string>, m: Mtimes) {
    && m.Keys <= d.Keys && (forall n <- m.Keys :: m[n] == d[n].mtime)
    && forall n {:trigger IsCandidateName(n)} :: n in d ==> (IsCandidateName(n) && n !in unseen <==> n in m)
  }

  lemma AcceptsSeen(d: Dir, unseen: set<string>)
    ensures Accepts(d, unseen, Seen(d, unseen))
  {
  }

  /** cands lists the artifacts among the first i names. */
  ghost predicate Gathered(cands: seq<Candidate>, names: seq<string>, i: nat, m: Mtimes)
    requires i <= |names|
  {
    && (forall c <- cands :: c.name in m && c.mtime == m[c.name] && exists k :: 0 <= k < i && names[k] == c.name)
    && (forall k :: 0 <= k < i && names[k] in m ==> Candidate(names[k], m[names[k]]) in cands)
    && forall p, q :: 0 <= p < q < |cands| ==> cands[p].name != cands[q].name
  }

  lemma GatherOne(cands: seq<Candidate>, names: seq<string>, i: nat, m: Mtimes)
    requires i < |names| && Gathered(cands, names, i, m) && names[i] in m
    requires forall k :: 0 <= k < i ==> names[k] != names[i]
    ensures Gathered(cands + [Candidate(names[i], m[names[i]])], names, i + 1, m)
  {
    var next := Candidate(names[i], m[names[i]]);
    forall p | 0 <= p < |cands| ensures cands[p].name != next.name {
      assert cands[p] in cands;
    }
  }

  lemma SkipOne(cands: seq<Candidate>, names: seq<string>, i: nat, m: Mtimes)
    requires i < |names| && Gathered(cands, names, i, m) && names[i] !in m
    ensures Gathered(cands, names, i + 1, m)
  {
  }

  lemma GatheredAll(cands: seq<Candidate>, names: seq<string>, m: Mtimes)
    requires Gathered(cands, names, |names|, m) && forall n <- m.Keys :: n in names
    ensures Listing(cands, m)
  {
    forall i | 0 <= i < |cands| ensures cands[i].name in m && cands[i].mtime == m[cands[i].name] {
      assert cands[i] in cands;
    }
  }

  /** The filter loop of Prune over a sorted directory listing. */
  method CollectCandidates(names: seq<string>, d: Dir, unseen: set<string>, ghost m: Mtimes)
    returns (cands: seq<Candidate>)
    requires ListingOf(names, d) && Accepts(d, unseen, m)
    ensures Listing(cands, m)
  {
    cands := [];
    for i := 0 to |names|
      invariant Gathered(cands, names, i, m)
    {
      assert names[i] in names;
      if names[i] in m { GatherOne(cands, names, i, m); } else { SkipOne(cands, names, i, m); }
      if IsCandidateName(names[i]) && names[i] !in unseen {
        cands := cands + [Candidate(names[i], d[names[i]].mtime)];
      }
    }
    GatheredAll(cands, names, m);
  }

  /** orphans are the files of d the sweep's test accepts. */
  ghost predicate Reaps(d: Dir, cutoff: int, unseen: set<string>, orphans: set<string>) {
    orphans <= d.Keys && forall n {:trigger IsOrphan(n, d[n].mtime, cutoff)} :: n in d ==>
      (IsOrphan(n, d[n].mtime, cutoff) && n !in unseen <==> n in orphans)
  }

  /** The loop of sweepKey; stuck are the files whose removal fails. */
  method CollectRemovable(names: seq<string>, d: Dir, cutoff: int, unseen: set<string>, stuck: set<string>,
                          ghost orphans: set<string>)
    returns (gone: set<string>, removed: nat, errors: set<string>)
    requires ListingOf(names, d) && Reaps(d, cutoff, unseen, orphans)
    ensures gone == orphans - stuck && removed == |gone| && errors == orphans * stuck
  {
    gone, removed, errors := {}, 0, {};
    for i := 0 to |names|
      invariant forall n <- gone :: n in orphans && n !in stuck
      invariant forall n <- errors :: n in orphans && n in stuck
      invariant forall k :: 0 <= k < i && names[k] in orphans ==> names[k] in if names[k] in stuck then errors else gone
      invariant forall j :: i <= j < |names| ==> names[j] !in gone
      invariant removed == |gone|
    {
      var n := names[i];
      assert n in names;
      if !IsOrphan(n, d[n].mtime, cutoff) || n in unseen { continue; }
      if n in stuck {
        errors := errors + {n};
        continue;
      }
      gone, removed := gone + {n}, removed + 1;
    }
  }

  lemma ReapsOrphans(d: Dir, cutoff: int, unseen: set<string>)
    ensures Reaps(d, cutoff, unseen, Orphans(d, cutoff, unseen))
  {
  }

  function KeepFiles(keepRevisions: seq<string>): set<string> {
    set rev | rev in keepRevisions :: RevisionFilename(rev)
  }

  method BuildPruneKeepSet(keepRevisions: seq<string>) returns (r: Result<set<string>, StoreError>)
    ensures r.Ok? <==> forall rev <- keepRevisions :: SafeComponent(rev)
    ensures r.Ok? ==> r.value == KeepFiles(keepRevisions)
  {
    var keep: set<string> := {};
    for i := 0 to |keepRevisions|
      invariant keep == set rev | rev in keepRevisions[..i] :: RevisionFilename(rev)
      invariant forall rev <- keepRevisions[..i] :: SafeComponent(rev)
    {
      var rev := keepRevisions[i];
      if !SafeComponent(rev) { return Err(Traversal); }
      assert keepRevisions[..i + 1] == keepRevisions[..i] + [rev];
      keep := keep + {RevisionFilename(rev)};
    }
    assert keepRevisions[..|keepRevisions|] == keepRevisions;
    return Ok(keep);
  }

  ghost function OrphansOf(dirs: map<Key, Dir>, cutoff: int, unseen: set<string>): map<Key, set<string>> {
    map k | k in dirs :: Orphans(dirs[k], cutoff, unseen)
  }

  ghost predicate AllReap(dirs: map<Key, Dir>, cutoff: int, unseen: set<string>, orphans: map<Key, set<string>>) {
    orphans.Keys == dirs.Keys && forall k <- dirs.Keys :: Reaps(dirs[k], cutoff, unseen, orphans[k])
  }

  lemma OrphansAllReap(dirs: map<Key, Dir>, cutoff: int, unseen: set<string>)
    ensures AllReap(dirs, cutoff, unseen, OrphansOf(dirs, cutoff, unseen))
  {
    forall k | k in dirs ensures Reaps(dirs[k], cutoff, unseen, OrphansOf(dirs, cutoff, unseen)[k]) {
      ReapsOrphans(dirs[k], cutoff, unseen);
    }
  }

  /** All keys but those still to do have lost exactly the orphans that could go. */
  ghost predicate Swept(before: map<Key, Dir>, after: map<Key, Dir>, todo: set<Key>, unlisted: set<Key>,
                        orphans: map<Key, set<string>>, stuck: set<string>)
    requires before.Keys <= orphans.Keys
  {
    && after.Keys == before.Keys
    && forall k <- before.Keys ::
        after[k] == if k in todo || k in unlisted then before[k] else before[k] - (orphans[k] - stuck)
  }

  /** None of these keys has an orphan that cannot be removed. */
  ghost predicate NoneStuck(orphans: map<Key, set<string>>, keys: set<Key>, stuck: set<string>)
    requires keys <= orphans.Keys
  {
    forall k <- keys :: orphans[k] * stuck == {}
  }

  lemma SweptStep(before: map<Key, Dir>, dirs: map<Key, Dir>, todo: set<Key>, unlisted: set<Key>,
                  orphans: map<Key, set<string>>, cutoff: int, unseen: set<string>, stuck: set<string>, key: Key)
    requires AllReap(before, cutoff, unseen, orphans) && key in todo && key in before && key !in unlisted
    requires Swept(before, dirs, todo, unlisted, orphans, stuck)
    ensures key in dirs && Reaps(dirs[key], cutoff, unseen, orphans[key])
    ensures Swept(before, dirs[key := dirs[key] - (orphans[key] - stuck)], todo - {key}, unlisted, orphans, stuck)
  {
  }

  /** How many files a sweep of these keys removes. */
  ghost function Reaped(orphans: map<Key, set<string>>, keys: set<Key>, stuck: set<string>): nat
    requires keys <= orphans.Keys
  {
    if keys == {} then 0 else
      var k :| k in keys;
      |orphans[k] - stuck| + Reaped(orphans, keys - {k}, stuck)
  }

  lemma {:induction false} ReapedSplit(orphans: map<Key, set<string>>, keys: set<Key>, stuck: set<string>, key: Key)
    requires key in keys && keys <= orphans.Keys
    ensures Reaped(orphans, keys, stuck) == |orphans[key] - stuck| + Reaped(orphans, keys - {key}, stuck)
  {
    var k :| k in keys && Reaped(orphans, keys, stuck) == |orphans[k] - stuck| + Reaped(orphans, keys - {k}, stuck);
    if k == key {
    } else {
      ReapedSplit(orphans, keys - {k}, stuck, key);
      ReapedSplit(orphans, keys - {key}, stuck, k);
      assert keys - {k} - {key} == keys - {key} - {k};
    }
  }

  lemma ReapedStep(orphans: map<Key, set<string>>, all: set<Key>, todo: set<Key>, stuck: set<string>, key: Key)
    requires key in todo && todo <= all && all <= orphans.Keys
    ensures Reaped(orphans, todo, stuck) == |orphans[key] - stuck| + Reaped(orphans, todo - {key}, stuck)
    ensures NoneStuck(orphans, all - (todo - {key}), stuck) <==>
        NoneStuck(orphans, all - todo, stuck) && orphans[key] * stuck == {}
  {
    ReapedSplit(orphans, todo, stuck, key);
    var done := all - todo;
    assert all - (todo - {key}) == done + {key};
  }

  lemma RevisionFileIsFinal(revision: string)
    ensures !HasSuffix(RevisionFilename(revision), ".tmp")
  {
    var f := RevisionFilename(revision);
    assert f[|f| - 1] == 'z';
    if HasSuffix(f, ".tmp") { SuffixLastChar(f, ".tmp"); }
  }

  ghost predicate SweptDir(d: Dir, d': Dir, maxTmpAge: int, now: Instant, safe: set<string>) {
    && d'.Keys <= d.Keys && (forall n <- d'.Keys :: d'[n] == d[n])
    && forall n <- d.Keys :: n !in d' <==> Shaped(n, ".tar.gz.tmp") && now - d[n].mtime >= maxTmpAge && n !in safe
  }

  /** File by file: exactly those go that have the shape of a temporary file of ours, are at least maxTmpAge old, and
      were seen and not stuck, of the keys that were listed. Younger and foreign files stay as they are. */
  ghost predicate SweptClean(before: map<Key, Dir>, after: map<Key, Dir>, maxTmpAge: int, now: Instant,
                             unlisted: set<Key>, unseen: set<string>, stuck: set<string>)
  {
    after.Keys == before.Keys && forall k <- before.Keys ::
      SweptDir(before[k], after[k], maxTmpAge, now, if k in unlisted then before[k].Keys else unseen + stuck)
  }

  lemma SweptDirMeans(d: Dir, maxTmpAge: int, now: Instant, unseen: set<string>, stuck: set<string>)
    ensures SweptDir(d, d - (Orphans(d, now - maxTmpAge, unseen) - stuck), maxTmpAge, now, unseen + stuck)
  {
    forall n ensures HasSuffix(n, TEMPORARY) && LooksLikeOurArtifactFilename(n) <==> Shaped(n, ".tar.gz.tmp") {
      OursIff(n);
    }
  }

  lemma SweptMeans(before: map<Key, Dir>, after: map<Key, Dir>, maxTmpAge: int, now: Instant, unlisted: set<Key>,
                   unseen: set<string>, stuck: set<string>)
    requires Swept(before, after, {}, unlisted, OrphansOf(before, now - maxTmpAge, unseen), stuck)
    ensures SweptClean(before, after, maxTmpAge, now, unlisted, unseen, stuck)
  {
    forall k | k in before
      ensures SweptDir(before[k], after[k], maxTmpAge, now, if k in unlisted then before[k].Keys else unseen + stuck)
    {
      SweptDirMeans(before[k], maxTmpAge, now, unseen, stuck);
    }
  }

  class Store {
    var dirs: map<Key, Dir>

    constructor ()
      ensures dirs == map[]
    {
      dirs := map[];
    }

    /** Best-effort scan for a strictly newer tarball beside self. */
    method HasNewerSibling(key: Key, self: string) returns (newer: bool)
      requires self in DirOf(dirs, key)
      ensures newer <==> HasNewer(DirOf(dirs, key), self)
    {
      var d := DirOf(dirs, key);
      var names := SortedListing(d.Keys);
      for i := 0 to |names|
        invariant forall k :: 0 <= k < i ==> !IsNewer(names[k], self, d[names[k]].mtime, d[self].mtime)
      {
        if IsNewer(names[i], self, d[names[i]].mtime, d[self].mtime) { return true; }
      }
      return false;
    }

    /** The part of Put that runs under the key's lock, once the directory exists. */
    method PutLocked(key: Key, f: string, entries: seq<FileEntry>, now: Instant, faults: PutFaults)
      returns (r: Result<PutResult, StoreError>)
      requires key in dirs && !HasSuffix(f, ".tmp")
      modifies this
      ensures dirs.Keys == old(dirs).Keys && dirs - {key} == old(dirs) - {key}
      ensures r.Ok? ==> f in dirs[key] && r.value == PutResult(f, dirs[key][f].content)
      ensures r.Ok? ==> SameTarballs(dirs[key], PutOutcome(old(dirs)[key], f, SortEntries(entries), now, faults))
      ensures r.Ok? ==> Wrote(old(dirs)[key], dirs[key], f, entries, now, faults)
      ensures r.Err? ==> SameTarballs(dirs[key], old(dirs)[key]) && r.error in {Digest, Write, Rename}
      ensures r.Ok? <==> if f in old(dirs)[key] && !faults.stat then !faults.digest
                         else AllNamesUsable(entries) && !faults.write && !faults.rename
    {
      var d := dirs[key];
      var tmp := TemporaryOf(f);
      TemporaryIsTmp(f);
      if f in d && !faults.stat {
        if faults.digest { return Err(Digest); }
        var digest := d[f].content;
        var revert := HasNewerSibling(key, f);
        if revert && !faults.bump {
          dirs := dirs[key := d[f := File(now, digest)]];
        }
        OutcomeIsWritten(d, dirs[key], f, entries, now, faults);
        return Ok(PutResult(f, digest));
      }
      var written := WriteTarGz(entries);
      if written.Err? || faults.write || faults.rename {
        var partial: Tarball := if written.Ok? then written.value else [];
        dirs := dirs[key := if faults.residue then d[tmp := File(now, partial)] else d - {tmp}];
        return Err(if written.Err? || faults.write then Write else Rename);
      }
      dirs := dirs[key := (d - {tmp})[f := File(now, written.value)]];
      OutcomeIsWritten(d, dirs[key], f, entries, now, faults);
      return Ok(PutResult(f, written.value));
    }

    /** Success writes what it should and nothing else, and the reported digest is that of the visible bytes; failure
        changes no visible tarball, and no other key ever changes. */
    method Put(namespace: string, name: string, revision: string, entries: seq<FileEntry>, now: Instant,
               faults: PutFaults)
      returns (r: Result<PutResult, StoreError>)
      modifies this
      ensures var key := Key(namespace, name); forall k :: k != key ==> DirOf(dirs, k) == DirOf(old(dirs), k)
      ensures r.Ok? ==> var d, f := DirOf(dirs, Key(namespace, name)), RevisionFilename(revision);
                        f in d && r.value == PutResult(f, d[f].content)
      ensures r.Ok? ==> var d, d' := DirOf(old(dirs), Key(namespace, name)), DirOf(dirs, Key(namespace, name));
                        SameTarballs(d', PutOutcome(d, RevisionFilename(revision), SortEntries(entries), now, faults))
      ensures r.Ok? ==> var d, d' := DirOf(old(dirs), Key(namespace, name)), DirOf(dirs, Key(namespace, name));
                        Wrote(d, d', RevisionFilename(revision), entries, now, faults)
      ensures r.Err? ==> SameTarballs(DirOf(dirs, Key(namespace, name)), DirOf(old(dirs), Key(namespace, name)))
      ensures r == Err(Required) || r == Err(Traversal) || r == Err(Mkdir) ==> dirs == old(dirs)
      ensures r.Ok? ==> SafeComponent(namespace) && SafeComponent(name) && SafeComponent(revision) && !faults.mkdir
      ensures SafeComponent(namespace) && SafeComponent(name) && SafeComponent(revision) && !faults.mkdir ==>
          (r.Ok? <==> if RevisionFilename(revision) in DirOf(old(dirs), Key(namespace, name)) && !faults.stat
                      then !faults.digest
                      else AllNamesUsable(entries) && !faults.write && !faults.rename)
    {
      if namespace == "" || name == "" || revision == "" { return Err(Required); }
      if !SafeComponent(namespace) || !SafeComponent(name) || !SafeComponent(revision) { return Err(Traversal); }
      if faults.mkdir { return Err(Mkdir); }
      var key := Key(namespace, name);
      dirs := dirs[key := DirOf(dirs, key)];
      var f := RevisionFilename(revision);
      RevisionFileIsFinal(revision);
      ghost var made := dirs;
      r := PutLocked(key, f, entries, now, faults);
      OthersAreSame(dirs, made, key);
    }

    /** A directory that is not there is nothing to do; one that cannot be listed is an error. Where a removal fails,
        earlier victims are gone. */
    method Prune(namespace: string, name: string, keepRevisions: seq<string>, grace: int, now: Instant,
                 faults: PruneFaults)
      returns (r: Result<(), StoreError>, ghost removed: set<string>)
      modifies this
      ensures dirs.Keys == old(dirs).Keys
      ensures forall k <- dirs.Keys :: k != Key(namespace, name) ==> dirs[k] == old(dirs)[k]
      ensures DirOf(dirs, Key(namespace, name)) == DirOf(old(dirs), Key(namespace, name)) - removed
      ensures var m := Seen(DirOf(old(dirs), Key(namespace, name)), faults.unseen);
        && removed <= Victims(m, KeepFiles(keepRevisions), now, grace)
        && (r.Ok? && keepRevisions != [] ==> removed == Victims(m, KeepFiles(keepRevisions), now, grace))
      ensures keepRevisions == [] ==> removed == {}
      ensures forall n <- removed :: Shaped(n, ".tar.gz")
      ensures r == Err(Required) || r == Err(Traversal) || r == Err(List) ==> removed == {}
      ensures SafeComponent(namespace) && SafeComponent(name) && !faults.unlisted && faults.removal.None?
              && (forall rev <- keepRevisions :: SafeComponent(rev))
              ==> r.Ok?
    {
      removed := {};
      var key := Key(namespace, name);
      assert forall d: Dir :: d - {} == d;
      if namespace == "" || name == "" { return Err(Required), removed; }
      if |keepRevisions| == 0 { return Ok(()), removed; }
      if !SafeComponent(namespace) || !SafeComponent(name) { return Err(Traversal), removed; }
      var built := BuildPruneKeepSet(keepRevisions);
      if built.Err? { return Err(Traversal), removed; }
      if key !in dirs {
        assert DirOf(dirs, key) == map[];
        return Ok(()), removed;
      }
      if faults.unlisted { return Err(List), removed; }
      r, removed := PruneLocked(key, built.value, grace, now, faults);
      forall n | n in removed ensures Shaped(n, ".tar.gz") { OursIff(n); }
    }

    /** The body of Prune once the directory is listed; m is what it gets to see. */
    method PruneSeen(key: Key, keep: set<string>, grace: int, now: Instant, faults: PruneFaults, ghost m: Mtimes)
      returns (r: Result<(), StoreError>, ghost removed: set<string>)
      requires key in dirs && Accepts(dirs[key], faults.unseen, m)
      modifies this
      ensures dirs == old(dirs)[key := old(dirs)[key] - removed]
      ensures removed <= Victims(m, keep, now, grace) && (r.Ok? ==> removed == Victims(m, keep, now, grace))
      ensures r.Err? ==> r.error.Remove? && faults.removal == Some(r.error.name)
    {
      var cands := CollectCandidates(SortedListing(dirs[key].Keys), dirs[key], faults.unseen, m);
      var victims := SelectPruneVictims(cands, keep, now, grace, m);
      r, removed := RemoveVictims(key, victims, faults.removal);
      assert Victims(m, keep, now, grace) == set x | x in victims;
    }

    method PruneLocked(key: Key, keep: set<string>, grace: int, now: Instant, faults: PruneFaults)
      returns (r: Result<(), StoreError>, ghost removed: set<string>)
      requires key in dirs
      modifies this
      ensures dirs == old(dirs)[key := old(dirs)[key] - removed]
      ensures removed <= Victims(Seen(old(dirs)[key], faults.unseen), keep, now, grace)
      ensures r.Ok? ==> removed == Victims(Seen(old(dirs)[key], faults.unseen), keep, now, grace)
      ensures r.Err? ==> r.error.Remove? && faults.removal == Some(r.error.name)
    {
      AcceptsSeen(dirs[key], faults.unseen);
      r, removed := PruneSeen(key, keep, grace, now, faults, Seen(dirs[key], faults.unseen));
    }

    method RemoveVictims(key: Key, victims: seq<string>, failing: Option<string>)
      returns (r: Result<(), StoreError>, ghost removed: set<string>)
      requires key in dirs
      modifies this
      ensures dirs == old(dirs)[key := old(dirs)[key] - removed]
      ensures forall x <- removed :: x in victims
      ensures r.Ok? ==> removed == set x | x in victims
      ensures r.Err? ==> r.error.Remove? && failing == Some(r.error.name)
    {
      removed := {};
      ghost var d := dirs[key];
      assert d - removed == d && dirs == dirs[key := d];
      for i := 0 to |victims|
        invariant removed == set x | x in victims[..i]
        invariant dirs == old(dirs)[key := d - removed]
      {
        if failing == Some(victims[i]) { return Err(Remove(victims[i])), removed; }
        dirs := dirs[key := dirs[key] - {victims[i]}];
        assert (d - removed) - {victims[i]} == d - (removed + {victims[i]});
        removed := removed + {victims[i]};
        assert victims[..i + 1] == victims[..i] + [victims[i]];
      }
      assert victims[..|victims|] == victims;
      return Ok(()), removed;
    }

    /** survivors are what a failing RemoveAll leaves behind. */
    method Delete(namespace: string, name: string, survivors: set<string>) returns (r: Result<(), StoreError>)
      modifies this
      ensures var key := Key(namespace, name);
              && (r.Ok? ==> dirs == old(dirs) - {key})
              && (forall k :: k != key ==> DirOf(dirs, k) == DirOf(old(dirs), k))
              && (r.Err? ==> forall n <- DirOf(dirs, key).Keys ::
                    n in DirOf(old(dirs), key) && DirOf(dirs, key)[n] == DirOf(old(dirs), key)[n])
      ensures SafeComponent(namespace) && SafeComponent(name) && survivors == {} ==> r.Ok?
    {
      if namespace == "" || name == "" { return Err(Required); }
      if !SafeComponent(namespace) || !SafeComponent(name) { return Err(Traversal); }
      var key := Key(namespace, name);
      if key in dirs && survivors * dirs[key].Keys != {} {
        dirs := dirs[key := dirs[key] - (dirs[key].Keys - survivors)];
        return Err(Remove(name));
      }
      dirs := dirs - {key};
      return Ok(());
    }

    /** Reaps one key's orphans; stuck are the files whose removal fails, and errors names them. */
    method SweepKey(key: Key, cutoff: int, unseen: set<string>, stuck: set<string>, ghost orphans: set<string>)
      returns (removed: nat, errors: set<string>)
      requires key in dirs && Reaps(dirs[key], cutoff, unseen, orphans)
      modifies this
      ensures dirs == old(dirs)[key := old(dirs)[key] - (orphans - stuck)]
      ensures removed == |orphans - stuck| && errors == orphans * stuck
    {
      var d := dirs[key];
      var gone;
      gone, removed, errors := CollectRemovable(SortedListing(d.Keys), d, cutoff, unseen, stuck, orphans);
      dirs := dirs[key := d - gone];
    }

    /** The walk over the keys; those whose directory cannot be listed are passed over. */
    method SweepKeys(cutoff: int, unseen: set<string>, unlisted: set<Key>, stuck: set<string>,
                     ghost orphans: map<Key, set<string>>)
      returns (removed: nat, ok: bool)
      requires AllReap(dirs, cutoff, unseen, orphans)
      modifies this
      ensures Swept(old(dirs), dirs, {}, unlisted, orphans, stuck)
      ensures removed == Reaped(orphans, orphans.Keys - unlisted, stuck)
      ensures ok <==> NoneStuck(orphans, orphans.Keys - unlisted, stuck)
    {
      var todo := dirs.Keys - unlisted;
      removed, ok := 0, true;
      ghost var before, all := dirs, dirs.Keys - unlisted;
      while todo != {}
        invariant todo <= all && Swept(before, dirs, todo, unlisted, orphans, stuck)
        invariant removed + Reaped(orphans, todo, stuck) == Reaped(orphans, all, stuck)
        invariant ok <==> NoneStuck(orphans, all - todo, stuck)
      {
        var key :| key in todo;
        SweptStep(before, dirs, todo, unlisted, orphans, cutoff, unseen, stuck, key);
        ReapedStep(orphans, all, todo, stuck, key);
        var n, errors := SweepKey(key, cutoff, unseen, stuck, orphans[key]);
        removed := removed + n;
        ok := ok && errors == {};
        todo := todo - {key};
      }
      assert all - todo == all;
    }

    /** Walks every key it can list: old temporary files go unless stuck, and nothing else is touched. The count is of
        all files removed, and the call fails iff the root cannot be listed or some file was stuck. */
    method Sweep(maxTmpAge: int, now: Instant, rootFails: bool, unlisted: set<Key>, unseen: set<string>,
                 stuck: set<string>)
      returns (removed: nat, ok: bool)
      modifies this
      ensures rootFails ==> dirs == old(dirs) && removed == 0 && !ok
      ensures !rootFails ==>
        var orphans := OrphansOf(old(dirs), now - maxTmpAge, unseen);
        && Swept(old(dirs), dirs, {}, unlisted, orphans, stuck)
        && removed == Reaped(orphans, orphans.Keys - unlisted, stuck)
        && (ok <==> NoneStuck(orphans, orphans.Keys - unlisted, stuck))
      ensures !rootFails ==> SweptClean(old(dirs), dirs, maxTmpAge, now, unlisted, unseen, stuck)
    {
      if rootFails { return 0, false; }
      ghost var before := dirs;
      OrphansAllReap(dirs, now - maxTmpAge, unseen);
      removed, ok := SweepKeys(now - maxTmpAge, unseen, unlisted, stuck, OrphansOf(dirs, now - maxTmpAge, unseen));
      SweptMeans(before, dirs, maxTmpAge, now, unlisted, unseen, stuck);
    }
  }

  lemma SweptIsSame(d: Dir, cutoff: int, unseen: set<string>, stuck: set<string>)
    ensures SameTarballs(d - (Orphans(d, cutoff, unseen) - stuck), d)
    ensures Orphans(d - (Orphans(d, cutoff, unseen) - stuck), cutoff, unseen) <= stuck
  {
    forall n | n in Orphans(d, cutoff, unseen) ensures HasSuffix(n, ".tmp") {
      SuffixOfSuffix(n, TEMPORARY, ".tmp");
    }
  }

  /** A sweep touches no visible tarball, of any key, and of the keys it listed leaves no old temporary file that could
      be removed. */
  lemma SweepLeavesTarballs(before: map<Key, Dir>, after: map<Key, Dir>, cutoff: int, unseen: set<string>,
                            unlisted: set<Key>, stuck: set<string>)
    requires Swept(before, after, {}, unlisted, OrphansOf(before, cutoff, unseen), stuck)
    ensures forall k <- before.Keys :: SameTarballs(after[k], before[k])
    ensures forall k <- before.Keys :: k !in unlisted ==> Orphans(after[k], cutoff, unseen) <= stuck
  {
    forall k | k in before
      ensures SameTarballs(after[k], before[k]) && (k !in unlisted ==> Orphans(after[k], cutoff, unseen) <= stuck)
    {
      SweptIsSame(before[k], cutoff, unseen, stuck);
    }
  }
}
