/** Publisher of internal/operator/publisher.go over the filesystem store and the ExternalArtifact objects: the
    ordered effects of Publish, PruneStored and Withdraw, any of which can fail. */
module Publisher {
  import opened Archive
  import opened ArtifactStore
  import opened Common
  import Extraction
  import EntryNames
  import opened Retention
  import opened Revision
  import RetentionRuns
  import opened RoundTrip
  import opened Wrappers

  datatype PublishFault =
    | Source(reason: PublishError)
    | PutRun(put: StoreError)
    | SpecWrite
    | StatusWrite
    | PruneRun(prune: StoreError)

  /** How a write to the API server goes. A write that failed may have landed all the same. */
  datatype ApiWrite = Done | Lost | Unseen

  /** Which calls fail, in the Put, the two API writes and the Prune. */
  datatype Faults = Faults(put: PutFaults, spec: ApiWrite, status: ApiWrite, prune: PruneFaults)

  /** The revision each key's ExternalArtifact names in its status, if it has one. */
  type Pointers = map<Key, Option<string>>

  /** A consumer that reads the pointer finds the tarball. */
  ghost predicate Fetchable(dirs: map<Key, Dir>, pointers: Pointers, key: Key) {
    key in pointers && pointers[key].Some? ==> RevisionFilename(pointers[key].value) in DirOf(dirs, key)
  }

  /** Nothing of any other key changed. */
  ghost predicate OnlyKey(key: Key, before: map<Key, Dir>, after: map<Key, Dir>, p: Pointers, q: Pointers) {
    && (forall k :: k != key ==> DirOf(after, k) == DirOf(before, k))
    && p - {key} == q - {key}
  }

  /** Every one of these revisions that had its tarball before has it after. */
  ghost predicate StillStored(before: Dir, after: Dir, revisions: seq<string>) {
    forall rev <- revisions :: RevisionFilename(rev) in before ==> RevisionFilename(rev) in after
  }

  lemma TarballsStay(a: Dir, b: Dir, revision: string)
    requires SameTarballs(a, b)
    ensures RevisionFilename(revision) in a <==> RevisionFilename(revision) in b
  {
    RevisionFileIsFinal(revision);
  }

  lemma KeptIsNoVictim(d: Dir, keep: seq<string>, now: Instant, grace: int, unseen: set<string>, removed: set<string>)
    requires removed <= Victims(Seen(d, unseen), KeepFiles(keep), now, grace)
    ensures forall f <- KeepFiles(keep) :: f in d ==> f in d - removed
  {
  }

  lemma KeptStaysStored(d: Dir, keep: seq<string>, now: Instant, grace: int, unseen: set<string>, removed: set<string>)
    requires removed <= Victims(Seen(d, unseen), KeepFiles(keep), now, grace)
    ensures StillStored(d, d - removed, keep)
  {
    forall rev | rev in keep && RevisionFilename(rev) in d ensures RevisionFilename(rev) in d - removed {
      assert RevisionFilename(rev) in KeepFiles(keep);
      KeptIsNoVictim(d, keep, now, grace, unseen, removed);
    }
  }

  /** The caller may forget the revision just published. */
  function KeepWith(revision: string, keep: seq<string>): seq<string> {
    if revision in keep then keep else [revision] + keep
  }

  ghost function Pruned(d: Dir, keep: seq<string>, now: Instant, grace: int, unseen: set<string>): Dir {
    if keep == [] then d else d - Victims(Seen(d, unseen), KeepFiles(keep), now, grace)
  }

  /** What a Prune may leave when one of its removals fails; without a keep-set it removes nothing. */
  ghost predicate PartlyPruned(before: Dir, after: Dir, keep: seq<string>, now: Instant, grace: int,
                               unseen: set<string>) {
    exists removed ::
      && removed <= Victims(Seen(before, unseen), KeepFiles(keep), now, grace) && (keep == [] ==> removed == {})
      && after == before - removed
  }

  /** Files may be gone, but none is new or changed. */
  ghost predicate WhatIsLeft(before: Dir, after: Dir) {
    forall n <- after.Keys :: n in before && after[n] == before[n]
  }

  lemma PrunedAlike(a: Dir, b: Dir, keep: seq<string>, now: Instant, grace: int, unseen: set<string>)
    requires SameTarballs(a, b)
    ensures SameTarballs(Pruned(a, keep, now, grace, unseen), Pruned(b, keep, now, grace, unseen))
  {
    RetentionRuns.SameTarballsSameCandidates(a, b);
  }

  /** Names and revisions that are path components. */
  ghost predicate Addressable(key: Key, revisions: seq<string>) {
    SafeComponent(key.namespace) && SafeComponent(key.name) && forall rev <- revisions :: SafeComponent(rev)
  }

  const NO_FAULTS := Faults(NO_PUT_FAULTS, Done, Done, NO_PRUNE_FAULTS)

  /** The revision pointed at, if there is one, is among these. */
  ghost predicate PointsInto(pointers: Pointers, key: Key, revisions: seq<string>) {
    key in pointers && pointers[key].Some? ==> RevisionFilename(pointers[key].value) in KeepFiles(revisions)
  }

  /** The object is there; CreateOrUpdate leaves an existing status alone. */
  function Created(p: Pointers, key: Key): Pointers { if key in p then p else p[key := None] }

  /** The pointers after the two API writes: only a status write that lands moves the key's own. */
  function Upserted(p: Pointers, key: Key, revision: string, spec: ApiWrite, status: ApiWrite): Pointers {
    if spec.Lost? then p
    else if spec.Unseen? || status.Lost? then Created(p, key)
    else p[key := Some(revision)]
  }

  /** Directory and pointer after the Put, outcome by outcome. */
  ghost predicate AnnounceState(r: Result<PutResult, PublishFault>, put: Dir, d': Dir, p: Pointers, p': Pointers,
                                key: Key, revision: string, keep: seq<string>, pruneAt: Instant, grace: int,
                                    faults: Faults)
  {
    var all := KeepWith(revision, keep);
    match r
    case Ok(_) =>
      p' == p[key := Some(revision)] && RevisionFilename(revision) in d' &&
      SameTarballs(d', Pruned(put, all, pruneAt, grace, faults.prune.unseen))
    case Err(SpecWrite) =>
      p' == (if faults.spec.Lost? then p else Created(p, key)) && RevisionFilename(revision) in d' &&
          SameTarballs(d', put)
    case Err(StatusWrite) =>
      p' == (if faults.status.Lost? then Created(p, key) else p[key := Some(revision)]) &&
      RevisionFilename(revision) in d' && SameTarballs(d', put)
    case Err(PruneRun(_)) =>
      p' == p[key := Some(revision)] && RevisionFilename(revision) in d' &&
      exists stored :: SameTarballs(stored, put) && PartlyPruned(stored, d', all, pruneAt, grace, faults.prune.unseen)
    case _ => false
  }

  ghost predicate PublishState(r: Result<PutResult, PublishFault>, d: Dir, d': Dir, p: Pointers, p': Pointers, key: Key,
                               revision: string, content: Tarball, keep: seq<string>, putAt: Instant, pruneAt: Instant,
                               grace: int, faults: Faults)
  {
    if r.Err? && r.error.PutRun? then p' == p && SameTarballs(d', d)
    else
      var put := PutOutcome(d, RevisionFilename(revision), content, putAt, faults.put);
      AnnounceState(r, put, d', p, p', key, revision, keep, pruneAt, grace, faults)
  }

  /** The published file: fresh bytes are the entries, in path order, and a revision already stored keeps its own. */
  ghost predicate Serves(d: Dir, d': Dir, revision: string, entries: seq<FileEntry>, putAt: Instant,
                         faults: PutFaults) {
    var f := RevisionFilename(revision);
    && f in d'
    && (f !in d || faults.stat ==>
        d'[f].mtime == putAt && multiset(d'[f].content) == multiset(entries) && SortedByPath(d'[f].content))
    && (f in d && !faults.stat ==> d'[f].content == d[f].content)
  }

  lemma PublishServes(r: Result<PutResult, PublishFault>, d: Dir, d': Dir, p: Pointers, p': Pointers, key: Key,
                      revision: string, entries: seq<FileEntry>, keep: seq<string>, putAt: Instant, pruneAt: Instant,
                      grace: int, faults: Faults)
    requires PublishState(r, d, d', p, p', key, revision, SortEntries(entries), keep, putAt, pruneAt, grace, faults)
    requires !(r.Err? && r.error.PutRun?)
    ensures Serves(d, d', revision, entries, putAt, faults.put)
  {
    var f := RevisionFilename(revision);
    var put := PutOutcome(d, f, SortEntries(entries), putAt, faults.put);
    RevisionFileIsFinal(revision);
    assert d'[f] == put[f];
    assert SameTarballs(put, put);
    OutcomeIsWritten(d, put, f, entries, putAt, faults.put);
  }

  /** A revision stored now is extracted to the very files, by every consumer whose caps they fit, if their names are in
      normal form. */
  ghost predicate BringsBack(d: Dir, d': Dir, revision: string, files: Extraction.Files, faults: PutFaults) {
    var f := RevisionFilename(revision);
    && f in d'
    && ((f !in d || faults.stat) && (forall k <- files.Keys :: EntryNames.Canonical(k)) ==>
        forall caps: Extraction.Caps {:trigger Extraction.Effective(caps)} ::
          && Extraction.Int64Caps(caps) && Extraction.Fits(files, Extraction.Effective(caps))
          && (caps.perEntry < Extraction.MAX_INT64 || Extraction.AllEmpty(files)) ==>
          Extraction.Extracted(Downloaded(d'[f].content), "", caps) == Ok(files))
  }

  lemma ServedComesBack(d: Dir, d': Dir, revision: string, files: Extraction.Files, order: seq<string>, putAt: Instant,
                        faults: PutFaults)
    requires Enumerates(order, files) && Serves(d, d', revision, EntriesIn(files, order), putAt, faults)
    ensures BringsBack(d, d', revision, files, faults)
  {
    var f := RevisionFilename(revision);
    if f !in d || faults.stat {
      SortedIsArchive(files, order, d'[f].content);
      forall caps: Extraction.Caps |
        && Extraction.Int64Caps(caps) && Extraction.Fits(files, Extraction.Effective(caps))
        && (caps.perEntry < Extraction.MAX_INT64 || Extraction.AllEmpty(files))
        && forall k <- files.Keys :: EntryNames.Canonical(k)
        ensures Extraction.Extracted(Downloaded(d'[f].content), "", caps) == Ok(files)
      {
        ExtractOfPublishIff(files, caps);
      }
    }
  }

  lemma AddressableOne(key: Key, revision: string, keep: seq<string>)
    ensures Addressable(key, [revision] + keep) ==> Addressable(key, [revision])
  {
    assert revision in [revision] + keep;
  }

  lemma PutKeepsOld(before: map<Key, Dir>, after: map<Key, Dir>, pointers: Pointers, key: Key, revision: string,
                    entries: seq<FileEntry>, now: Instant, faults: PutFaults)
    requires
      || SameTarballs(DirOf(after, key), DirOf(before, key))
      || SameTarballs(DirOf(after, key),
                      PutOutcome(DirOf(before, key), RevisionFilename(revision), SortEntries(entries), now, faults))
    ensures Fetchable(before, pointers, key) ==> Fetchable(after, pointers, key)
  {
    if key in pointers && pointers[key].Some? {
      var old_ := pointers[key].value;
      var put := PutOutcome(DirOf(before, key), RevisionFilename(revision), SortEntries(entries), now, faults);
      if SameTarballs(DirOf(after, key), DirOf(before, key)) {
        TarballsStay(DirOf(after, key), DirOf(before, key), old_);
      } else {
        TarballsStay(DirOf(after, key), put, old_);
      }
    }
  }

  lemma PutKeepsAll(before: Dir, after: Dir, revision: string, entries: seq<FileEntry>, now: Instant, faults: PutFaults,
                    others: seq<string>)
    requires
      || SameTarballs(after, before)
      || SameTarballs(after, PutOutcome(before, RevisionFilename(revision), SortEntries(entries), now, faults))
    ensures StillStored(before, after, others)
  {
    var put := PutOutcome(before, RevisionFilename(revision), SortEntries(entries), now, faults);
    forall rev | rev in others && RevisionFilename(rev) in before ensures RevisionFilename(rev) in after {
      if SameTarballs(after, before) { TarballsStay(after, before, rev); } else { TarballsStay(after, put, rev); }
    }
  }

  class Publisher {
    const store: Store
    const grace: int
    const maxArtifact: int
    var pointers: Pointers

    constructor (store: Store, grace: int, maxArtifact: int)
      ensures this.store == store && this.grace == grace && this.maxArtifact == maxArtifact && pointers == map[]
    {
      this.store, this.grace, this.maxArtifact, pointers := store, grace, maxArtifact, map[];
    }

    method PutEntries(key: Key, revision: string, entries: seq<FileEntry>, now: Instant, faults: PutFaults,
                      ghost others: seq<string>)
      returns (r: Result<PutResult, StoreError>)
      modifies store
      ensures forall k :: k != key ==> DirOf(store.dirs, k) == DirOf(old(store.dirs), k)
      ensures var d, d' := DirOf(old(store.dirs), key), DirOf(store.dirs, key);
        && StillStored(d, d', others)
        && (r.Err? ==> SameTarballs(d', d))
        && (r.Ok? ==> SameTarballs(d', PutOutcome(d, RevisionFilename(revision), SortEntries(entries), now, faults)))
        && (r.Ok? ==> RevisionFilename(revision) in d')
      ensures old(Fetchable(store.dirs, pointers, key)) ==> Fetchable(store.dirs, pointers, key)
      ensures Addressable(key, [revision]) && AllNamesUsable(entries) && faults == NO_FAULTS.put ==> r.Ok?
    {
      r := store.Put(key.namespace, key.name, revision, entries, now, faults);
      assert revision in [revision];
      PutKeepsOld(old(store.dirs), store.dirs, pointers, key, revision, entries, now, faults);
      PutKeepsAll(DirOf(old(store.dirs), key), DirOf(store.dirs, key), revision, entries, now, faults, others);
    }

    /** CreateOrUpdate, then the status write that moves the pointer. */
    method Upsert(key: Key, revision: string, spec: ApiWrite, status: ApiWrite) returns (error: Option<PublishFault>)
      modifies this`pointers
      ensures error == if !spec.Done? then Some(SpecWrite) else if !status.Done? then Some(StatusWrite) else None
      ensures pointers == Upserted(old(pointers), key, revision, spec, status)
      ensures pointers - {key} == old(pointers) - {key}
      ensures key in pointers <==> key in old(pointers) || !spec.Lost?
      ensures key in pointers && key in old(pointers) ==>
          pointers[key] == if spec.Done? && !status.Lost? then Some(revision) else old(pointers)[key]
      ensures key in pointers && pointers[key] == Some(revision) <==>
          (!spec.Lost? && !spec.Unseen? && !status.Lost?) ||
              (key in old(pointers) && old(pointers)[key] == Some(revision))
    {
      if spec.Lost? { return Some(SpecWrite); }
      if key !in pointers { pointers := pointers[key := None]; }
      if spec.Unseen? { return Some(SpecWrite); }
      if status.Lost? { return Some(StatusWrite); }
      pointers := pointers[key := Some(revision)];
      return if status.Unseen? then Some(StatusWrite) else None;
    }

    /** The just published revision is kept even if the caller forgot it. */
    method PruneKeeping(key: Key, revision: string, keepRevisions: seq<string>, now: Instant, faults: PruneFaults)
      returns (r: Result<(), StoreError>)
      requires RevisionFilename(revision) in DirOf(store.dirs, key)
      modifies store
      ensures forall k :: k != key ==> DirOf(store.dirs, k) == DirOf(old(store.dirs), k)
      ensures var d, d', keep := DirOf(old(store.dirs), key), DirOf(store.dirs, key), KeepWith(revision, keepRevisions);
        && RevisionFilename(revision) in d' && StillStored(d, d', keepRevisions)
        && (r.Ok? ==> d' == d - Victims(Seen(d, faults.unseen), KeepFiles(keep), now, grace))
        && (r.Ok? ==> d' == Pruned(d, keep, now, grace, faults.unseen))
        && PartlyPruned(d, d', keep, now, grace, faults.unseen)
      ensures Addressable(key, [revision] + keepRevisions) && !faults.unlisted && faults.removal.None? ==> r.Ok?
    {
      var keep := KeepWith(revision, keepRevisions);
      ghost var before := DirOf(store.dirs, key);
      ghost var removed;
      r, removed := store.Prune(key.namespace, key.name, keep, grace, now, faults);
      assert revision in keep && forall rev <- keep :: rev in [revision] + keepRevisions;
      KeptStaysStored(before, keep, now, grace, faults.unseen, removed);
    }

    /** What follows a Put that left d: the pointer, then Prune. */
    method Announce(key: Key, revision: string, result: PutResult, keepRevisions: seq<string>, pruneAt: Instant,
                    faults: Faults, ghost d: Dir)
      returns (r: Result<PutResult, PublishFault>)
      requires RevisionFilename(revision) in DirOf(store.dirs, key) && SameTarballs(DirOf(store.dirs, key), d)
      modifies this`pointers, store
      ensures forall k :: k != key ==> DirOf(store.dirs, k) == DirOf(old(store.dirs), k)
      ensures StillStored(DirOf(old(store.dirs), key), DirOf(store.dirs, key), keepRevisions)
      ensures AnnounceState(r, d, DirOf(store.dirs, key), old(pointers), pointers, key, revision, keepRevisions,
                            pruneAt, grace, faults)
      ensures r.Ok? || r.error.PruneRun? || store.dirs == old(store.dirs)
      ensures Addressable(key, [revision] + keepRevisions) && faults == NO_FAULTS ==> r.Ok?
    {
      var upsert := Upsert(key, revision, faults.spec, faults.status);
      if upsert.Some? { return Err(upsert.value); }
      ghost var stored := DirOf(store.dirs, key);
      var pruned := PruneKeeping(key, revision, keepRevisions, pruneAt, faults.prune);
      PrunedAlike(stored, d, KeepWith(revision, keepRevisions), pruneAt, grace, faults.prune.unseen);
      r := if pruned.Err? then Err(PruneRun(pruned.error)) else Ok(result);
    }

    /** Put, then the pointer, then Prune. On success the status points at the revision just published and the
        directory is that of the Put, pruned. Whatever fails, what was fetchable through the pointer before the call
        is so after it. */
    method PublishEntries(key: Key, revision: string, entries: seq<FileEntry>, keepRevisions: seq<string>,
                          putAt: Instant, pruneAt: Instant, faults: Faults)
      returns (r: Result<PutResult, PublishFault>)
      modifies this`pointers, store
      ensures forall k :: k != key ==> DirOf(store.dirs, k) == DirOf(old(store.dirs), k)
      ensures StillStored(DirOf(old(store.dirs), key), DirOf(store.dirs, key), keepRevisions)
      ensures PublishState(r, DirOf(old(store.dirs), key), DirOf(store.dirs, key), old(pointers), pointers, key,
                           revision, SortEntries(entries), keepRevisions, putAt, pruneAt, grace, faults)
      ensures !(r.Err? && r.error.PutRun?) ==>
          Serves(DirOf(old(store.dirs), key), DirOf(store.dirs, key), revision, entries, putAt, faults.put)
      ensures old(Fetchable(store.dirs, pointers, key)) ==> Fetchable(store.dirs, pointers, key)
      ensures Addressable(key, [revision] + keepRevisions) && AllNamesUsable(entries) && faults == NO_FAULTS ==> r.Ok?
    {
      AddressableOne(key, revision, keepRevisions);
      ghost var p := pointers;
      ghost var d := DirOf(store.dirs, key);
      var put := PutEntries(key, revision, entries, putAt, faults.put, keepRevisions);
      if put.Err? {
        r := Err(PutRun(put.error));
      } else {
        ghost var after := PutOutcome(d, RevisionFilename(revision), SortEntries(entries), putAt, faults.put);
        r := Announce(key, revision, put.value, keepRevisions, pruneAt, faults, after);
        PublishServes(r, d, DirOf(store.dirs, key), p, pointers, key, revision, entries, keepRevisions, putAt,
                      pruneAt, grace, faults);
      }
    }

    /** Output=source: refused names and sizes change nothing at all. */
    method PublishSourceTree(key: Key, revision: string, files: Extraction.Files, order: seq<string>,
                             keepRevisions: seq<string>, putAt: Instant, pruneAt: Instant, faults: Faults)
      returns (r: Result<PutResult, PublishFault>)
      requires Enumerates(order, files)
      modifies this`pointers, store
      ensures forall k :: k != key ==> DirOf(store.dirs, k) == DirOf(old(store.dirs), k)
      ensures old(Fetchable(store.dirs, pointers, key)) ==> Fetchable(store.dirs, pointers, key)
      ensures r.Err? && r.error.Source? <==>
          !(forall k <- files.Keys :: EntryNames.SafeEntryName(k)) || !Publishable(EntriesIn(files, order), maxArtifact)
      ensures r.Err? && r.error.Source? ==> store.dirs == old(store.dirs) && pointers == old(pointers)
      ensures !(r.Err? && r.error.Source?) ==>
          PublishState(r, DirOf(old(store.dirs), key), DirOf(store.dirs, key), old(pointers), pointers, key, revision,
                       ArchiveOf(files), keepRevisions, putAt, pruneAt, grace, faults)
      ensures !(r.Err? && (r.error.Source? || r.error.PutRun?)) ==>
          BringsBack(DirOf(old(store.dirs), key), DirOf(store.dirs, key), revision, files, faults.put)
    {
      var entries := BuildEntries(files, order);
      if entries.Err? { return Err(Source(UnsafeName(entries.error))); }
      var fits := CheckSizes(entries.value, maxArtifact);
      if !fits { return Err(Source(TooLarge)); }
      ArchiveIgnoresMapOrder(files, order);
      ghost var d := DirOf(store.dirs, key);
      r := PublishEntries(key, revision, entries.value, keepRevisions, putAt, pruneAt, faults);
      if !(r.Err? && r.error.PutRun?) {
        ServedComesBack(d, DirOf(store.dirs, key), revision, files, order, putAt, faults.put);
      }
    }

    /** The prune of a suspended snippet: it spares the pointer exactly as far as the caller's list does. */
    method PruneStored(key: Key, keepRevisions: seq<string>, now: Instant, faults: PruneFaults)
      returns (r: Result<(), StoreError>)
      modifies store
      ensures forall k :: k != key ==> DirOf(store.dirs, k) == DirOf(old(store.dirs), k)
      ensures var d, d' := DirOf(old(store.dirs), key), DirOf(store.dirs, key);
        && StillStored(d, d', keepRevisions)
        && (r.Ok? && keepRevisions != [] ==>
            d' == d - Victims(Seen(d, faults.unseen), KeepFiles(keepRevisions), now, grace))
        && (r.Ok? ==> d' == Pruned(d, keepRevisions, now, grace, faults.unseen))
        && PartlyPruned(d, d', keepRevisions, now, grace, faults.unseen)
      ensures Addressable(key, keepRevisions) && !faults.unlisted && faults.removal.None? ==> r.Ok?
      ensures old(Fetchable(store.dirs, pointers, key)) && PointsInto(pointers, key, keepRevisions) ==>
          Fetchable(store.dirs, pointers, key)
    {
      ghost var before := DirOf(store.dirs, key);
      ghost var removed;
      r, removed := store.Prune(key.namespace, key.name, keepRevisions, grace, now, faults);
      KeptIsNoVictim(before, keepRevisions, now, grace, faults.unseen, removed);
      KeptStaysStored(before, keepRevisions, now, grace, faults.unseen, removed);
      assert keepRevisions == [] ==> before - removed == before;
    }

    /** The object goes first, so no pointer ever outlives its tarball, not even where the delete only seems to fail. */
    method Withdraw(key: Key, delete: ApiWrite, survivors: set<string>) returns (ok: bool)
      modifies this`pointers, store
      ensures OnlyKey(key, old(store.dirs), store.dirs, old(pointers), pointers)
      ensures old(Fetchable(store.dirs, pointers, key)) ==> Fetchable(store.dirs, pointers, key)
      ensures ok ==> key !in store.dirs
      ensures !delete.Done? ==> store.dirs == old(store.dirs) && !ok
      ensures pointers == if delete.Lost? then old(pointers) else old(pointers) - {key}
      ensures WhatIsLeft(DirOf(old(store.dirs), key), DirOf(store.dirs, key))
      ensures delete.Done? && Addressable(key, []) && survivors == {} ==> ok
    {
      if delete.Lost? { return false; }
      pointers := pointers - {key};
      if delete.Unseen? { return false; }
      ok := WithdrawStorage(key, survivors);
    }

    /** Only the tarballs: what a deletion salvages when it cannot act as the tenant. A pointer that is still set is
        left dangling. */
    method WithdrawStorage(key: Key, survivors: set<string>) returns (ok: bool)
      modifies store
      ensures forall k :: k != key ==> DirOf(store.dirs, k) == DirOf(old(store.dirs), k)
      ensures ok ==> key !in store.dirs
      ensures WhatIsLeft(DirOf(old(store.dirs), key), DirOf(store.dirs, key))
      ensures ok ==> (Fetchable(store.dirs, pointers, key) <==> !(key in pointers && pointers[key].Some?))
      ensures Addressable(key, []) && survivors == {} ==> ok
    {
      var gone := store.Delete(key.namespace, key.name, survivors);
      return gone.Ok?;
    }
  }
}
