/** The order of reconcileSpec and markSynced of internal/operator/reconciler.go: suspension, the cycle gate, the
    publish and what the status goes on to list. */
module Reconciler {
  import opened ArtifactStore
  import opened Common
  import opened History
  import opened Publisher
  import opened Retention
  import opened Revision
  import opened Wrappers
  import Archive

  /** Why a pass that is neither suspended nor on a cycle ends before its publish: a check of the spec alone ahead of
      the walk, or one of the steps after it, the last being the generation re-read. */
  datatype Stop = RateLimited | NoTenant | NoSource | NoFiles | NoEntry | NoLibrary | EvalBusy | EvalFailed | SpecMoved

  /** How the status write goes. A failed patch may have landed all the same. */
  datatype Marking = Moved | Unread | Patched | PatchLost | PatchUnseen

  datatype Outcome =
    | Suspended
    | SpecDenied
    | WalkFailed
    | CycleDenied
    | Stopped(at: Stop)
    | PublishFailed
    | NotMarked
    | MarkFailed
    | Synced

  /** What one pass meets: the spec, the walk's verdict, the step that stops it early, what was rendered, the history in
      the cached object, the faults, and how the status write goes. */
  datatype Pass = Pass(
    suspend: bool,
    denied: bool,
    cycle: Result<bool, string>,
    stop: Option<Stop>,
    renderedRev: string,
    revision: string,
    entries: seq<Archive.FileEntry>,
    limit: int,
    cached: seq<RevisionEntry>,
    putAt: Instant,
    pruneAt: Instant,
    faults: Faults,
    marking: Marking,
    now: int)

  /** The pass comes as far as its publish. */
  predicate Publishes(p: Pass) {
    !p.suspend && !p.denied && p.cycle == Ok(false) && p.stop.None?
  }

  function Marked(m: Marking): Outcome {
    match m
    case Moved => NotMarked
    case Patched => Synced
    case _ => MarkFailed
  }

  /** The status write reaches the API server. */
  predicate Lands(m: Marking) { m.Patched? || m.PatchUnseen? }

  /** A publish that has no reason to fail. */
  ghost predicate NothingFails(p: Pass, key: Key, keep: seq<string>) {
    Addressable(key, [p.revision] + keep) && Archive.AllNamesUsable(p.entries) && p.faults == NO_FAULTS
  }

  /** Whatever the stored history lists, the cached one does too. */
  ghost predicate Covers(cached: seq<RevisionEntry>, history: seq<RevisionEntry>) {
    forall rev <- HistoryRevisions(history) :: rev in HistoryRevisions(cached)
  }

  lemma ListedComeFromKeepOrNew(prior: seq<RevisionEntry>, keep: seq<string>, p: Pass, before: Dir, after: Dir)
    requires p.renderedRev == p.revision != "" && KeepSpec(keep, p.renderedRev, prior, Limit(p.limit))
    requires StillStored(before, after, keep) && RevisionFilename(p.revision) in after
    ensures (forall rev <- HistoryRevisions(prior) :: RevisionFilename(rev) in before) ==>
        forall rev <- HistoryRevisions(HistoryAfter(prior, p.revision, p.limit, p.now)) ::
            RevisionFilename(rev) in after
  {
    RenderedKeepCoversHistory(keep, prior, p.revision, p.limit, p.now);
    forall rev | rev in HistoryRevisions(HistoryAfter(prior, p.revision, p.limit, p.now)) && rev != p.revision
      ensures rev in HistoryRevisions(prior)
    {
      var i := ListedFrom(prior, p.revision, p.limit, p.now, rev);
    }
  }

  class Reconciler {
    const publisher: Publisher
    const key: Key
    var history: seq<RevisionEntry>
    var revision: string

    constructor (publisher: Publisher, key: Key)
      ensures this.publisher == publisher && this.key == key && history == [] && revision == ""
    {
      this.publisher, this.key, history, revision := publisher, key, [], "";
    }

    ghost predicate PointerFetchable()
      reads this, publisher, publisher.store
    {
      Fetchable(publisher.store.dirs, publisher.pointers, key)
    }

    /** The pointed-at revision is one a prune to this list keeps. */
    ghost predicate PointerIn(listed: seq<RevisionEntry>)
      reads this, publisher
    {
      PointsInto(publisher.pointers, key, HistoryRevisions(listed))
    }

    /** Every revision status.history lists has its tarball. */
    ghost predicate AllListedStored()
      reads this, publisher, publisher.store
    {
      forall rev <- HistoryRevisions(history) :: RevisionFilename(rev) in DirOf(publisher.store.dirs, key)
    }

    /** The suspended pass prunes to what the cached object lists, which may lag the stored history; a prune that fails
        is logged and forgotten. */
    method Drain(cached: seq<RevisionEntry>, pruneAt: Instant, faults: PruneFaults)
      modifies publisher.store
      ensures var d, d' := DirOf(old(publisher.store.dirs), key), DirOf(publisher.store.dirs, key);
        && StillStored(d, d', HistoryRevisions(cached))
        && PartlyPruned(d, d', HistoryRevisions(cached), pruneAt, publisher.grace, faults.unseen)
        && (Addressable(key, HistoryRevisions(cached)) && !faults.unlisted && faults.removal.None?
            ==> d' == Pruned(d, HistoryRevisions(cached), pruneAt, publisher.grace, faults.unseen))
      ensures forall k :: k != key ==> DirOf(publisher.store.dirs, k) == DirOf(old(publisher.store.dirs), k)
      ensures old(PointerFetchable()) && (cached != [] ==> PointerIn(cached)) ==> PointerFetchable()
      ensures old(AllListedStored()) && (cached != [] ==> Covers(cached, history)) ==> AllListedStored()
    {
      ghost var d := DirOf(publisher.store.dirs, key);
      assert d - {} == d && HistoryRevisions([]) == [];
      if |cached| > 0 {
        var _ := publisher.PruneStored(key, HistoryRevisions(cached), pruneAt, faults);
      }
    }

    /** The publish and its keep-set, which is seeded with the hash of the rendered text. */
    method PublishPass(p: Pass) returns (r: Result<PutResult, PublishFault>, keep: seq<string>)
      modifies publisher`pointers, publisher.store
      ensures KeepSpec(keep, p.renderedRev, history, Limit(p.limit))
      ensures old(PointerFetchable()) ==> PointerFetchable()
      ensures PublishState(r, DirOf(old(publisher.store.dirs), key), DirOf(publisher.store.dirs, key),
                           old(publisher.pointers), publisher.pointers, key, p.revision, Archive.SortEntries(p.entries),
                           keep, p.putAt, p.pruneAt, publisher.grace, p.faults)
      ensures StillStored(DirOf(old(publisher.store.dirs), key), DirOf(publisher.store.dirs, key), keep)
      ensures NothingFails(p, key, keep) ==> r.Ok?
    {
      keep := BuildKeepRevisions(p.renderedRev, history, p.limit);
      r := publisher.PublishEntries(key, p.revision, p.entries, keep, p.putAt, p.pruneAt, p.faults);
    }

    /** markSynced: a spec that moved during the publish leaves the status alone and is no error. The status changes
        exactly when the patch lands, whatever the caller is told. */
    method MarkSynced(p: Pass) returns (out: Outcome)
      modifies this`history, this`revision
      ensures out == Marked(p.marking)
      ensures (out == Synced <==> p.marking == Patched) && (out == NotMarked <==> p.marking == Moved)
      ensures p.marking in {Moved, Unread, PatchLost} ==> history == old(history) && revision == old(revision)
      ensures p.marking in {Patched, PatchUnseen} ==>
          Updated(old(history), history, p.revision, p.limit, p.now) && revision == p.revision
      ensures Lands(p.marking) ==>
          history == HistoryAfter(old(history), p.revision, p.limit, p.now) && revision == p.revision
      ensures !Lands(p.marking) ==> history == old(history) && revision == old(revision)
    {
      if p.marking.Unread? { return MarkFailed; }
      if p.marking.Moved? { return NotMarked; }
      var next := UpdateRevisionHistory(history, p.revision, p.limit, p.now);
      if Lands(p.marking) { history, revision := next, p.revision; }
      return if p.marking.Patched? then Synced else MarkFailed;
    }

    /** A pass that stops before its publish changes nothing, a suspended one only prunes. Whatever happens the pointer
        stays fetchable, given only that the list a suspended pass has cached holds it; and when the written revision is
        the one the keep-set was seeded with, every listed revision stays stored however the status write goes. */
    method ReconcileSpec(p: Pass)
      returns (out: Outcome, ghost keep: seq<string>, ghost published: Option<Result<PutResult, PublishFault>>)
      modifies this`history, this`revision, publisher`pointers, publisher.store
      ensures out == Suspended <==> p.suspend
      ensures out == SpecDenied <==> !p.suspend && p.denied
      ensures out == WalkFailed <==> !p.suspend && !p.denied && p.cycle.Err?
      ensures out == CycleDenied <==> !p.suspend && !p.denied && p.cycle == Ok(true)
      ensures out.Stopped? <==> !p.suspend && !p.denied && p.cycle == Ok(false) && p.stop.Some?
      ensures out.Stopped? ==> p.stop == Some(out.at)
      ensures published.Some? <==> !p.suspend && !p.denied && p.cycle == Ok(false) && p.stop.None?
      ensures published.Some? <==> Publishes(p)
      ensures published.Some? ==> out == if published.value.Err? then PublishFailed else Marked(p.marking)
      ensures !Publishes(p) ==> publisher.pointers == old(publisher.pointers)
      ensures !Publishes(p) && !p.suspend ==> publisher.store.dirs == old(publisher.store.dirs)
      ensures published.Some? && published.value.Ok? && p.marking in {Patched, PatchUnseen} ==>
          && history == HistoryAfter(old(history), p.revision, p.limit, p.now) && revision == p.revision
          && Updated(old(history), history, p.revision, p.limit, p.now)
      ensures !(published.Some? && published.value.Ok? && p.marking in {Patched, PatchUnseen}) ==>
          history == old(history) && revision == old(revision)
      ensures old(PointerFetchable()) && (p.suspend && p.cached != [] ==> old(PointerIn(p.cached))) ==>
          PointerFetchable()
      ensures out == Synced ==>
          PointerFetchable() && key in publisher.pointers && publisher.pointers[key] == Some(revision)
      ensures old(AllListedStored())
              && (p.suspend && p.cached != [] ==> Covers(p.cached, old(history)))
              && (Publishes(p) ==> out != PublishFailed && Lands(p.marking) && p.renderedRev == p.revision != "")
              ==> AllListedStored()
      ensures out == Suspended ==>
          PartlyPruned(DirOf(old(publisher.store.dirs), key), DirOf(publisher.store.dirs, key),
                       HistoryRevisions(p.cached), p.pruneAt, publisher.grace, p.faults.prune.unseen)
      ensures out == Suspended && Addressable(key, HistoryRevisions(p.cached))
              && !p.faults.prune.unlisted && p.faults.prune.removal.None? ==>
          DirOf(publisher.store.dirs, key) ==
          Pruned(DirOf(old(publisher.store.dirs), key), HistoryRevisions(p.cached), p.pruneAt, publisher.grace,
                 p.faults.prune.unseen)
      ensures Publishes(p) && NothingFails(p, key, keep) ==> out != PublishFailed
      ensures published.Some? ==> KeepSpec(keep, p.renderedRev, old(history), Limit(p.limit))
      ensures published.Some? ==>
          PublishState(published.value, DirOf(old(publisher.store.dirs), key), DirOf(publisher.store.dirs, key),
                       old(publisher.pointers), publisher.pointers, key, p.revision, Archive.SortEntries(p.entries),
                       keep, p.putAt, p.pruneAt, publisher.grace, p.faults)
    {
      keep, published := [], None;
      if p.suspend {
        Drain(p.cached, p.pruneAt, p.faults.prune);
        return Suspended, keep, published;
      }
      if p.denied { return SpecDenied, keep, published; }
      if p.cycle.Err? { return WalkFailed, keep, published; }
      if p.cycle.value { return CycleDenied, keep, published; }
      if p.stop.Some? { return Stopped(p.stop.value), keep, published; }
      var r, kept := PublishPass(p);
      keep, published := kept, Some(r);
      if r.Err? { return PublishFailed, keep, published; }
      ghost var prior := history;
      out := MarkSynced(p);
      if p.renderedRev == p.revision != "" {
        ghost var before := old(DirOf(publisher.store.dirs, key));
        ListedComeFromKeepOrNew(prior, keep, p, before, DirOf(publisher.store.dirs, key));
      }
    }
  }
}
