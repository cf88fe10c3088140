/** The classes refine the protocol: whatever a reconcile or a withdrawal does to the store, the pointer and the status,
    faults included, is a run of its steps. */
module PublishRefinement {
  import opened ArtifactStore
  import opened Common
  import opened History
  import opened Publication
  import opened Retention
  import opened Revision
  import opened Wrappers
  import Archive
  import P = Publisher
  import R = Reconciler
  import RetentionRuns

  /** What the protocol sees of a key's directory, its ExternalArtifact and its status. */
  ghost function View(d: Dir, pointers: P.Pointers, key: Key, history: seq<RevisionEntry>): State {
    State(Candidates(d), if key in pointers then pointers[key] else None, history, Idle)
  }

  /** Steps that lead from one state to another. */
  ghost predicate Leads(states: seq<State>, what: seq<Action>, grace: int, first: State, last: State) {
    Segment(states, what, grace) && states[0] == first && states[|what|] == last
  }

  /** No step of it is a suspended prune. */
  ghost predicate Unsuspended(what: seq<Action>) { forall a <- what :: !a.SuspendedPrune? }

  lemma Stay(s: State, grace: int) returns (states: seq<State>, what: seq<Action>)
    ensures Leads(states, what, grace, s, s) && what == []
  {
    states, what := [s], [];
  }

  lemma OneMore(states: seq<State>, what: seq<Action>, grace: int, first: State, last: State, a: Action)
    returns (states': seq<State>, what': seq<Action>)
    requires Leads(states, what, grace, first, last) && Enabled(last, a, grace)
    ensures Leads(states', what', grace, first, Do(last, a, grace)) && what' == what + [a]
  {
    states', what' := states + [Do(last, a, grace)], what + [a];
    assert forall i :: 0 <= i <= |what| ==> states'[i] == states[i];
  }

  lemma KeepFilesAre(revision: string, keep: seq<string>)
    ensures KeepFiles(P.KeepWith(revision, keep)) == Files((set r | r in keep) + {revision})
  {
    forall f ensures f in KeepFiles(P.KeepWith(revision, keep)) <==> f in Files((set r | r in keep) + {revision}) {
      if rev :| rev in P.KeepWith(revision, keep) && RevisionFilename(rev) == f {
        assert rev in (set r | r in keep) + {revision};
      }
      if rev :| rev in (set r | r in keep) + {revision} && RevisionFilename(rev) == f {
        assert rev in P.KeepWith(revision, keep);
      }
    }
  }

  /** A Put, its two API writes as far as they come, and what the pointer is then. */
  lemma PutAndPoint(d: Dir, content: Archive.Tarball, pointer: Option<string>, history: seq<RevisionEntry>,
                    revision: string, keep: set<string>, at: Instant, faults: PutFaults, writes: nat, grace: int)
    returns (states: seq<State>, what: seq<Action>)
    requires ValidDigest(revision) && writes <= 2
    ensures var put := Candidates(PutOutcome(d, RevisionFilename(revision), content, at, faults));
      var phase := match writes
        case 0 => Stored(revision, keep + {revision})
        case 1 => Specced(revision, keep + {revision})
        case _ => Pruning(revision, keep + {revision});
      Leads(states, what, grace, State(Candidates(d), pointer, history, Idle),
            State(put, if writes == 2 then Some(revision) else pointer, history, phase)) && Unsuspended(what)
  {
    var f := RevisionFilename(revision);
    DigestFilenameIsCandidate(revision);
    RetentionRuns.PutRefinesRunStep(d, f, content, at, faults);
    var first := State(Candidates(d), pointer, history, Idle);
    var a := Put(revision, keep, at, f !in d || faults.stat || (HasNewer(d, f) && !faults.bump));
    states, what := Stay(first, grace);
    states, what := OneMore(states, what, grace, first, first, a);
    var s := Do(first, a, grace);
    if writes >= 1 {
      states, what := OneMore(states, what, grace, first, s, WriteSpec);
      s := Do(s, WriteSpec, grace);
    }
    if writes == 2 { states, what := OneMore(states, what, grace, first, s, WriteStatus); }
  }

  lemma CandidatesLess(d: Dir, removed: set<string>)
    ensures Candidates(d - removed) == Candidates(d) - removed
  {
  }

  lemma ThenPrune(states: seq<State>, what: seq<Action>, grace: int, first: State, last: State, d: Dir,
                  keep: seq<string>, removed: set<string>, at: Instant, unseen: set<string>, complete: bool)
    returns (states': seq<State>, what': seq<Action>)
    requires Leads(states, what, grace, first, last) && last.store == Candidates(d) && last.phase.Pruning?
    requires last.phase.keep == (set r | r in keep) + {last.phase.rev} && Unsuspended(what)
    requires removed <= Victims(Seen(d, unseen), KeepFiles(P.KeepWith(last.phase.rev, keep)), at, grace)
    ensures Leads(states', what', grace, first,
        last.(store := Candidates(d - removed), phase := if complete then Pruned(last.phase.rev) else last.phase))
    ensures Unsuspended(what')
  {
    KeepFilesAre(last.phase.rev, keep);
    states', what' := OneMore(states, what, grace, first, last, Prune(removed, at, unseen, complete));
    CandidatesLess(d, removed);
  }

  lemma ThenCutShort(states: seq<State>, what: seq<Action>, grace: int, first: State, last: State, put: Dir, d': Dir,
                     keep: seq<string>, at: Instant, unseen: set<string>)
    returns (states': seq<State>, what': seq<Action>)
    requires Leads(states, what, grace, first, last) && last.store == Candidates(put) && last.phase.Pruning?
    requires last.phase.keep == (set r | r in keep) + {last.phase.rev} && Unsuspended(what)
    requires exists stored ::
        SameTarballs(stored, put) && P.PartlyPruned(stored, d', P.KeepWith(last.phase.rev, keep), at, grace, unseen)
    ensures Leads(states', what', grace, first, last.(store := Candidates(d'))) && Unsuspended(what')
  {
    var all := P.KeepWith(last.phase.rev, keep);
    var stored :| SameTarballs(stored, put) && P.PartlyPruned(stored, d', all, at, grace, unseen);
    RetentionRuns.SameTarballsSameCandidates(stored, put);
    var removed :| removed <= Victims(Seen(stored, unseen), KeepFiles(all), at, grace) && d' == stored - removed;
    states', what' := ThenPrune(states, what, grace, first, last, stored, keep, removed, at, unseen, false);
  }

  lemma PublishedIsRun(r: Result<PutResult, P.PublishFault>, d: Dir, d': Dir, p: P.Pointers, p': P.Pointers, key: Key,
                       revision: string, content: Archive.Tarball, keep: seq<string>, putAt: Instant, pruneAt: Instant,
                       grace: int, faults: P.Faults, history: seq<RevisionEntry>)
    returns (states: seq<State>, what: seq<Action>)
    requires ValidDigest(revision) && r.Ok?
    requires P.PublishState(r, d, d', p, p', key, revision, content, keep, putAt, pruneAt, grace, faults)
    ensures Leads(states, what, grace, View(d, p, key, history), View(d', p', key, history).(phase := Pruned(revision)))
    ensures Unsuspended(what)
  {
    var first, put := View(d, p, key, history), PutOutcome(d, RevisionFilename(revision), content, putAt, faults.put);
    var unseen, revs := faults.prune.unseen, set rev | rev in keep;
    states, what := PutAndPoint(d, content, first.pointer, history, revision, revs, putAt, faults.put, 2, grace);
    var removed := Victims(Seen(put, unseen), KeepFiles(P.KeepWith(revision, keep)), pruneAt, grace);
    states, what := ThenPrune(states, what, grace, first, states[|what|], put, keep, removed, pruneAt, unseen, true);
    RetentionRuns.SameTarballsSameCandidates(d', put - removed);
  }

  lemma FailedIsRun(r: Result<PutResult, P.PublishFault>, d: Dir, d': Dir, p: P.Pointers, p': P.Pointers, key: Key,
                    revision: string, content: Archive.Tarball, keep: seq<string>, putAt: Instant, pruneAt: Instant,
                    grace: int, faults: P.Faults, history: seq<RevisionEntry>)
    returns (states: seq<State>, what: seq<Action>)
    requires ValidDigest(revision) && r.Err? && !r.error.PutRun?
    requires P.PublishState(r, d, d', p, p', key, revision, content, keep, putAt, pruneAt, grace, faults)
    ensures Leads(states, what, grace, View(d, p, key, history), View(d', p', key, history)) && Unsuspended(what)
  {
    var first, put := View(d, p, key, history), PutOutcome(d, RevisionFilename(revision), content, putAt, faults.put);
    var writes := if r.error.SpecWrite? then 0 else if r.error.StatusWrite? && faults.status.Lost? then 1 else 2;
    var revs := set rev | rev in keep;
    states, what := PutAndPoint(d, content, first.pointer, history, revision, revs, putAt, faults.put, writes, grace);
    if r.error.PruneRun? {
      states, what := ThenCutShort(states, what, grace, first, states[|what|], put, d', keep, pruneAt,
                                   faults.prune.unseen);
    } else {
      RetentionRuns.SameTarballsSameCandidates(d', put);
    }
    states, what := OneMore(states, what, grace, first, states[|what|], Fail);
  }

  /** Every outcome of a Publish, faults in any of its steps included, is a run of the protocol up to markSynced. */
  lemma PublishIsRun(r: Result<PutResult, P.PublishFault>, d: Dir, d': Dir, p: P.Pointers, p': P.Pointers, key: Key,
                     revision: string, content: Archive.Tarball, keep: seq<string>, putAt: Instant, pruneAt: Instant,
                     grace: int, faults: P.Faults, history: seq<RevisionEntry>)
    returns (states: seq<State>, what: seq<Action>)
    requires ValidDigest(revision)
    requires P.PublishState(r, d, d', p, p', key, revision, content, keep, putAt, pruneAt, grace, faults)
    ensures Leads(states, what, grace, View(d, p, key, history),
        View(d', p', key, history).(phase := if r.Ok? then Pruned(revision) else Idle))
    ensures Unsuspended(what)
  {
    if r.Ok? {
      states, what := PublishedIsRun(r, d, d', p, p', key, revision, content, keep, putAt, pruneAt, grace, faults,
                                     history);
    } else if r.error.PutRun? {
      RetentionRuns.SameTarballsSameCandidates(d, d');
      states, what := Stay(View(d, p, key, history), grace);
    } else {
      states, what := FailedIsRun(r, d, d', p, p', key, revision, content, keep, putAt, pruneAt, grace, faults,
                                  history);
    }
  }

  ghost function Now(rec: R.Reconciler): State
    reads rec, rec.publisher, rec.publisher.store
  {
    View(DirOf(rec.publisher.store.dirs, rec.key), rec.publisher.pointers, rec.key, rec.history)
  }

  lemma ListedFiles(cached: seq<RevisionEntry>)
    ensures KeepFiles(HistoryRevisions(cached)) == Files(Listed(cached))
    ensures HistoryRevisions(cached) != [] ==> Listed(cached) != {}
  {
    if HistoryRevisions(cached) != [] { assert HistoryRevisions(cached)[0] in Listed(cached); }
  }

  lemma DrainIsRun(d: Dir, d': Dir, p: P.Pointers, key: Key, history: seq<RevisionEntry>, cached: seq<RevisionEntry>,
                   at: Instant, grace: int, unseen: set<string>)
    returns (states: seq<State>, what: seq<Action>)
    requires P.PartlyPruned(d, d', HistoryRevisions(cached), at, grace, unseen)
    ensures Leads(states, what, grace, View(d, p, key, history), View(d', p, key, history))
    ensures forall a <- what :: a.SuspendedPrune? && a.listed == Listed(cached)
  {
    var revs, s := HistoryRevisions(cached), View(d, p, key, history);
    var removed :| removed <= Victims(Seen(d, unseen), KeepFiles(revs), at, grace) && (revs == [] ==> removed == {})
                && d' == d - removed;
    states, what := Stay(s, grace);
    if revs == [] {
      assert d - {} == d;
    } else {
      ListedFiles(cached);
      states, what := OneMore(states, what, grace, s, s, SuspendedPrune(Listed(cached), removed, at, unseen));
      CandidatesLess(d, removed);
    }
  }

  ghost function HistoryThen(history: seq<RevisionEntry>, p: R.Pass): seq<RevisionEntry> {
    if p.marking in {R.Patched, R.PatchUnseen} then HistoryAfter(history, p.revision, p.limit, p.now) else history
  }

  lemma MarkIsRun(states: seq<State>, what: seq<Action>, grace: int, first: State, last: State, p: R.Pass, after: State)
    returns (states': seq<State>, what': seq<Action>)
    requires Leads(states, what, grace, first, last) && last.phase == Pruned(p.revision) && Unsuspended(what)
    requires after == State(last.store, last.pointer, HistoryThen(last.history, p), Idle)
    ensures Leads(states', what', grace, first, after) && Unsuspended(what')
  {
    var mark := if p.marking in {R.Patched, R.PatchUnseen} then MarkSynced(p.limit, p.now) else SkipMark;
    states', what' := OneMore(states, what, grace, first, last, mark);
  }

  lemma PassIsRun(r: Result<PutResult, P.PublishFault>, d: Dir, d': Dir, p: P.Pointers, p': P.Pointers, key: Key,
                  history: seq<RevisionEntry>, history': seq<RevisionEntry>, pass: R.Pass, keep: seq<string>,
                  grace: int)
    returns (states: seq<State>, what: seq<Action>)
    requires ValidDigest(pass.revision)
    requires P.PublishState(r, d, d', p, p', key, pass.revision, Archive.SortEntries(pass.entries), keep, pass.putAt,
                            pass.pruneAt, grace, pass.faults)
    requires history' == if r.Ok? then HistoryThen(history, pass) else history
    ensures Leads(states, what, grace, View(d, p, key, history), View(d', p', key, history')) && Unsuspended(what)
  {
    states, what := PublishIsRun(r, d, d', p, p', key, pass.revision, Archive.SortEntries(pass.entries), keep,
                                 pass.putAt, pass.pruneAt, grace, pass.faults, history);
    if r.Ok? {
      states, what := MarkIsRun(states, what, grace, View(d, p, key, history), states[|what|], pass,
                                View(d', p', key, history'));
    }
  }

  /** A reconcile, whatever it meets, is a run of the protocol from what is there before to what is there after; its
      suspended prune is to the list in the cached object. */
  method Reconcile(rec: R.Reconciler, p: R.Pass)
    returns (out: R.Outcome, ghost states: seq<State>, ghost what: seq<Action>)
    requires R.Publishes(p) ==> ValidDigest(p.revision)
    modifies rec`history, rec`revision, rec.publisher`pointers, rec.publisher.store
    ensures Leads(states, what, rec.publisher.grace, old(Now(rec)), Now(rec))
    ensures forall a <- what :: a.SuspendedPrune? ==> p.suspend && a.listed == Listed(p.cached)
  {
    ghost var grace, key := rec.publisher.grace, rec.key;
    ghost var d, pointers, history := DirOf(rec.publisher.store.dirs, key), rec.publisher.pointers, rec.history;
    ghost var keep, published;
    out, keep, published := rec.ReconcileSpec(p);
    ghost var d' := DirOf(rec.publisher.store.dirs, key);
    if p.suspend {
      states, what := DrainIsRun(d, d', pointers, key, history, p.cached, p.pruneAt, grace, p.faults.prune.unseen);
    } else if published.None? {
      states, what := Stay(View(d, pointers, key, history), grace);
    } else {
      states, what := PassIsRun(published.value, d, d', pointers, rec.publisher.pointers, key, history, rec.history, p,
                                keep, grace);
    }
  }

  lemma WithdrawIsRun(d: Dir, d': Dir, p: P.Pointers, p': P.Pointers, key: Key, history: seq<RevisionEntry>, grace: int,
                      ok: bool)
    returns (states: seq<State>, what: seq<Action>)
    requires P.WhatIsLeft(d, d') && p' == p - {key}
    ensures Leads(states, what, grace, View(d, p, key, history), View(d', p', key, history))
  {
    var first, removed := View(d, p, key, history), d.Keys - d'.Keys;
    states, what := Stay(first, grace);
    states, what := OneMore(states, what, grace, first, first, DeleteArtifact);
    states, what := OneMore(states, what, grace, first, states[|what|], DeleteStored(removed, ok));
    assert Candidates(d') == Candidates(d) - removed;
    if !ok { states, what := OneMore(states, what, grace, first, states[|what|], Fail); }
  }

  /** So is a withdrawal, complete or not. */
  method Withdraw(publisher: P.Publisher, key: Key, delete: P.ApiWrite, survivors: set<string>,
                  ghost history: seq<RevisionEntry>)
    returns (ok: bool, ghost states: seq<State>, ghost what: seq<Action>)
    modifies publisher`pointers, publisher.store
    ensures Leads(states, what, publisher.grace,
        old(View(DirOf(publisher.store.dirs, key), publisher.pointers, key, history)),
        View(DirOf(publisher.store.dirs, key), publisher.pointers, key, history))
  {
    ghost var d, p := DirOf(publisher.store.dirs, key), publisher.pointers;
    ok := publisher.Withdraw(key, delete, survivors);
    ghost var d' := DirOf(publisher.store.dirs, key);
    if delete.Lost? {
      states, what := Stay(View(d, p, key, history), publisher.grace);
    } else {
      states, what := WithdrawIsRun(d, d', p, publisher.pointers, key, history, publisher.grace, ok);
    }
  }
}
