/** The publication protocol of one snippet: Put, ExternalArtifact spec write, status write, Prune, then
    markSynced; with the suspended prune and the withdrawal. Each effect is a step and any of them can fail.
    A snippet's reconciles never overlap (the work queue hands out one key at a time). */
module Publication {
  import opened History
  import opened Retention
  import opened Revision
  import opened Wrappers

  datatype Phase =
    | Idle
    | Stored(rev: string, keep: set<string>)
    | Specced(rev: string, keep: set<string>)
    | Pruning(rev: string, keep: set<string>)
    | Pruned(rev: string)
    | Withdrawing

  /** pointer is the revision in the ExternalArtifact's status.artifact. */
  datatype State = State(store: Mtimes, pointer: Option<string>, history: seq<RevisionEntry>, phase: Phase)

  datatype Action =
    | Put(rev: string, keepRevs: set<string>, at: Instant, stamped: bool)
    | WriteSpec
    | WriteStatus
    | Prune(removed: set<string>, at: Instant, unseen: set<string>, complete: bool)
    | Fail
    | MarkSynced(limit: int, now: int)
    | SkipMark
    | SuspendedPrune(listed: set<string>, removed: set<string>, at: Instant, unseen: set<string>)
    | DeleteArtifact
    | DeleteStored(removed: set<string>, complete: bool)
    | Sweep

  const START := State(map[], None, [], Idle)

  function Files(revs: set<string>): set<string> { set r <- revs :: RevisionFilename(r) }

  function Listed(history: seq<RevisionEntry>): set<string> { set r | r in HistoryRevisions(history) }

  ghost predicate Enabled(s: State, a: Action, grace: int) {
    match a
    case Put(rev, _, _, stamped) =>
      s.phase.Idle? && (RevisionFilename(rev) !in s.store ==> stamped)
    case WriteSpec => s.phase.Stored?
    case WriteStatus => s.phase.Specced?
    case Prune(removed, at, unseen, complete) =>
      s.phase.Pruning? && removed <= Victims(s.store - unseen, Files(s.phase.keep), at, grace)
    case Fail => !s.phase.Idle?
    case MarkSynced(_, _) => s.phase.Pruned?
    case SkipMark => s.phase.Pruned?
    case SuspendedPrune(listed, removed, at, unseen) =>
      s.phase.Idle? && listed != {} && removed <= Victims(s.store - unseen, Files(listed), at, grace)
    case DeleteArtifact => s.phase.Idle?
    case DeleteStored(_, _) => s.phase.Withdrawing?
    case Sweep => true
  }

  function Do(s: State, a: Action, grace: int): State
    requires Enabled(s, a, grace)
  {
    match a
    case Put(rev, keepRevs, at, stamped) =>
      s.(store := if stamped then s.store[RevisionFilename(rev) := at] else s.store,
         phase := Stored(rev, keepRevs + {rev}))
    case WriteSpec => s.(phase := Specced(s.phase.rev, s.phase.keep))
    case WriteStatus => s.(phase := Pruning(s.phase.rev, s.phase.keep), pointer := Some(s.phase.rev))
    case Prune(removed, _, _, complete) =>
      s.(store := s.store - removed, phase := if complete then Pruned(s.phase.rev) else s.phase)
    case Fail => s.(phase := Idle)
    case MarkSynced(limit, at) => s.(history := HistoryAfter(s.history, s.phase.rev, limit, at), phase := Idle)
    case SkipMark => s.(phase := Idle)
    case SuspendedPrune(_, removed, _, _) => s.(store := s.store - removed)
    case DeleteArtifact => s.(pointer := None, phase := Withdrawing)
    case DeleteStored(removed, complete) =>
      s.(store := s.store - removed, phase := if complete then Idle else s.phase)
    case Sweep => s
  }

  /** A consumer that reads the pointer can fetch what it names. */
  ghost predicate Fetchable(s: State) {
    s.pointer.Some? ==> RevisionFilename(s.pointer.value) in s.store
  }

  ghost predicate Inv(s: State) {
    && Fetchable(s)
    && (s.phase.Stored? || s.phase.Specced? || s.phase.Pruning? ==> s.phase.rev in s.phase.keep)
    && (s.phase.Stored? || s.phase.Specced? ==> RevisionFilename(s.phase.rev) in s.store)
    && (s.phase.Pruning? || s.phase.Pruned? ==> s.pointer == Some(s.phase.rev))
    && (s.phase.Withdrawing? ==> s.pointer.None?)
  }

  /** The hypothesis only the suspended prune needs, of the revisions listed by the object it has cached. */
  ghost predicate PointerListed(s: State, listed: set<string>) {
    s.pointer.Some? ==> RevisionFilename(s.pointer.value) in Files(listed)
  }

  lemma InvStep(s: State, a: Action, grace: int)
    requires Inv(s) && Enabled(s, a, grace)
    requires a.SuspendedPrune? ==> PointerListed(s, a.listed)
    ensures Inv(Do(s, a, grace))
  {
    if a.Prune? {
      assert RevisionFilename(s.phase.rev) in Files(s.phase.keep);
    }
  }

  ghost predicate Segment(states: seq<State>, what: seq<Action>, grace: int) {
    && |states| == |what| + 1
    && forall i :: 0 <= i < |what| ==>
        Enabled(states[i], what[i], grace) && states[i + 1] == Do(states[i], what[i], grace)
  }

  ghost predicate Run(states: seq<State>, what: seq<Action>, grace: int) {
    Segment(states, what, grace) && states[0] == START
  }

  /** In every state of every run, whatever failed on the way, the published revision can be fetched,
      provided the list each suspended prune worked from held the pointer. */
  lemma {:induction false} PointerAlwaysFetchable(states: seq<State>, what: seq<Action>, grace: int, n: nat)
    requires Run(states, what, grace) && n < |states|
    requires forall i :: 0 <= i < n && what[i].SuspendedPrune? ==> PointerListed(states[i], what[i].listed)
    ensures Inv(states[n])
  {
    if n == 0 {
    } else {
      PointerAlwaysFetchable(states, what, grace, n - 1);
      InvStep(states[n - 1], what[n - 1], grace);
    }
  }

  lemma {:induction false} LateEnough(m: Mtimes, grace: int) returns (at: Instant)
    ensures forall f <- m.Keys :: at - m[f] >= grace
  {
    if m.Keys == {} {
      at := 1;
    } else {
      var f :| f in m;
      var rest := m - {f};
      assert rest.Keys < m.Keys;
      var t := LateEnough(rest, grace);
      at := if t - m[f] >= grace then t else m[f] + grace;
      forall g | g in m ensures at - m[g] >= grace {
        assert g == f || g in rest.Keys;
      }
    }
  }

  /** The hypothesis is exact: a suspended prune to this list is safe at every later time iff it holds the pointer. */
  lemma SuspendedPruneSafeIff(s: State, listed: set<string>, grace: int)
    requires s.phase.Idle? && listed != {} && Fetchable(s)
    ensures PointerListed(s, listed) <==>
            forall at: Instant, removed, unseen: set<string> ::
                Enabled(s, SuspendedPrune(listed, removed, at, unseen), grace) ==>
                Fetchable(Do(s, SuspendedPrune(listed, removed, at, unseen), grace))
  {
    if !PointerListed(s, listed) {
      var f := RevisionFilename(s.pointer.value);
      var at := LateEnough(s.store, grace);
      assert Victim(s.store, Files(listed), at, grace, f) by {
        if !Newest(s.store, f) { assert SupersededFor(s.store, f, at, grace); }
      }
      var a := SuspendedPrune(listed, {f}, at, {});
      assert s.store - {} == s.store;
      assert Enabled(s, a, grace) && !Fetchable(Do(s, a, grace));
    }
  }

  // -- how the hypothesis fails --------------------------------------------------

  /** One whole publish of r over a store that lacks it; last is what markSynced does. */
  function PublishActions(r: string, keep: set<string>, at: Instant, last: Action): seq<Action> {
    [Put(r, keep, at, true), WriteSpec, WriteStatus, Prune({}, at, {}, true), last]
  }

  lemma PublishSteps(s: State, r: string, keep: set<string>, at: Instant, last: Action, grace: int)
    returns (states: seq<State>)
    requires s.phase.Idle? && RevisionFilename(r) !in s.store && (last.MarkSynced? || last.SkipMark?)
    ensures Segment(states, PublishActions(r, keep, at, last), grace) && states[0] == s
    ensures var history := if last.SkipMark? then s.history else HistoryAfter(s.history, r, last.limit, last.now);
            states[5] == State(s.store[RevisionFilename(r) := at], Some(r), history, Idle)
  {
    var s1 := State(s.store[RevisionFilename(r) := at], s.pointer, s.history, Stored(r, keep + {r}));
    var s2 := s1.(phase := Specced(r, keep + {r}));
    var s3 := s2.(phase := Pruning(r, keep + {r}), pointer := Some(r));
    var s4 := s3.(phase := Pruned(r));
    assert s3.store - {} == s3.store;
    states := [s, s1, s2, s3, s4, Do(s4, last, grace)];
  }

  lemma UnlistedPointerIsLost(s: State, listed: set<string>, grace: int) returns (last: Action)
    requires s.phase.Idle? && listed != {} && Fetchable(s) && !PointerListed(s, listed)
    ensures last.SuspendedPrune? && last.listed == listed && Enabled(s, last, grace) && !Fetchable(Do(s, last, grace))
  {
    SuspendedPruneSafeIff(s, listed, grace);
    var at: Instant, removed, unseen: set<string> :| Enabled(s, SuspendedPrune(listed, removed, at, unseen), grace) &&
      !Fetchable(Do(s, SuspendedPrune(listed, removed, at, unseen), grace));
    last := SuspendedPrune(listed, removed, at, unseen);
  }

  lemma OnlyListed(r: string)
    requires r != ""
    ensures Listed(HistoryAfter([], r, 1, 1)) == {r} && Files({r}) == {RevisionFilename(r)}
  {
    assert HistoryAfter([], r, 1, 1) == [RevisionEntry(r, 1)];
  }

  lemma Join(s1: seq<State>, w1: seq<Action>, s2: seq<State>, w2: seq<Action>, grace: int)
    requires Segment(s1, w1, grace) && Segment(s2, w2, grace) && s1[|w1|] == s2[0]
    ensures Segment(s1 + s2[1..], w1 + w2, grace)
  {
    var s, w := s1 + s2[1..], w1 + w2;
    forall i | 0 <= i < |w| ensures Enabled(s[i], w[i], grace) && s[i + 1] == Do(s[i], w[i], grace) {
      if i < |w1| {
        assert s[i] == s1[i] && s[i + 1] == s1[i + 1] && w[i] == w1[i];
      } else {
        assert s[i] == s2[i - |w1|] && s[i + 1] == s2[i - |w1| + 1] && w[i] == w2[i - |w1|];
      }
    }
  }

  /** A complete publish of r1, a publish of r2 that ends in last, then a suspended prune to what was listed after the
      first: the artifact pointed at is gone once the grace window has passed. */
  lemma OldListLosesArtifact(r1: string, r2: string, last: Action, grace: int)
    returns (states: seq<State>, what: seq<Action>)
    requires r1 != "" && RevisionFilename(r1) != RevisionFilename(r2) && (last.MarkSynced? || last.SkipMark?)
    ensures Run(states, what, grace) && |what| == 11 && what[9] == last && what[10].SuspendedPrune?
    ensures what[10].listed == Listed(states[5].history)
    ensures last.SkipMark? ==> states[10].history == states[5].history
    ensures Fetchable(states[10]) && !Fetchable(states[11])
  {
    var w1, w2 := PublishActions(r1, {}, 1, MarkSynced(1, 1)), PublishActions(r2, {r1}, 3, last);
    var first := PublishSteps(START, r1, {}, 1, MarkSynced(1, 1), grace);
    var second := PublishSteps(first[5], r2, {r1}, 3, last, grace);
    OnlyListed(r1);
    var prune := UnlistedPointerIsLost(second[5], {r1}, grace);
    var third := [second[5], Do(second[5], prune, grace)];
    Join(first, w1, second, w2, grace);
    Join(first + second[1..], w1 + w2, third, [prune], grace);
    states, what := first + second[1..] + third[1..], w1 + w2 + [prune];
    assert states[5] == first[5] && states[10] == second[5] && states[11] == third[1];
  }

  /** The stored list itself may be the old one: markSynced returned early. */
  lemma SkippedMarkThenSuspendLosesArtifact(r1: string, r2: string, grace: int)
    requires r1 != "" && RevisionFilename(r1) != RevisionFilename(r2)
    ensures exists states: seq<State>, what: seq<Action> ::
              && Run(states, what, grace) && |what| == 11 && what[9].SkipMark? && what[10].SuspendedPrune?
              && what[10].listed == Listed(states[10].history) && Fetchable(states[10]) && !Fetchable(states[11])
  {
    var states, what := OldListLosesArtifact(r1, r2, SkipMark, grace);
  }

  /** Or it is current, and the cached object lags behind it. */
  lemma LaggingCacheThenSuspendLosesArtifact(r1: string, r2: string, limit: int, now: int, grace: int)
    requires r1 != "" && RevisionFilename(r1) != RevisionFilename(r2)
    ensures exists states: seq<State>, what: seq<Action> ::
              && Run(states, what, grace) && |what| == 11 && what[9] == MarkSynced(limit, now) &&
                  what[10].SuspendedPrune?
              && what[10].listed == Listed(states[5].history) && Fetchable(states[10]) && !Fetchable(states[11])
  {
    var states, what := OldListLosesArtifact(r1, r2, MarkSynced(limit, now), grace);
  }

  // -- reconciles that complete markSynced, in rendered mode ----------------------

  /** One completed rendered-mode reconcile, or a suspended prune between two of them. */
  datatype Pass =
    | Reconcile(
        rev: string, limit: int, keep: seq<string>, at: Instant, stamped: bool, removed: set<string>,
        unseen: set<string>)
    | Suspended(listed: set<string>, at: Instant, removed: set<string>, unseen: set<string>)

  /** revision is status.revision. */
  datatype Book = Book(store: Mtimes, history: seq<RevisionEntry>, revision: string)

  ghost predicate Passable(b: Book, p: Pass, grace: int) {
    match p
    case Reconcile(rev, limit, keep, at, stamped, removed, unseen) =>
      var f := RevisionFilename(rev);
      && rev != "" && KeepSpec(keep, rev, b.history, Limit(limit))
      && (f !in b.store ==> stamped)
      && var store := if stamped then b.store[f := at] else b.store;
         removed <= Victims(store - unseen, Files((set r | r in keep) + {rev}), at, grace)
    case Suspended(listed, at, removed, unseen) =>
      listed != {} && removed <= Victims(b.store - unseen, Files(listed), at, grace)
  }

  function PassOver(b: Book, p: Pass): Book {
    match p
    case Reconcile(rev, limit, _, at, stamped, removed, _) =>
      Book((if stamped then b.store[RevisionFilename(rev) := at] else b.store) - removed,
           HistoryAfter(b.history, rev, limit, at), rev)
    case Suspended(_, _, removed, _) => b.(store := b.store - removed)
  }

  /** Every listed revision has its tarball, the head is status.revision, and neighbours differ. */
  ghost predicate BookInv(b: Book) {
    && (forall r <- Listed(b.history) :: RevisionFilename(r) in b.store)
    && (b.history != [] ==> b.history[0].revision == b.revision)
    && AdjacentDistinct(b.history)
  }

  /** The list a suspended prune works from holds all that the stored history lists. */
  ghost predicate ListIsCurrent(b: Book, p: Pass) { p.Suspended? ==> Listed(b.history) <= p.listed }

  lemma PassKeepsBook(b: Book, p: Pass, grace: int)
    requires BookInv(b) && Passable(b, p, grace) && ListIsCurrent(b, p)
    ensures BookInv(PassOver(b, p))
    ensures p.Reconcile? ==> |PassOver(b, p).history| <= Limit(p.limit)
  {
    match p
    case Reconcile(rev, limit, keep, at, stamped, removed, _) =>
      AdjacentStayDistinct(b.history, rev, limit, at);
      RenderedKeepCoversHistory(keep, b.history, rev, limit, at);
      var h := HistoryAfter(b.history, rev, limit, at);
      forall r | r in Listed(h) ensures RevisionFilename(r) in PassOver(b, p).store {
        assert r in (set x | x in keep) + {rev};
        assert RevisionFilename(r) in Files((set x | x in keep) + {rev});
        if r != rev {
          var i := ListedFrom(b.history, rev, limit, at, r);
          assert r in Listed(b.history);
        }
      }
    case Suspended(listed, _, _, _) =>
      forall r | r in Listed(b.history) ensures RevisionFilename(r) in PassOver(b, p).store {
        assert RevisionFilename(r) in Files(listed);
      }
  }

  ghost predicate Passes(books: seq<Book>, passes: seq<Pass>, grace: int) {
    && |books| == |passes| + 1 && books[0] == Book(map[], [], "")
    && forall i :: 0 <= i < |passes| ==>
        Passable(books[i], passes[i], grace) && books[i + 1] == PassOver(books[i], passes[i])
  }

  /** Over any number of such reconciles, with limits changing freely between them. */
  lemma {:induction false} ListedRevisionsStayStored(books: seq<Book>, passes: seq<Pass>, grace: int, n: nat)
    requires Passes(books, passes, grace) && n < |books|
    requires forall i :: 0 <= i < n ==> ListIsCurrent(books[i], passes[i])
    ensures BookInv(books[n])
    ensures n > 0 && passes[n - 1].Reconcile? ==>
              0 < |books[n].history| <= Limit(passes[n - 1].limit) && books[n].history[0].revision == passes[n - 1].rev
  {
    if n == 0 {
    } else {
      ListedRevisionsStayStored(books, passes, grace, n - 1);
      PassKeepsBook(books[n - 1], passes[n - 1], grace);
    }
  }
}
