/** The grace promise of internal/storage/store.go over whole runs of Puts, Prunes and Deletes on one
    (namespace, name). No single call settles it: a Prune decides from file mtimes alone. */
module RetentionRuns {
  import opened Retention
  import opened Revision
  import opened Strings
  import opened Wrappers
  import Archive
  import ArtifactStore

  /** stamped says whether the Put gave its file a new mtime. A Prune passes over the files in unseen and may stop after
      any of its removals. */
  datatype Op =
    | Put(file: string, at: Instant, stamped: bool)
    | Prune(keep: set<string>, at: Instant, unseen: set<string>, removed: set<string>)
    | Delete(at: Instant)

  function Apply(m: Mtimes, op: Op): Mtimes {
    match op
    case Put(f, at, stamped) => if stamped then m[f := at] else m
    case Prune(_, _, _, removed) => m - removed
    case Delete(_) => map[]
  }

  /** What can happen at all: any stamp may be lost except a fresh write's, and any Stat may fail. */
  ghost predicate Enabled(m: Mtimes, op: Op, grace: int) {
    match op
    case Put(f, _, stamped) => f !in m ==> stamped
    case Prune(keep, at, unseen, removed) => removed <= Victims(m - unseen, keep, at, grace)
    case Delete(_) => true
  }

  /** What happens when nothing fails and the clock moves: a revert is stamped, with a time newer than all others on
      disk, and a Prune sees its files. */
  ghost predicate Sound(m: Mtimes, op: Op) {
    match op
    case Put(f, at, stamped) =>
      (f !in m || !Newest(m, f) ==> stamped) && (stamped ==> forall n <- m.Keys :: n != f ==> m[n] < at)
    case Prune(_, _, unseen, _) => unseen !! m.Keys
    case Delete(_) => true
  }

  /** The mtimes after ops, from m on. */
  function After(m: Mtimes, ops: seq<Op>): Mtimes {
    if ops == [] then m else Apply(After(m, ops[..|ops| - 1]), ops[|ops| - 1])
  }

  function Clock(now: int, ops: seq<Op>): int {
    if ops == [] then now else ops[|ops| - 1].at
  }

  /** Any run from m on, whatever fails, under a clock that never goes back. */
  ghost predicate Run(m: Mtimes, now: int, ops: seq<Op>, grace: int)
    decreases |ops|
  {
    ops == [] ||
    (var init, op := ops[..|ops| - 1], ops[|ops| - 1];
     Run(m, now, init, grace) && Enabled(After(m, init), op, grace) && op.at >= Clock(now, init))
  }

  /** Every step of it is sound. */
  ghost predicate Orderly(m: Mtimes, ops: seq<Op>)
    decreases |ops|
  {
    ops == [] || (Orderly(m, ops[..|ops| - 1]) && Sound(After(m, ops[..|ops| - 1]), ops[|ops| - 1]))
  }

  /** Its Prunes see all their files; its Puts may fail to stamp. */
  ghost predicate ClearSighted(m: Mtimes, ops: seq<Op>)
    decreases |ops|
  {
    ops == [] ||
    (var init, op := ops[..|ops| - 1], ops[|ops| - 1];
     ClearSighted(m, init) && (op.Prune? ==> op.unseen !! After(m, init).Keys))
  }

  /** The first Put of another revision since f's own last Put; d is what it was before ops. */
  function Displaced(d: Option<Instant>, ops: seq<Op>, f: string): Option<Instant> {
    if ops == [] then d
    else
      var init, op := ops[..|ops| - 1], ops[|ops| - 1];
      if !op.Put? then Displaced(d, init, f)
      else if op.file == f then None
      else if Displaced(d, init, f).None? then Some(op.at)
      else Displaced(d, init, f)
  }

  ghost predicate NoPutOf(ops: seq<Op>, f: string) {
    forall i :: 0 <= i < |ops| && ops[i].Put? ==> ops[i].file != f
  }

  /** ops ends in a Prune that takes f less than grace after f's displacement. */
  ghost predicate TakenEarly(d: Option<Instant>, ops: seq<Op>, grace: int, f: string) {
    ops != [] &&
    var init, op := ops[..|ops| - 1], ops[|ops| - 1];
    op.Prune? && f in op.removed && Displaced(d, init, f).Some? && op.at < Displaced(d, init, f).value + grace
  }

  // -- what the mtimes must say -------------------------------------------------

  /** No mtime lies in the future. */
  ghost predicate Timely(m: Mtimes, now: int) { forall n <- m.Keys :: m[n] <= now }

  /** f alone is newest. */
  ghost predicate Top(m: Mtimes, f: string)
    requires f in m
  {
    forall n <- m.Keys :: n != f ==> m[n] < m[f]
  }

  /** The mtimes still spare f, displaced at t, until t + grace. */
  ghost predicate Spared(m: Mtimes, now: int, grace: int, f: string, t: Instant)
    requires f in m
  {
    now >= t + grace || ((forall n <- m.Keys :: m[n] > m[f] ==> m[n] >= t) && (m[f] >= t || !Newest(m, f)))
  }

  /** The mtimes tell that f has not been displaced, or else when. */
  ghost predicate Held(m: Mtimes, now: int, grace: int, f: string, d: Option<Instant>)
    requires f in m
  {
    match d
    case None => Top(m, f)
    case Some(t) => t <= now && Spared(m, now, grace, f, t)
  }

  lemma {:induction false} NewestExists(m: Mtimes) returns (top: string)
    requires m.Keys != {}
    ensures top in m && Newest(m, top)
  {
    top :| top in m;
    var rest := m - {top};
    assert forall n <- m.Keys :: n == top || n in rest.Keys;
    if rest.Keys == {} {
    } else {
      assert rest.Keys < m.Keys;
      var other := NewestExists(rest);
      assert forall n <- rest.Keys :: m[n] <= m[other];
      if m[other] > m[top] { top := other; }
    }
  }

  lemma TimelyAfter(m: Mtimes, now: int, op: Op, grace: int)
    requires Timely(m, now) && op.at >= now
    ensures Timely(Apply(m, op), op.at)
  {
  }

  /** No Prune, however blind, removes the newest file within grace of its stamp. */
  lemma NewestStays(m: Mtimes, op: Op, grace: int, top: string)
    requires op.Prune? && Enabled(m, op, grace) && top in m && Newest(m, top) && op.at < m[top] + grace &&
        m[top] <= op.at
    ensures top !in op.removed
  {
  }

  /** Once displaced, f is spared through anything that follows: Prunes that see nothing, lost stamps and ties
      included. */
  lemma SparedStep(m: Mtimes, now: int, op: Op, grace: int, f: string, t: Instant)
    requires Timely(m, now) && Enabled(m, op, grace) && t <= now <= op.at
    requires f in m && f in Apply(m, op) && Spared(m, now, grace, f, t) && !(op.Put? && op.file == f)
    ensures Spared(Apply(m, op), op.at, grace, f, t)
  {
    if op.at < t + grace && !Newest(m, f) {
      var top := NewestExists(m);
      assert m[top] > m[f] && m[top] >= t;
      if op.Prune? { NewestStays(m, op, grace, top); }
      assert top in Apply(m, op) && Apply(m, op)[top] > m[f];
    }
  }

  /** A sound Put of another file displaces f and gives it its anchor; nothing else displaces it. */
  lemma TopStep(m: Mtimes, op: Op, grace: int, f: string)
    requires Sound(m, op) && f in m && f in Apply(m, op) && Top(m, f) && !(op.Put? && op.file == f)
    ensures if op.Put? then Spared(Apply(m, op), op.at, grace, f, op.at) else Top(Apply(m, op), f)
  {
    if op.Put? {
      assert op.file in m ==> !Newest(m, op.file);
      assert Apply(m, op)[op.file] > m[f];
    }
  }

  /** A Prune within grace of f's displacement takes f exactly when it sees f, none of what is newer, and f is old. */
  ghost predicate BlindTo(m: Mtimes, unseen: set<string>, at: Instant, grace: int, f: string)
    requires f in m
  {
    f !in unseen && at - m[f] >= grace && forall n <- m.Keys :: m[n] > m[f] ==> n in unseen
  }

  lemma BlindIff(m: Mtimes, now: int, grace: int, f: string, t: Instant, keep: set<string>, at: Instant,
                 unseen: set<string>)
    requires f in m && Spared(m, now, grace, f, t) && t <= now <= at < t + grace
    ensures f in Victims(m - unseen, keep, at, grace) <==> f !in keep && BlindTo(m, unseen, at, grace, f)
  {
    var seen := m - unseen;
    assert forall n <- m.Keys :: n in seen.Keys <==> n !in unseen;
    if f !in unseen { assert !SupersededFor(seen, f, at, grace); }
  }

  // -- every continuation --------------------------------------------------------

  lemma TimelyThroughout(m: Mtimes, now: int, ops: seq<Op>, grace: int)
    requires Run(m, now, ops, grace) && Timely(m, now)
    ensures Timely(After(m, ops), Clock(now, ops))
  {
    if ops == [] {
    } else {
      TimelyThroughout(m, now, ops[..|ops| - 1], grace);
    }
  }

  lemma HeldStep(m: Mtimes, now: int, op: Op, grace: int, f: string, d: Option<Instant>)
    requires Timely(m, now) && Enabled(m, op, grace) && op.at >= now && (d.None? ==> Sound(m, op))
    requires f in m && f in Apply(m, op) && Held(m, now, grace, f, d) && !(op.Put? && op.file == f)
    ensures Held(Apply(m, op), op.at, grace, f, if op.Put? && d.None? then Some(op.at) else d)
  {
    match d
    case None => TopStep(m, op, grace, f);
    case Some(t) => SparedStep(m, now, op, grace, f, t);
  }

  lemma {:induction false} HeldAfter(m: Mtimes, now: int, d: Option<Instant>, ops: seq<Op>, grace: int, f: string)
    requires Run(m, now, ops, grace) && Timely(m, now) && f in m && Held(m, now, grace, f, d) && NoPutOf(ops, f)
    requires d.None? ==> Orderly(m, ops)
    ensures f in After(m, ops) ==> Held(After(m, ops), Clock(now, ops), grace, f, Displaced(d, ops, f))
    ensures d.Some? ==> Displaced(d, ops, f) == d
  {
    if ops == [] {
    } else {
      var init, op := ops[..|ops| - 1], ops[|ops| - 1];
      assert NoPutOf(init, f) by { assert forall i :: 0 <= i < |init| ==> init[i] == ops[i]; }
      HeldAfter(m, now, d, init, grace, f);
      TimelyThroughout(m, now, init, grace);
      if f in After(m, ops) { HeldStep(After(m, init), Clock(now, init), op, grace, f, Displaced(d, init, f)); }
    }
  }

  lemma HeldIsNotTaken(m: Mtimes, now: int, d: Option<Instant>, op: Op, grace: int, f: string)
    requires f in m && Held(m, now, grace, f, d) && d.Some? && Enabled(m, op, grace)
    requires op.Prune? && op.unseen !! m.Keys && now <= op.at < d.value + grace
    ensures f !in op.removed
  {
    BlindIff(m, now, grace, f, d.value, op.keep, op.at, op.unseen);
    if BlindTo(m, op.unseen, op.at, grace, f) { assert Newest(m, f); }
  }

  /** A held file is never taken early, provided Prunes see their files and, while it is not displaced, all is sound. */
  lemma HeldKeepsGrace(m: Mtimes, now: int, d: Option<Instant>, ops: seq<Op>, grace: int, f: string)
    requires Run(m, now, ops, grace) && Timely(m, now) && f in m && Held(m, now, grace, f, d) && NoPutOf(ops, f)
    requires if d.None? then Orderly(m, ops) else ClearSighted(m, ops)
    ensures !TakenEarly(d, ops, grace, f)
  {
    if TakenEarly(d, ops, grace, f) {
      var init, op := ops[..|ops| - 1], ops[|ops| - 1];
      assert NoPutOf(init, f) by { assert forall i :: 0 <= i < |init| ==> init[i] == ops[i]; }
      HeldAfter(m, now, d, init, grace, f);
      HeldIsNotTaken(After(m, init), Clock(now, init), Displaced(d, init, f), op, grace, f);
    }
  }

  /** In every sound continuation f keeps its grace once another Put displaces it. */
  ghost predicate KeepsGrace(m: Mtimes, now: int, grace: int, f: string) {
    forall ops :: Run(m, now, ops, grace) && Orderly(m, ops) && NoPutOf(ops, f) ==> !TakenEarly(None, ops, grace, f)
  }

  /** f, displaced just now, keeps its grace in every continuation, whatever becomes of later stamps. */
  ghost predicate StaysSpared(m: Mtimes, now: Instant, grace: int, f: string) {
    forall ops :: Run(m, now, ops, grace) && ClearSighted(m, ops) && NoPutOf(ops, f) ==>
        !TakenEarly(Some(now), ops, grace, f)
  }

  lemma {:induction false} FreshName(names: set<string>) returns (h: string, bound: nat)
    ensures |h| == bound + 1 && h !in names && forall n <- names :: |n| <= bound
  {
    if names == {} {
      h, bound := "x", 0;
    } else {
      var n :| n in names;
      var rest, b := FreshName(names - {n});
      bound := if |n| > b then |n| else b;
      h := seq(bound + 1, _ => 'x');
      assert forall x <- names :: x == n || x in names - {n};
    }
  }

  function Later(a: Instant, b: int): Instant { if b > a then b else a }

  lemma OneStep(m: Mtimes, now: int, op: Op, grace: int)
    requires Enabled(m, op, grace) && op.at >= now
    ensures Run(m, now, [op], grace) && After(m, [op]) == Apply(m, op) && (Sound(m, op) ==> Orderly(m, [op]))
    ensures (op.Prune? ==> op.unseen !! m.Keys) ==> ClearSighted(m, [op])
  {
    var ops := [op];
    assert ops[..|ops| - 1] == [] && ops[|ops| - 1] == op;
    assert Run(m, now, [], grace) && Orderly(m, []) && ClearSighted(m, []) && After(m, []) == m;
  }

  lemma TwoSteps(m: Mtimes, now: int, a: Op, b: Op, grace: int)
    requires Enabled(m, a, grace) && Sound(m, a) && now <= a.at <= b.at
    requires Enabled(Apply(m, a), b, grace) && Sound(Apply(m, a), b)
    ensures Run(m, now, [a, b], grace) && Orderly(m, [a, b])
  {
    OneStep(m, now, a, grace);
    var ops := [a, b];
    assert ops[..|ops| - 1] == [a] && ops[|ops| - 1] == b;
  }

  /** The Prune that takes f from m at the first moment it can, when g has long displaced it. */
  lemma PruneBehind(m: Mtimes, at: Instant, grace: int, f: string, g: string) returns (op: Op)
    requires f in m && g in m && m[g] > m[f] && grace > 0
    ensures op == Prune({}, Later(at, m[g] + grace), {}, {f}) && Enabled(m, op, grace) && Sound(m, op)
  {
    op := Prune({}, Later(at, m[g] + grace), {}, {f});
    assert m - {} == m;
    assert SupersededFor(m, f, op.at, grace);
  }

  lemma PruneNewest(m: Mtimes, at: Instant, grace: int, f: string) returns (op: Op)
    requires f in m && Newest(m, f) && grace > 0
    ensures op == Prune({}, Later(at, m[f] + grace), {}, {f}) && Enabled(m, op, grace) && Sound(m, op)
  {
    op := Prune({}, Later(at, m[f] + grace), {}, {f});
    assert m - {} == m;
  }

  lemma EarlyAfter(a: Op, b: Op, grace: int, f: string)
    requires a.Put? && a.file != f && b.Prune? && f in b.removed && b.at < a.at + grace
    ensures TakenEarly(None, [a, b], grace, f) && NoPutOf([a, b], f)
  {
    assert [a, b][..1] == [a] && [a][..0] == [];
    assert Displaced(None, [a], f) == Some(a.at);
  }

  /** A file that is not strictly newest when its Put returns can be taken early by two sound steps. */
  lemma NotTopLosesGrace(m: Mtimes, now: Instant, grace: int, f: string) returns (ops: seq<Op>)
    requires grace > 0 && Timely(m, now) && f in m && !Top(m, f)
    ensures Run(m, now, ops, grace) && Orderly(m, ops) && NoPutOf(ops, f) && TakenEarly(None, ops, grace, f)
  {
    var a, b;
    if g :| g in m && m[g] > m[f] {
      var h, _ := FreshName(m.Keys);
      a := Put(h, now + 1, true);
      b := PruneBehind(Apply(m, a), a.at, grace, f, g);
    } else {
      var g :| g in m && g != f && m[g] >= m[f];
      a := Put(g, now + 1, false);
      b := PruneNewest(m, a.at, grace, f);
    }
    TwoSteps(m, now, a, b, grace);
    EarlyAfter(a, b, grace, f);
    ops := [a, b];
  }

  lemma NotSparedLosesGrace(m: Mtimes, now: Instant, grace: int, f: string) returns (op: Op)
    requires grace > 0 && Timely(m, now) && f in m && !Spared(m, now, grace, f, now)
    ensures Run(m, now, [op], grace) && ClearSighted(m, [op]) && NoPutOf([op], f) &&
        TakenEarly(Some(now), [op], grace, f)
  {
    if g :| g in m && m[f] < m[g] < now {
      op := PruneBehind(m, now, grace, f, g);
    } else {
      op := PruneNewest(m, now, grace, f);
    }
    OneStep(m, now, op, grace);
    assert [op][..0] == [];
  }

  lemma KeepsGraceIffTop(m: Mtimes, now: Instant, grace: int, f: string)
    requires grace > 0 && Timely(m, now) && f in m
    ensures KeepsGrace(m, now, grace, f) <==> Top(m, f)
  {
    if Top(m, f) {
      forall ops | Run(m, now, ops, grace) && Orderly(m, ops) && NoPutOf(ops, f)
        ensures !TakenEarly(None, ops, grace, f) {
        HeldKeepsGrace(m, now, None, ops, grace, f);
      }
    } else {
      var ops := NotTopLosesGrace(m, now, grace, f);
    }
  }

  lemma StaysSparedIff(m: Mtimes, now: Instant, grace: int, f: string)
    requires grace > 0 && Timely(m, now) && f in m
    ensures StaysSpared(m, now, grace, f) <==> Spared(m, now, grace, f, now)
  {
    if Spared(m, now, grace, f, now) {
      forall ops | Run(m, now, ops, grace) && ClearSighted(m, ops) && NoPutOf(ops, f)
        ensures !TakenEarly(Some(now), ops, grace, f)
      {
        HeldKeepsGrace(m, now, Some(now), ops, grace, f);
      }
    } else {
      var op := NotSparedLosesGrace(m, now, grace, f);
    }
  }

  // -- the exact conditions, read off at the Put -----------------------------------

  /** f keeps its grace in every sound continuation of its own Put iff the Put stamped it and nothing else carries that
      very time, or did not and f was strictly newest as it was. */
  lemma PutKeepsGraceIff(m: Mtimes, f: string, at: Instant, stamped: bool, grace: int)
    requires grace > 0 && Timely(m, at) && Enabled(m, Put(f, at, stamped), grace)
    ensures KeepsGrace(Apply(m, Put(f, at, stamped)), at, grace, f) <==>
        if stamped then forall n <- m.Keys :: n != f ==> m[n] < at else forall n <- m.Keys :: n != f ==> m[n] < m[f]
  {
    var m' := Apply(m, Put(f, at, stamped));
    KeepsGraceIffTop(m', at, grace, f);
    assert m'.Keys == m.Keys + {f};
    assert forall n <- m.Keys :: n != f ==> m'[n] == m[n];
  }

  /** f keeps its grace in every continuation of the Put of h that displaces it iff that Put was stamped and no third
      file was newer than f, files of the same instant aside. */
  lemma DisplacedKeepsGraceIff(m: Mtimes, h: string, at: Instant, stamped: bool, f: string, grace: int)
    requires grace > 0 && Timely(m, at) && Enabled(m, Put(h, at, stamped), grace) && f in m && h != f
    ensures StaysSpared(Apply(m, Put(h, at, stamped)), at, grace, f) <==>
        (forall n <- m.Keys :: m[n] > m[f] ==> m[n] == at || (stamped && n == h))
        && (stamped || m[f] == at || !Newest(m, f))
  {
    var m' := Apply(m, Put(h, at, stamped));
    StaysSparedIff(m', at, grace, f);
    assert stamped ==> h in m' && m'[h] == at;
  }

  /** Under a clock that moves, a revert of f keeps f's grace, and that of the file it displaces, iff its stamp
      landed. */
  lemma RevertKeepsGraceIff(m: Mtimes, f: string, g: string, at: Instant, stamped: bool, grace: int)
    requires grace > 0 && f in m && g in m && m[f] < m[g] && Newest(m, g) && forall n <- m.Keys :: m[n] < at
    ensures KeepsGrace(Apply(m, Put(f, at, stamped)), at, grace, f) <==> stamped
    ensures StaysSpared(Apply(m, Put(f, at, stamped)), at, grace, g) <==> stamped
  {
    PutKeepsGraceIff(m, f, at, stamped, grace);
    DisplacedKeepsGraceIff(m, f, at, stamped, g, grace);
  }

  /** Ties: of two newest files with one mtime, the one put again later goes unstamped, and the other loses its
      grace. */
  lemma TiesBreakGrace(m: Mtimes, f: string, g: string, at: Instant, grace: int)
    requires grace > 0 && f in m && g in m && f != g && m[f] == m[g] < at && Newest(m, f) && Timely(m, at)
    ensures Sound(m, Put(f, at, false)) && !StaysSpared(Apply(m, Put(f, at, false)), at, grace, g)
    ensures !KeepsGrace(Apply(m, Put(f, at, false)), at, grace, f)
  {
    PutKeepsGraceIff(m, f, at, false, grace);
    DisplacedKeepsGraceIff(m, f, at, false, g, grace);
  }

  // -- whole runs ------------------------------------------------------------------

  /** What the mtimes on disk still say about who displaced whom. */
  ghost predicate Faithful(m: Mtimes, now: int, ops: seq<Op>, grace: int) {
    && Timely(m, now)
    && (forall f, g | f in m && g in m && f != g :: m[f] != m[g])
    && forall f <- m.Keys :: Held(m, now, grace, f, Displaced(None, ops, f))
  }

  lemma FaithfulStep(m: Mtimes, now: int, ops: seq<Op>, op: Op, grace: int)
    requires Faithful(m, now, ops, grace) && Enabled(m, op, grace) && Sound(m, op) && op.at >= now
    ensures Faithful(Apply(m, op), op.at, ops + [op], grace)
  {
    var m', ops' := Apply(m, op), ops + [op];
    assert ops'[..|ops|] == ops;
    forall f | f in m' ensures Held(m', op.at, grace, f, Displaced(None, ops', f)) {
      if op.Put? && op.file == f {
        assert Displaced(None, ops', f) == None;
      } else {
        HeldStep(m, now, op, grace, f, Displaced(None, ops, f));
      }
    }
  }

  /** In a sound run the mtimes always tell who displaced whom, even after displacers are pruned. */
  lemma {:induction false} RunIsFaithful(ops: seq<Op>, grace: int)
    requires Run(map[], 0, ops, grace) && Orderly(map[], ops)
    ensures Faithful(After(map[], ops), Clock(0, ops), ops, grace)
  {
    if ops == [] {
    } else {
      var init, op := ops[..|ops| - 1], ops[|ops| - 1];
      RunIsFaithful(init, grace);
      FaithfulStep(After(map[], init), Clock(0, init), init, op, grace);
      assert ops == init + [op];
    }
  }

  lemma {:induction false} RunPrefix(ops: seq<Op>, n: nat, grace: int)
    requires Run(map[], 0, ops, grace) && n <= |ops|
    ensures Run(map[], 0, ops[..n], grace) && (Orderly(map[], ops) ==> Orderly(map[], ops[..n]))
    ensures n < |ops| ==> Enabled(After(map[], ops[..n]), ops[n], grace) && ops[n].at >= Clock(0, ops[..n])
    ensures n < |ops| && Orderly(map[], ops) ==> Sound(After(map[], ops[..n]), ops[n])
  {
    if n < |ops| {
      var init := ops[..|ops| - 1];
      RunPrefix(init, n, grace);
      assert ops[..n] == init[..n];
    } else {
      assert ops[..n] == ops;
    }
  }

  lemma {:induction false} NotYetDisplaced(ops: seq<Op>, f: string, j: nat)
    requires j < |ops| && ops[j].Put? && ops[j].file == f
    requires forall x :: j < x < |ops| ==> !ops[x].Put?
    ensures Displaced(None, ops, f) == None
  {
    if j == |ops| - 1 {
    } else {
      NotYetDisplaced(ops[..|ops| - 1], f, j);
    }
  }

  /** Displaced is what its name says: the first Put of another file after the last Put of f. */
  lemma {:induction false} DisplacedIsFirst(ops: seq<Op>, f: string, j: nat, k: nat)
    requires j < k < |ops|
    requires ops[j].Put? && ops[j].file == f
    requires forall x :: j < x < |ops| && ops[x].Put? ==> ops[x].file != f
    requires ops[k].Put? && forall x :: j < x < k ==> !ops[x].Put?
    ensures Displaced(None, ops, f) == Some(ops[k].at)
    decreases |ops|
  {
    var init := ops[..|ops| - 1];
    if k < |ops| - 1 {
      DisplacedIsFirst(init, f, j, k);
    } else {
      NotYetDisplaced(init, f, j);
    }
  }

  /** f was last put at j, first displaced at k, and is removed by the Prune at i. */
  ghost predicate Removal(ops: seq<Op>, f: string, j: nat, k: nat, i: nat) {
    && j < k < i < |ops| && ops[j].Put? && ops[j].file == f
    && (forall x :: j < x < i && ops[x].Put? ==> ops[x].file != f)
    && ops[k].Put? && (forall x :: j < x < k ==> !ops[x].Put?)
    && ops[i].Prune? && f in ops[i].removed
  }

  /** The promise. In any sound run, a Prune at i that removes f runs at least grace after k, the first Put of another
      revision since f's own last Put at j. */
  lemma PruneHonoursGrace(ops: seq<Op>, grace: int, f: string, j: nat, k: nat, i: nat)
    requires Run(map[], 0, ops, grace) && Orderly(map[], ops) && Removal(ops, f, j, k, i)
    ensures ops[i].at - ops[k].at >= grace
  {
    RunPrefix(ops, i, grace);
    var before := ops[..i];
    RunIsFaithful(before, grace);
    DisplacedIsFirst(before, f, j, k);
    if ops[i].at - ops[k].at < grace {
      HeldIsNotTaken(After(map[], before), Clock(0, before), Some(ops[k].at), ops[i], grace, f);
    }
  }

  lemma ClockAt(ops: seq<Op>, k: nat)
    requires k < |ops|
    ensures Clock(0, ops[..k + 1]) == ops[k].at
  {
  }

  lemma {:induction false} ClockMonotone(ops: seq<Op>, grace: int, k: nat, i: nat)
    requires Run(map[], 0, ops, grace) && k <= i < |ops|
    ensures ops[k].at <= ops[i].at
  {
    if k == i {
    } else {
      RunPrefix(ops, i, grace);
      ClockMonotone(ops, grace, k, i - 1);
    }
  }

  /** While f is not put again it is on disk only if it was before, and once spared it stays so. */
  lemma {:induction false} SparedThrough(ops: seq<Op>, grace: int, f: string, k: nat, i: nat)
    requires Run(map[], 0, ops, grace) && k < i <= |ops| && f in After(map[], ops[..i])
    requires forall x :: k < x < i && ops[x].Put? ==> ops[x].file != f
    ensures f in After(map[], ops[..k + 1])
    ensures Spared(After(map[], ops[..k + 1]), ops[k].at, grace, f, ops[k].at) ==>
        Held(After(map[], ops[..i]), Clock(0, ops[..i]), grace, f, Some(ops[k].at))
  {
    if i == k + 1 {
    } else {
      var init := ops[..i - 1];
      assert ops[..i][..i - 1] == init && ops[..i][i - 1] == ops[i - 1];
      SparedThrough(ops, grace, f, k, i - 1);
      RunPrefix(ops, i - 1, grace);
      TimelyThroughout(map[], 0, init, grace);
      if Spared(After(map[], ops[..k + 1]), ops[k].at, grace, f, ops[k].at) {
        SparedStep(After(map[], init), Clock(0, init), ops[i - 1], grace, f, ops[k].at);
      }
    }
  }

  /** A failing Stat, exactly: where the displacing Put at k did give f its anchor, a Prune within grace of it may take
      f iff it sees f, nothing newer, and f is old. */
  lemma UnseenBreaksGrace(ops: seq<Op>, grace: int, f: string, k: nat, i: nat)
    requires Run(map[], 0, ops, grace) && k < i < |ops| && ops[k].Put? && ops[i].Prune? && f in After(map[], ops[..i])
    requires forall x :: k < x < i && ops[x].Put? ==> ops[x].file != f
    requires ops[i].at - ops[k].at < grace
    ensures f in After(map[], ops[..k + 1])
    ensures StaysSpared(After(map[], ops[..k + 1]), ops[k].at, grace, f) ==>
        var m := After(map[], ops[..i]);
        f in Victims(m - ops[i].unseen, ops[i].keep, ops[i].at, grace) <==>
        f !in ops[i].keep && BlindTo(m, ops[i].unseen, ops[i].at, grace, f)
  {
    RunPrefix(ops, i, grace);
    RunPrefix(ops, k + 1, grace);
    ClockAt(ops, k);
    TimelyThroughout(map[], 0, ops[..k + 1], grace);
    SparedThrough(ops, grace, f, k, i);
    ClockMonotone(ops, grace, k, i);
    StaysSparedIff(After(map[], ops[..k + 1]), ops[k].at, grace, f);
    if StaysSpared(After(map[], ops[..k + 1]), ops[k].at, grace, f) {
      BlindIff(After(map[], ops[..i]), Clock(0, ops[..i]), grace, f, ops[k].at, ops[i].keep, ops[i].at, ops[i].unseen);
    }
  }

  /** In any run at all, with stamps lost, ties and Stats failing anywhere: if a Prune takes f early, then either the
      Put that displaced f gave it no anchor, or that Prune was blind to all that is newer. Both conditions are exact,
      by DisplacedKeepsGraceIff and UnseenBreaksGrace. */
  lemma EarlyLossExplained(ops: seq<Op>, grace: int, f: string, j: nat, k: nat, i: nat)
    requires Run(map[], 0, ops, grace) && Removal(ops, f, j, k, i) && ops[i].at - ops[k].at < grace
    ensures f in After(map[], ops[..k + 1]) && f in After(map[], ops[..i])
    ensures !StaysSpared(After(map[], ops[..k + 1]), ops[k].at, grace, f)
         || BlindTo(After(map[], ops[..i]), ops[i].unseen, ops[i].at, grace, f)
  {
    RunPrefix(ops, i, grace);
    UnseenBreaksGrace(ops, grace, f, k, i);
  }

  // -- the store's directories follow these runs -------------------------------

  lemma CandidatesOfUpdate(d: Dir, f: string, file: File)
    requires IsCandidateName(f)
    ensures Candidates(d[f := file]) == Candidates(d)[f := file.mtime]
  {
  }

  lemma CandidateIsTarball(n: string)
    requires IsCandidateName(n)
    ensures HasSuffix(n, TARBALL)
  {
    if HasSuffix(n, TEMPORARY) { SuffixOfSuffix(n, TEMPORARY, ".tmp"); }
  }

  lemma NewerCandidateIsNewer(d: Dir, f: string)
    requires f in Candidates(d) && !Newest(Candidates(d), f)
    ensures HasNewer(d, f)
  {
    var n :| n in Candidates(d) && Candidates(d)[n] > Candidates(d)[f];
    CandidateIsTarball(n);
  }

  /** Every Put on a real directory, whatever fails and whatever foreign files sit beside ours, is a Put of these runs;
      and it stamps as a sound one must unless a revert's own bump fails. */
  lemma PutRefinesRunStep(d: Dir, f: string, content: Archive.Tarball, now: Instant, faults: ArtifactStore.PutFaults)
    requires IsCandidateName(f)
    ensures var op := Put(f, now, f !in d || faults.stat || (HasNewer(d, f) && !faults.bump));
      && Enabled(Candidates(d), op, 0)
      && Candidates(ArtifactStore.PutOutcome(d, f, content, now, faults)) == Apply(Candidates(d), op)
      && (!faults.bump || faults.stat || f !in d || !HasNewer(d, f) ==>
          (f !in Candidates(d) || !Newest(Candidates(d), f) ==> op.stamped))
  {
    if f in d && !faults.stat {
      if !Newest(Candidates(d), f) { NewerCandidateIsNewer(d, f); }
      CandidatesOfUpdate(d, f, File(now, d[f].content));
    } else {
      CandidatesOfUpdate(d, f, File(now, content));
    }
  }

  lemma SameTarballsSameCandidates(a: Dir, b: Dir)
    requires ArtifactStore.SameTarballs(a, b)
    ensures Candidates(a) == Candidates(b)
  {
    forall n | n in a || n in b ensures n in Candidates(a) <==> n in Candidates(b) {
      if IsCandidateName(n) { assert n in a && n in b; }
    }
  }

  /** Every Prune of the store, blind to some files or cut short, is a Prune of these runs. */
  lemma PruneRefinesRunStep(d: Dir, keep: set<string>, now: Instant, grace: int, unseen: set<string>,
                            removed: set<string>)
    requires removed <= Victims(ArtifactStore.Seen(d, unseen), keep, now, grace)
    ensures var op := Prune(keep, now, unseen, removed);
            Enabled(Candidates(d), op, grace) && Candidates(d - removed) == Apply(Candidates(d), op)
  {
  }
}
