/** The grace-window prune of internal/storage/store.go on one (namespace, name) directory. */
module Retention {
  import opened Strings
  import opened Revision
  import Archive

  /** Instants count from Go's zero time.Time, which itself stands for "no instant". */
  type Instant = t: int | 0 < t witness 1
  const NO_INSTANT: int := 0

  datatype File = File(mtime: Instant, content: Archive.Tarball)

  type Dir = map<string, File>

  datatype Candidate = Candidate(name: string, mtime: Instant)

  // -- what a Put does to a directory ----------------------------------------

  predicate IsNewer(n: string, f: string, mtime: Instant, since: Instant) {
    n != f && HasSuffix(n, TARBALL) && mtime > since
  }

  /** Another tarball in d is strictly newer than f: publishing f would be a revert. */
  predicate HasNewer(d: Dir, f: string)
    requires f in d
  {
    exists n <- d.Keys :: IsNewer(n, f, d[n].mtime, d[f].mtime)
  }

  /** Fresh write, steady republish (untouched) or revert (re-stamped). */
  function PutDir(d: Dir, f: string, content: Archive.Tarball, now: Instant): Dir {
    if f !in d then d[f := File(now, content)]
    else if HasNewer(d, f) then d[f := File(now, d[f].content)]
    else d
  }

  /** The artifacts a Prune considers, by name. */
  type Mtimes = map<string, Instant>

  function Candidates(d: Dir): Mtimes {
    map n | n in d && IsCandidateName(n) :: d[n].mtime
  }

  /** An artifact newer than f has been there for grace. */
  ghost predicate SupersededFor(m: Mtimes, f: string, now: Instant, grace: int)
    requires f in m
  {
    exists n <- m.Keys :: m[n] > m[f] && now - m[n] >= grace
  }

  ghost predicate Newest(m: Mtimes, f: string)
    requires f in m
  {
    forall n <- m.Keys :: m[n] <= m[f]
  }

  /** What Prune may remove: an unkept artifact that a newer one displaced at least grace ago,
      or that nothing displaced and is itself at least grace old. */
  ghost predicate Victim(m: Mtimes, keep: set<string>, now: Instant, grace: int, f: string) {
    && f in m && f !in keep
    && (grace <= 0 || SupersededFor(m, f, now, grace) || (Newest(m, f) && now - m[f] >= grace))
  }

  ghost function Victims(m: Mtimes, keep: set<string>, now: Instant, grace: int): set<string> {
    set f | f in m && Victim(m, keep, now, grace, f)
  }

  // -- the selection loops ---------------------------------------------------

  ghost predicate Listing(cands: seq<Candidate>, m: Mtimes) {
    && (forall i :: 0 <= i < |cands| ==> cands[i].name in m && cands[i].mtime == m[cands[i].name])
    && (forall n <- m.Keys :: Candidate(n, m[n]) in cands)
    && (forall i, j :: 0 <= i < j < |cands| ==> cands[i].name != cands[j].name)
  }

  /** The smallest mtime strictly after ref, or NO_INSTANT. */
  method EarliestNewerMtime(cands: seq<Candidate>, ref: Instant) returns (out: int)
    ensures out == NO_INSTANT <==> forall c <- cands :: c.mtime <= ref
    ensures out != NO_INSTANT ==> ref < out && exists c <- cands :: c.mtime == out
    ensures forall c <- cands :: c.mtime > ref ==> out <= c.mtime
  {
    out := NO_INSTANT;
    for i := 0 to |cands|
      invariant out == NO_INSTANT <==> forall k :: 0 <= k < i ==> cands[k].mtime <= ref
      invariant out != NO_INSTANT ==> ref < out && exists k :: 0 <= k < i && cands[k].mtime == out
      invariant forall k :: 0 <= k < i && cands[k].mtime > ref ==> out <= cands[k].mtime
    {
      var c := cands[i];
      if c.mtime > ref && (out == NO_INSTANT || c.mtime < out) {
        out := c.mtime;
      }
    }
  }

  /** One decision of selectPruneVictims. */
  method IsPruneVictim(cands: seq<Candidate>, c: Candidate, keep: set<string>, now: Instant, grace: int,
                       ghost m: Mtimes)
    returns (victim: bool)
    requires Listing(cands, m) && c in cands
    ensures victim <==> Victim(m, keep, now, grace, c.name)
  {
    if c.name in keep { return false; }
    if grace > 0 {
      var superseded := EarliestNewerMtime(cands, c.mtime);
      if superseded == NO_INSTANT {
        assert Newest(m, c.name);
        superseded := c.mtime;
      } else {
        var w :| w in cands && w.mtime == superseded;
        assert w.name in m.Keys;
      }
      if now - superseded < grace { return false; }
    }
    return true;
  }

  method SelectPruneVictims(cands: seq<Candidate>, keep: set<string>, now: Instant, grace: int, ghost m: Mtimes)
    returns (victims: seq<string>)
    requires Listing(cands, m)
    ensures forall f :: f in victims <==> f in Victims(m, keep, now, grace)
    ensures forall i, j :: 0 <= i < j < |victims| ==> victims[i] != victims[j]
  {
    victims := [];
    ghost var want := Victims(m, keep, now, grace);
    for i := 0 to |cands|
      invariant forall f <- victims :: f in want
      invariant forall k :: 0 <= k < i && cands[k].name in want ==> cands[k].name in victims
      invariant forall k :: i <= k < |cands| ==> cands[k].name !in victims
      invariant forall p, q :: 0 <= p < q < |victims| ==> victims[p] != victims[q]
    {
      var v := IsPruneVictim(cands, cands[i], keep, now, grace, m);
      if v {
        victims := victims + [cands[i].name];
      }
    }
    forall f | f in want ensures f in victims {
      assert Candidate(f, m[f]) in cands;
    }
  }

  // -- facts about one Prune -------------------------------------------------

  /** Without a grace window nothing unkept stays. */
  lemma NoGraceTakesAll(m: Mtimes, keep: set<string>, now: Instant, grace: int)
    requires grace <= 0
    ensures Victims(m, keep, now, grace) == m.Keys - keep
  {
  }

  /** Once every mtime is grace old, pruning leaves only what is kept. */
  lemma PruneDrains(m: Mtimes, keep: set<string>, now: Instant, grace: int)
    requires forall f <- m.Keys :: now - m[f] >= grace
    ensures m.Keys - Victims(m, keep, now, grace) <= keep
  {
    forall f | f in m && f !in keep ensures Victim(m, keep, now, grace, f) {
      if !Newest(m, f) {
        assert SupersededFor(m, f, now, grace);
      }
    }
  }
}
