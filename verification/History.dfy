/** buildKeepRevisions and updateRevisionHistory of internal/operator/reconciler.go: what a publish keeps
    in the store against what status.history goes on to list. */
module History {
  import opened Common

  datatype RevisionEntry = RevisionEntry(revision: string, time: int)

  function Limit(history: int): nat { if history > 1 then history else 1 }

  /** The revisions the keep loop has met after newRev and the first b entries. */
  function Met(newRev: string, prior: seq<RevisionEntry>, b: nat): set<string>
    requires b <= |prior|
  {
    if b == 0 then {newRev} - {""}
    else Met(newRev, prior, b - 1) + ({prior[b - 1].revision} - {""})
  }

  /** out lists the new revision and the most recent prior ones, until limit or the end is reached. */
  ghost predicate KeepSpec(out: seq<string>, newRev: string, prior: seq<RevisionEntry>, limit: nat) {
    && Distinct(out) && |out| <= limit
    && (newRev != "" ==> out != [] && out[0] == newRev)
    && exists b :: 0 <= b <= |prior| && (set r | r in out) == Met(newRev, prior, b) && (b == |prior| || |out| == limit)
  }

  /** Entry j names a revision for the first time. */
  ghost predicate IsNew(newRev: string, prior: seq<RevisionEntry>, j: nat)
    requires j < |prior|
  {
    prior[j].revision != "" && prior[j].revision != newRev && forall k :: 0 <= k < j ==>
        prior[k].revision != prior[j].revision
  }

  ghost predicate Before(out: seq<string>, a: string, b: string) {
    exists x, y :: 0 <= x < y < |out| && out[x] == a && out[y] == b
  }

  /** Whatever is listed from entry j comes after everything the entries before it name. */
  ghost predicate MostRecentFirst(out: seq<string>, newRev: string, prior: seq<RevisionEntry>) {
    forall i, j ::
      0 <= i < j < |prior| && IsNew(newRev, prior, j) && prior[j].revision in out && prior[i].revision != "" ==>
        Before(out, prior[i].revision, prior[j].revision)
  }

  lemma BeforeGrows(out: seq<string>, rev: string, a: string, b: string)
    requires Before(out, a, b)
    ensures Before(out + [rev], a, b)
  {
    var x, y :| 0 <= x < y < |out| && out[x] == a && out[y] == b;
    assert (out + [rev])[x] == a && (out + [rev])[y] == b;
  }

  lemma BeforeLast(out: seq<string>, a: string, b: string)
    requires a in out
    ensures Before(out + [b], a, b)
  {
    var x :| 0 <= x < |out| && out[x] == a;
    assert (out + [b])[x] == a && (out + [b])[|out|] == b;
  }

  lemma {:induction false} MetIs(newRev: string, prior: seq<RevisionEntry>, b: nat)
    requires b <= |prior|
    ensures Met(newRev, prior, b) == (set i | 0 <= i < b :: prior[i].revision) + {newRev} - {""}
  {
    if b == 0 {
    } else {
      MetIs(newRev, prior, b - 1);
    }
  }

  lemma MetHolds(newRev: string, prior: seq<RevisionEntry>, n: nat, i: nat)
    requires i < n <= |prior| && prior[i].revision != ""
    ensures prior[i].revision in Met(newRev, prior, n)
  {
    MetIs(newRev, prior, n);
  }

  lemma ListedNext(out: seq<string>, newRev: string, prior: seq<RevisionEntry>, n: nat)
    requires n < |prior| && (set r | r in out) == Met(newRev, prior, n) && MostRecentFirst(out, newRev, prior)
    requires prior[n].revision != "" && prior[n].revision !in out
    ensures MostRecentFirst(out + [prior[n].revision], newRev, prior)
  {
    var rev := prior[n].revision;
    forall i, j | 0 <= i < j < |prior| && IsNew(newRev, prior, j) && prior[j].revision in out + [rev] &&
        prior[i].revision != ""
      ensures Before(out + [rev], prior[i].revision, prior[j].revision)
    {
      if prior[j].revision in out {
        BeforeGrows(out, rev, prior[i].revision, prior[j].revision);
      } else {
        MetHolds(newRev, prior, n, i);
        BeforeLast(out, prior[i].revision, rev);
      }
    }
  }

  method BuildKeepRevisions(newRev: string, prior: seq<RevisionEntry>, history: int) returns (out: seq<string>)
    ensures KeepSpec(out, newRev, prior, Limit(history))
    ensures MostRecentFirst(out, newRev, prior)
  {
    var limit := Limit(history);
    out := if newRev == "" then [] else [newRev];
    assert (set r | r in out) == Met(newRev, prior, 0);
    if |out| >= limit { return; }
    for i := 0 to |prior|
      invariant Distinct(out) && |out| < limit
      invariant (set r | r in out) == Met(newRev, prior, i)
      invariant newRev != "" ==> out != [] && out[0] == newRev
      invariant MostRecentFirst(out, newRev, prior)
    {
      var rev := prior[i].revision;
      if rev != "" && rev !in out {
        ListedNext(out, newRev, prior, i);
        out := out + [rev];
        assert Met(newRev, prior, i + 1) == Met(newRev, prior, i) + {rev};
        if |out| >= limit {
          return;
        }
      }
    }
  }

  /** What markSynced writes to status.history. */
  function HistoryAfter(prior: seq<RevisionEntry>, revision: string, history: int, now: int): (h: seq<RevisionEntry>)
    ensures h != [] && h[0].revision == revision && |h| <= Limit(history)
  {
    var limit := Limit(history);
    if prior != [] && prior[0].revision == revision then
      (if |prior| > limit then prior[..limit] else prior)
    else
      [RevisionEntry(revision, now)] + (if |prior| > limit - 1 then prior[..limit - 1] else prior)
  }

  /** What an update means, entry by entry: a moved head goes in front with the present time, the older entries follow
      as they were, and the oldest make room; where the head did not move nothing is added and its old time stays. */
  ghost predicate Updated(prior: seq<RevisionEntry>, h: seq<RevisionEntry>, revision: string, historyMax: int, now: int)
  {
    var room := if historyMax > 1 then historyMax else 1;
    if prior != [] && prior[0].revision == revision then
      && |h| == (if |prior| < room then |prior| else room)
      && forall i :: 0 <= i < |h| ==> h[i] == prior[i]
    else
      && |h| == (if |prior| + 1 < room then |prior| + 1 else room)
      && h[0] == RevisionEntry(revision, now)
      && forall i :: 0 <= i < |h| - 1 ==> h[i + 1] == prior[i]
  }

  method UpdateRevisionHistory(prior: seq<RevisionEntry>, revision: string, historyMax: int, now: int)
    returns (out: seq<RevisionEntry>)
    ensures out == HistoryAfter(prior, revision, historyMax, now)
    ensures Updated(prior, out, revision, historyMax, now)
  {
    var limit := Limit(historyMax);
    if |prior| > 0 && prior[0].revision == revision {
      if |prior| > limit { return prior[..limit]; }
      return prior;
    }
    out := [RevisionEntry(revision, now)];
    for i := 0 to |prior|
      invariant i <= limit - 1
      invariant out == [RevisionEntry(revision, now)] + prior[..i]
    {
      if |out| >= limit { break; }
      out := out + [prior[i]];
    }
  }

  function HistoryRevisions(history: seq<RevisionEntry>): (revs: seq<string>)
    ensures forall r :: r in revs <==> r != "" && exists e <- history :: e.revision == r
  {
    if history == [] then []
    else
      var rest := HistoryRevisions(history[1..]);
      assert history == [history[0]] + history[1..];
      if history[0].revision == "" then rest else [history[0].revision] + rest
  }

  ghost predicate AdjacentDistinct(h: seq<RevisionEntry>) {
    forall i :: 0 < i < |h| ==> h[i - 1].revision != h[i].revision
  }

  lemma AdjacentStayDistinct(prior: seq<RevisionEntry>, revision: string, history: int, now: int)
    requires AdjacentDistinct(prior)
    ensures AdjacentDistinct(HistoryAfter(prior, revision, history, now))
  {
  }

  // -- counting ----------------------------------------------------------------

  lemma {:induction false} MetCount(newRev: string, prior: seq<RevisionEntry>, b: nat)
    requires b <= |prior|
    ensures |Met(newRev, prior, b)| <= b + 1
    ensures b > 0 && prior[0].revision == newRev ==> |Met(newRev, prior, b)| <= b
  {
    if b == 0 {
    } else {
      MetCount(newRev, prior, b - 1);
      var r := prior[b - 1].revision;
      var before := Met(newRev, prior, b - 1);
      assert |before + ({r} - {""})| <= |before| + 1;
      if b == 1 && r == newRev { assert before + ({r} - {""}) == before; }
    }
  }

  /** No repeats, blanks or newRev among the first n entries. */
  ghost predicate AllNew(newRev: string, prior: seq<RevisionEntry>, n: nat)
    requires n <= |prior|
  {
    && newRev != ""
    && (forall i :: 0 <= i < n ==> prior[i].revision != "" && prior[i].revision != newRev)
    && (forall i, j :: 0 <= i < j < n ==> prior[i].revision != prior[j].revision)
  }

  lemma AllNewShrinks(newRev: string, prior: seq<RevisionEntry>, b: nat)
    requires 0 < b <= |prior| && AllNew(newRev, prior, b)
    ensures AllNew(newRev, prior, b - 1)
  {
  }

  lemma AllNewStep(newRev: string, prior: seq<RevisionEntry>, b: nat)
    requires 0 < b <= |prior| && AllNew(newRev, prior, b - 1)
    ensures AllNew(newRev, prior, b) <==>
            prior[b - 1].revision != "" && prior[b - 1].revision !in Met(newRev, prior, b - 1)
  {
    MetIs(newRev, prior, b - 1);
    var r := prior[b - 1].revision;
    if r != "" && r !in Met(newRev, prior, b - 1) {
      forall i | 0 <= i < b - 1 ensures prior[i].revision != r {
        assert prior[i].revision in set i | 0 <= i < b - 1 :: prior[i].revision;
      }
    }
  }

  lemma MetStep(newRev: string, prior: seq<RevisionEntry>, b: nat)
    requires 0 < b <= |prior|
    ensures var r, before := prior[b - 1].revision, Met(newRev, prior, b - 1);
            |Met(newRev, prior, b)| == if r == "" || r in before then |before| else |before| + 1
  {
    var r, before := prior[b - 1].revision, Met(newRev, prior, b - 1);
    if r == "" || r in before {
      assert before + ({r} - {""}) == before;
    } else {
      assert before + ({r} - {""}) == before + {r};
    }
  }

  lemma {:induction false} MetFull(newRev: string, prior: seq<RevisionEntry>, b: nat)
    requires b <= |prior|
    ensures |Met(newRev, prior, b)| == b + 1 <==> AllNew(newRev, prior, b)
  {
    if b == 0 {
      assert Met(newRev, prior, 0) == if newRev == "" then {} else {newRev};
    } else {
      MetFull(newRev, prior, b - 1);
      MetCount(newRev, prior, b - 1);
      MetStep(newRev, prior, b);
      if AllNew(newRev, prior, b - 1) {
        AllNewStep(newRev, prior, b);
      } else {
        if AllNew(newRev, prior, b) { AllNewShrinks(newRev, prior, b); }
      }
    }
  }

  lemma SetOfDistinct(q: seq<string>)
    requires Distinct(q)
    ensures |set r | r in q| == |q|
  {
    if q == [] {
    } else {
      var rest := q[1..];
      assert q == [q[0]] + rest;
      SetOfDistinct(rest);
      assert (set r | r in q) == {q[0]} + set r | r in rest;
    }
  }

  // -- keep-set against history --------------------------------------------------

  /** The exact case in which a source-mode publish, whose keep-set is seeded with the rendered hash
      instead of the published revision, leaves a listed revision out: the head did not move, and the
      first limit entries fill the whole history without repeats, blanks or the rendered hash. */
  ghost predicate SourceModeLoses(rendered: string, prior: seq<RevisionEntry>, rev: string, limit: nat) {
    && prior != [] && prior[0].revision == rev
    && 2 <= limit <= |prior|
    && AllNew(rendered, prior, limit)
  }

  lemma {:induction false} MetGrows(newRev: string, prior: seq<RevisionEntry>, a: nat, b: nat)
    requires a <= b <= |prior|
    ensures Met(newRev, prior, a) <= Met(newRev, prior, b)
    ensures |Met(newRev, prior, a)| <= |Met(newRev, prior, b)|
  {
    if a == b {
    } else {
      MetGrows(newRev, prior, a, b - 1);
      var more := Met(newRev, prior, b) - Met(newRev, prior, b - 1);
      assert Met(newRev, prior, b) == Met(newRev, prior, b - 1) + more;
    }
  }

  lemma SourceLoss(keep: seq<string>, rendered: string, prior: seq<RevisionEntry>, rev: string, history: int, now: int,
                   b: nat)
    requires rev != "" && b <= |prior| && SourceModeLoses(rendered, prior, rev, Limit(history))
    requires forall r :: r in keep <==> r in Met(rendered, prior, b)
    requires |Met(rendered, prior, b)| <= Limit(history)
    ensures exists r <- HistoryRevisions(HistoryAfter(prior, rev, history, now)) :: r != rev && r !in keep
  {
    var limit := Limit(history);
    var h := HistoryAfter(prior, rev, history, now);
    if b >= limit {
      MetFull(rendered, prior, limit);
      MetGrows(rendered, prior, limit, b);
    }
    MetIs(rendered, prior, b);
    var last := prior[limit - 1].revision;
    assert h[limit - 1] == prior[limit - 1];
    assert last in HistoryRevisions(h);
    assert last != prior[0].revision;
  }

  lemma {:induction false} MetContains(newRev: string, prior: seq<RevisionEntry>, b: nat, i: nat)
    requires i < b <= |prior| && prior[i].revision != ""
    ensures prior[i].revision in Met(newRev, prior, b)
  {
    if i == b - 1 {
    } else {
      MetContains(newRev, prior, b - 1, i);
    }
  }

  /** Where in the prior history a still listed revision comes from. */
  lemma ListedFrom(prior: seq<RevisionEntry>, rev: string, history: int, now: int, r: string) returns (i: nat)
    requires r in HistoryRevisions(HistoryAfter(prior, rev, history, now)) && r != rev
    ensures i < |prior| && prior[i].revision == r && r != ""
    ensures prior[0].revision == rev ==> 0 < i < Limit(history)
    ensures prior[0].revision != rev ==> i < Limit(history) - 1
  {
    var h := HistoryAfter(prior, rev, history, now);
    var k :| 0 <= k < |h| && h[k].revision == r;
    if prior != [] && prior[0].revision == rev {
      assert h[k] == prior[k];
      i := k;
    } else {
      assert h[k] == prior[k - 1];
      i := k - 1;
    }
  }

  lemma RenderedCover(prior: seq<RevisionEntry>, rev: string, history: int, now: int, b: nat, r: string)
    requires rev != "" && b <= |prior| && (b == |prior| || |Met(rev, prior, b)| == Limit(history))
    requires r in HistoryRevisions(HistoryAfter(prior, rev, history, now))
    ensures r in Met(rev, prior, b)
  {
    if r == rev {
      MetIs(rev, prior, b);
    } else {
      var i := ListedFrom(prior, rev, history, now, r);
      MetCount(rev, prior, b);
      MetContains(rev, prior, b, i);
    }
  }

  /** Rendered mode: everything the next status.history lists was in the keep-set handed to Prune. */
  lemma RenderedKeepCoversHistory(keep: seq<string>, prior: seq<RevisionEntry>, rev: string, history: int, now: int)
    requires rev != "" && KeepSpec(keep, rev, prior, Limit(history))
    ensures forall r <- HistoryRevisions(HistoryAfter(prior, rev, history, now)) :: r in keep
  {
    var b :| 0 <= b <= |prior| && (set r | r in keep) == Met(rev, prior, b) &&
        (b == |prior| || |keep| == Limit(history));
    SetOfDistinct(keep);
    forall r | r in HistoryRevisions(HistoryAfter(prior, rev, history, now)) ensures r in keep {
      RenderedCover(prior, rev, history, now, b, r);
    }
  }

  lemma SourceCover(keep: seq<string>, rendered: string, prior: seq<RevisionEntry>, rev: string, history: int, now: int,
                    b: nat, r: string)
    requires rev != "" && rendered != "" && b <= |prior| && !SourceModeLoses(rendered, prior, rev, Limit(history))
    requires forall x :: x in keep <==> x in Met(rendered, prior, b)
    requires b == |prior| || |Met(rendered, prior, b)| == Limit(history)
    requires r in HistoryRevisions(HistoryAfter(prior, rev, history, now)) && r != rev
    ensures r in keep
  {
    var limit := Limit(history);
    var i := ListedFrom(prior, rev, history, now, r);
    MetCount(rendered, prior, b);
    if i < b {
      MetContains(rendered, prior, b, i);
    } else {
      MetFull(rendered, prior, b);
      AllNewStep(rendered, prior, b + 1);
    }
  }

  lemma SourceKeepCoversHistoryIff(keep: seq<string>, rendered: string, prior: seq<RevisionEntry>, rev: string,
                                   history: int, now: int)
    requires rev != "" && rendered != "" && KeepSpec(keep, rendered, prior, Limit(history))
    ensures (forall r <- HistoryRevisions(HistoryAfter(prior, rev, history, now)) :: r == rev || r in keep)
            <==> !SourceModeLoses(rendered, prior, rev, Limit(history))
  {
    var limit := Limit(history);
    var b :| 0 <= b <= |prior| && (set r | r in keep) == Met(rendered, prior, b) && (b == |prior| || |keep| == limit);
    SetOfDistinct(keep);
    assert |Met(rendered, prior, b)| == |keep|;
    assert forall r :: r in keep <==> r in Met(rendered, prior, b);
    if SourceModeLoses(rendered, prior, rev, limit) {
      SourceLoss(keep, rendered, prior, rev, history, now, b);
    } else {
      forall r | r in HistoryRevisions(HistoryAfter(prior, rev, history, now)) && r != rev ensures r in keep {
        SourceCover(keep, rendered, prior, rev, history, now, b, r);
      }
    }
  }

  /** A steady republish in source mode with a full history of two: the older revision stays listed, unkept. */
  lemma SteadySourceRepublishDropsListedRevision()
    ensures var prior := [RevisionEntry("s2", 2), RevisionEntry("s1", 1)];
            && KeepSpec(["r", "s2"], "r", prior, Limit(2))
            && "s1" in HistoryRevisions(HistoryAfter(prior, "s2", 2, 3)) && "s1" !in ["r", "s2"]
  {
    var prior := [RevisionEntry("s2", 2), RevisionEntry("s1", 1)];
    assert "s2"[1] != "s1"[1];
    assert Met("r", prior, 0) == {"r"};
    assert Met("r", prior, 1) == {"r", "s2"} == set x | x in ["r", "s2"];
    assert HistoryAfter(prior, "s2", 2, 3) == prior;
    assert prior[1].revision == "s1";
  }
}
