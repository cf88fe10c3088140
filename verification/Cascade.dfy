/** The publish, watch, reconcile cascade of internal/operator/reconciler.go: a pass that publishes a changed
    artifact wakes every snippet reading it, and the cycle gate keeps snippets on a cycle from publishing. */
module Cascade {
  import opened Common
  import opened CycleWalk
  import opened DependencyGraph
  import opened Wrappers

  /** Those whose inputs include s's artifact. */
  ghost function Dependents(g: Graph, s: Id): set<Id> {
    set x | x in g && s in g[x]
  }

  /** One reconcile: which pending request it takes, the walk's verdict, whether what it would publish is new,
      and the requests its publication adds. */
  datatype Pass = Pass(at: nat, verdict: Option<seq<Id>>, changed: bool, woken: seq<Id>)

  ghost predicate Publishes(g: Graph, gated: bool, s: Id, pass: Pass) {
    s in g && pass.changed && (gated ==> pass.verdict.None?)
  }

  function Rest(q: seq<Id>, at: nat): seq<Id>
    requires at < |q|
  {
    q[..at] + q[at + 1..]
  }

  /** Dependents already pending need not be queued twice. */
  ghost predicate Wakes(g: Graph, s: Id, rest: seq<Id>, woken: seq<Id>) {
    && Distinct(woken) && (forall x <- woken :: x in Dependents(g, s))
    && forall x <- Dependents(g, s) :: x in rest || x in woken
  }

  ghost predicate Takes(g: Graph, gated: bool, q: seq<Id>, pass: Pass, q': seq<Id>) {
    && pass.at < |q| && Verdict(g, q[pass.at], pass.verdict)
    && q' == Rest(q, pass.at) + pass.woken
    && if Publishes(g, gated, q[pass.at], pass) then Wakes(g, q[pass.at], Rest(q, pass.at), pass.woken)
       else pass.woken == []
  }

  ghost predicate Run(g: Graph, gated: bool, qs: seq<seq<Id>>, passes: seq<Pass>) {
    |qs| == |passes| + 1 && forall i :: 0 <= i < |passes| ==> Takes(g, gated, qs[i], passes[i], qs[i + 1])
  }

  // -- the gated cascade ends -------------------------------------------------------

  ghost predicate Reaches(g: Graph, a: Id, b: Id) {
    exists p :: Walk(g, p) && |p| >= 2 && p[0] == a && p[|p| - 1] == b
  }

  /** s and everything that reads it, however indirectly. */
  ghost function Above(g: Graph, s: Id): set<Id> {
    {s} + set x | x in g && Reaches(g, x, s)
  }

  /** How many passes one pending request can cost, if its snippet can publish at all. */
  ghost function Costs(g: Graph): map<Id, nat> {
    map s | s in g && !OnCycle(g, s) :: Pow(|g| + 1, |Above(g, s)|)
  }

  function Cost(costs: map<Id, nat>, s: Id): nat {
    if s in costs then costs[s] else 1
  }

  function Total(costs: map<Id, nat>, q: seq<Id>): nat {
    if q == [] then 0 else Cost(costs, q[0]) + Total(costs, q[1..])
  }

  lemma {:induction false} TotalConcat(costs: map<Id, nat>, p: seq<Id>, q: seq<Id>)
    ensures Total(costs, p + q) == Total(costs, p) + Total(costs, q)
  {
    if p == [] {
      assert p + q == q;
    } else {
      TotalConcat(costs, p[1..], q);
      assert (p + q)[1..] == p[1..] + q;
    }
  }

  lemma {:induction false} TotalAtMost(costs: map<Id, nat>, q: seq<Id>, c: nat)
    requires forall i :: 0 <= i < |q| ==> Cost(costs, q[i]) <= c
    ensures Total(costs, q) <= |q| * c
  {
    if q == [] {
    } else {
      TotalAtMost(costs, q[1..], c);
      assert |q| * c == c + (|q| - 1) * c;
    }
  }

  lemma {:induction false} DistinctFits(q: seq<Id>, s: set<Id>)
    requires Distinct(q) && forall x <- q :: x in s
    ensures |q| <= |s|
  {
    if q == [] {
    } else {
      var rest, last := q[..|q| - 1], q[|q| - 1];
      DistinctFits(rest, s - {last});
      assert s == (s - {last}) + {last};
    }
  }

  /** Above an off-cycle snippet, its dependents have strictly less above them. */
  lemma DependentsAreHigher(g: Graph, s: Id, x: Id)
    requires !OnCycle(g, s) && x in Dependents(g, s)
    ensures |Above(g, x)| < |Above(g, s)|
  {
    var edge := [x, s];
    assert Walk(g, edge);
    forall y | y in Above(g, x) ensures y in Above(g, s) && y != s {
      if y == x {
        assert Reaches(g, x, s) by { assert edge[0] == x && edge[|edge| - 1] == s; }
        if x == s { assert Cycle(g, s, edge); }
      } else {
        var p :| Walk(g, p) && |p| >= 2 && p[0] == y && p[|p| - 1] == x;
        WalkConcat(g, p, edge);
        if y == s { assert Cycle(g, s, p + edge[1..]); }
      }
    }
    SmallerSet(Above(g, x), Above(g, s));
  }

  lemma CostUpTo(g: Graph, x: Id, above: nat)
    requires above == |Above(g, x)|
    ensures Cost(Costs(g), x) <= Pow(|g| + 1, above)
  {
    var costs := Costs(g);
    if x in costs { assert costs[x] == Pow(|g| + 1, |Above(g, x)|); }
  }

  lemma CostOfOne(g: Graph, s: Id, x: Id, e: nat)
    requires !OnCycle(g, s) && x in Dependents(g, s) && |Above(g, s)| == e + 1
    ensures Cost(Costs(g), x) <= Pow(|g| + 1, e)
  {
    DependentsAreHigher(g, s, x);
    var low := |Above(g, x)|;
    CostUpTo(g, x, low);
    PowGrows(|g| + 1, low, e);
  }

  lemma Spread(k: nat, n: nat, c: nat)
    requires k <= n
    ensures k * c <= n * c && (n + 1) * c == n * c + c
  {
  }

  lemma CostOfWaking(g: Graph, s: Id, woken: seq<Id>)
    requires s in g && !OnCycle(g, s) && Distinct(woken) && forall x <- woken :: x in Dependents(g, s)
    ensures Total(Costs(g), woken) < Cost(Costs(g), s)
  {
    var n, a := |g|, |Above(g, s)|;
    assert a > 0 by { assert s in Above(g, s); }
    var c := Pow(n + 1, a - 1);
    forall i | 0 <= i < |woken| ensures Cost(Costs(g), woken[i]) <= c {
      CostOfOne(g, s, woken[i], a - 1);
    }
    TotalAtMost(Costs(g), woken, c);
    DistinctFits(woken, g.Keys);
    Spread(|woken|, n, c);
  }

  lemma SplitTotal(costs: map<Id, nat>, q: seq<Id>, at: nat, woken: seq<Id>)
    requires at < |q|
    ensures Total(costs, Rest(q, at) + woken) == Total(costs, q) - Cost(costs, q[at]) + Total(costs, woken)
  {
    var front, back := q[..at], q[at + 1..];
    assert q == front + ([q[at]] + back) && ([q[at]] + back)[1..] == back;
    TotalConcat(costs, front, [q[at]] + back);
    TotalConcat(costs, front, back);
    TotalConcat(costs, front + back, woken);
  }

  lemma PassLowersTotal(g: Graph, q: seq<Id>, pass: Pass, q': seq<Id>)
    requires Takes(g, true, q, pass, q')
    ensures Total(Costs(g), q') < Total(Costs(g), q)
  {
    var s := q[pass.at];
    SplitTotal(Costs(g), q, pass.at, pass.woken);
    if Publishes(g, true, s, pass) { CostOfWaking(g, s, pass.woken); }
  }

  /** Every gated cascade on a fixed graph, cyclic or not, is finite: its length is bounded by what was pending. */
  lemma {:induction false} CascadeEnds(g: Graph, qs: seq<seq<Id>>, passes: seq<Pass>)
    requires Run(g, true, qs, passes)
    ensures |passes| <= Total(Costs(g), qs[0]) - Total(Costs(g), qs[|passes|])
    decreases |passes|
  {
    if passes == [] {
    } else {
      var n := |passes| - 1;
      PassLowersTotal(g, qs[n], passes[n], qs[n + 1]);
      CascadeEnds(g, qs[..n + 1], passes[..n]);
    }
  }

  // -- every pending request can be taken ---------------------------------------------

  lemma {:induction false} ShortestFrom(g: Graph, s: Id, p: seq<Id>) returns (v: Option<seq<Id>>)
    requires Cycle(g, s, p)
    ensures Verdict(g, s, v) && v.Some?
    decreases |p|
  {
    if q :| Cycle(g, s, q) && |q| < |p| {
      v := ShortestFrom(g, s, q);
    } else {
      v := Some(p);
    }
  }

  lemma VerdictExists(g: Graph, s: Id) returns (v: Option<seq<Id>>)
    ensures Verdict(g, s, v)
  {
    if p :| Cycle(g, s, p) {
      v := ShortestFrom(g, s, p);
    } else {
      v := None;
    }
  }

  lemma {:induction false} Enumerate(s: set<Id>) returns (q: seq<Id>)
    ensures Distinct(q) && forall x :: x in q <==> x in s
  {
    q := [];
    var left := s;
    while left != {}
      invariant Distinct(q) && left <= s && forall x :: x in q <==> x in s - left
    {
      var x :| x in left;
      assert forall i :: 0 <= i < |q| ==> q[i] in q;
      q, left := q + [x], left - {x};
    }
  }

  /** Whatever is pending, its first request can be taken with fresh output. */
  lemma TakeFirst(g: Graph, gated: bool, q: seq<Id>, at: nat) returns (pass: Pass, q': seq<Id>)
    requires at < |q|
    ensures pass.at == at && pass.changed && Takes(g, gated, q, pass, q')
  {
    var v := VerdictExists(g, q[at]);
    var woken := Enumerate(Dependents(g, q[at]));
    if q[at] !in g || (gated && v.Some?) { woken := []; }
    pass, q' := Pass(at, v, true, woken), Rest(q, at) + woken;
  }

  /** With CascadeEnds: a maximal gated cascade leaves nothing pending. */
  lemma {:induction false} CascadeDrains(g: Graph, q: seq<Id>) returns (qs: seq<seq<Id>>, passes: seq<Pass>)
    ensures Run(g, true, qs, passes) && qs[0] == q && qs[|passes|] == []
    decreases Total(Costs(g), q)
  {
    if q == [] { return [[]], []; }
    var pass, q' := TakeFirst(g, true, q, 0);
    PassLowersTotal(g, q, pass, q');
    var qs', passes' := CascadeDrains(g, q');
    qs, passes := [q] + qs', [pass] + passes';
    forall i | 0 <= i < |passes| ensures Takes(g, true, qs[i], passes[i], qs[i + 1]) {
      if i > 0 { assert Takes(g, true, qs'[i - 1], passes'[i - 1], qs'[i]); }
    }
  }

  // -- without the gate ------------------------------------------------------------

  /** The snippet just before s on a cycle through s is woken by s and is itself on that cycle. */
  lemma PredecessorOnCycle(g: Graph, s: Id) returns (x: Id)
    requires OnCycle(g, s)
    ensures s in g && x in Dependents(g, s) && OnCycle(g, x)
  {
    var p :| Cycle(g, s, p);
    x := p[|p| - 2];
    assert Edge(g, p[0], p[1]) && Edge(g, x, s);
    WalkSlice(g, p, 0, |p| - 1);
    var front, edge := p[0..|p| - 1], [x, s];
    WalkConcat(g, edge, front);
    assert Cycle(g, x, edge + front[1..]);
  }

  /** Without the gate one pending snippet on a cycle keeps the cascade going for any number of passes. */
  lemma {:induction false} UngatedCascadeGoesOn(g: Graph, q: seq<Id>, s: Id, n: nat)
    returns (qs: seq<seq<Id>>, passes: seq<Pass>)
    requires OnCycle(g, s) && s in q
    ensures Run(g, false, qs, passes) && |passes| == n && qs[0] == q
    decreases n
  {
    if n == 0 { return [q], []; }
    var at :| 0 <= at < |q| && q[at] == s;
    var x := PredecessorOnCycle(g, s);
    var pass, q' := TakeFirst(g, false, q, at);
    assert Wakes(g, s, Rest(q, at), pass.woken);
    var qs', passes' := UngatedCascadeGoesOn(g, q', x, n - 1);
    qs, passes := [q] + qs', [pass] + passes';
    forall i | 0 <= i < |passes| ensures Takes(g, false, qs[i], passes[i], qs[i + 1]) {
      if i > 0 { assert Takes(g, false, qs'[i - 1], passes'[i - 1], qs'[i]); }
    }
  }
}
