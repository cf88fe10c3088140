/** detectSourceRefCycle and reconstructCyclePath of internal/operator/cycle.go: a breadth-first search
    with parent pointers over the dependency graph. */
module CycleWalk {
  import opened DependencyGraph
  import opened Wrappers

  /** The graph an admission or reconcile of snip sees: the judged object stands in for the stored one. */
  function Judged(c: Cluster, start: Id, snip: Snippet): Cluster {
    c.(snippets := c.snippets[start := snip])
  }

  predicate HasCycleSourceEdge(snip: Snippet) {
    snip.libraries != [] || (snip.sourceRef.Some? && snip.sourceRef.value.kind == ARTIFACT)
  }

  // -- parent pointers ------------------------------------------------------------

  /** dist is the breadth-first level of every visited id; parents sit one level up along an edge. */
  ghost predicate Tree(g: Graph, start: Id, dist: map<Id, nat>, parent: map<Id, Id>) {
    && start in dist && dist[start] == 0
    && parent.Keys == dist.Keys - {start}
    && forall x <- parent.Keys :: parent[x] in dist && dist[x] == dist[parent[x]] + 1 && Edge(g, parent[x], x)
  }

  function Reversed(s: seq<Id>): seq<Id> {
    if s == [] then [] else Reversed(s[1..]) + [s[0]]
  }

  lemma {:induction false} ReversedAppend(s: seq<Id>, x: Id)
    ensures Reversed(s + [x]) == [x] + Reversed(s)
  {
    if s == [] {
    } else {
      ReversedAppend(s[1..], x);
      assert (s + [x])[1..] == s[1..] + [x];
    }
  }

  lemma {:induction false} ReversedLength(s: seq<Id>)
    ensures |Reversed(s)| == |s|
  {
    if s == [] {
    } else {
      ReversedLength(s[1..]);
    }
  }

  /** The parent loop: from cur up to start, collecting what lies between. */
  method ClimbParents(parent: map<Id, Id>, cur: Id, start: Id, ghost g: Graph, ghost dist: map<Id, nat>)
    returns (stack: seq<Id>)
    requires Tree(g, start, dist, parent) && cur in dist
    ensures |stack| == dist[cur] && Walk(g, [start] + Reversed(stack))
    ensures ([start] + Reversed(stack))[|Reversed(stack)|] == cur
  {
    stack := [];
    var p := cur;
    while p != start
      invariant p in dist && |stack| + dist[p] == dist[cur]
      invariant Walk(g, [p] + Reversed(stack)) && ([p] + Reversed(stack))[|Reversed(stack)|] == cur
      decreases dist[p]
    {
      ReversedAppend(stack, p);
      ghost var below := [p] + Reversed(stack);
      stack := stack + [p];
      if p !in parent { break; }
      WalkConcat(g, [parent[p], p], below);
      assert [parent[p], p] + below[1..] == [parent[p]] + below;
      p := parent[p];
    }
  }

  /** The walk up always reaches start, and the result is a cycle two longer than cur's level. */
  method ReconstructCyclePath(parent: map<Id, Id>, cur: Id, start: Id, ghost g: Graph, ghost dist: map<Id, nat>)
    returns (path: seq<Id>)
    requires Tree(g, start, dist, parent) && cur in dist && Edge(g, cur, start)
    ensures Cycle(g, start, path) && |path| == dist[cur] + 2
  {
    if cur == start { return [start, start]; }
    var stack := ClimbParents(parent, cur, start, g, dist);
    ReversedLength(stack);
    var out := [start];
    var k := |stack|;
    while k > 0
      invariant 0 <= k <= |stack| && out == [start] + Reversed(stack[k..])
    {
      k := k - 1;
      assert stack[k..][1..] == stack[k + 1..];
      out := out + [stack[k]];
    }
    assert stack[0..] == stack;
    WalkConcat(g, out, [cur, start]);
    path := out + [start];
    assert out + [cur, start][1..] == path;
  }

  // -- levels ---------------------------------------------------------------------

  /** Everything an expanded id reads has been visited, at most one level further, and none of it is start. */
  ghost predicate Expanded(g: Graph, start: Id, dist: map<Id, nat>, x: Id) {
    x in g && x in dist &&
    forall y <- g[x] :: y != start && y in dist && dist[y] <= dist[x] + 1
  }

  /** Visited ids are expanded, pending, or name no snippet. */
  ghost predicate Covered(g: Graph, start: Id, dist: map<Id, nat>, pending: seq<Id>) {
    forall x {:trigger Expanded(g, start, dist, x)} :: x in dist && x in g && x !in pending ==>
        Expanded(g, start, dist, x)
  }

  /** Pending ids are in level order, and nothing lies beyond the level after the first of them. */
  ghost predicate Levelled(dist: map<Id, nat>, pending: seq<Id>) {
    && (forall x <- pending :: x in dist)
    && (forall i, j :: 0 <= i < j < |pending| ==> dist[pending[i]] <= dist[pending[j]])
    && (pending != [] ==> forall x <- dist.Keys :: dist[x] <= dist[pending[0]] + 1)
  }

  /** No walk of up to n edges from start can have missed the search, or come back. */
  lemma {:induction false} WalksStayVisited(g: Graph, start: Id, dist: map<Id, nat>, pending: seq<Id>, n: nat,
                                            p: seq<Id>)
    requires start in dist && dist[start] == 0
    requires Covered(g, start, dist, pending)
    requires forall x <- pending :: x in dist && dist[x] >= n
    requires Walk(g, p) && p[0] == start && |p| - 1 <= n
    ensures p[|p| - 1] in dist && dist[p[|p| - 1]] <= |p| - 1
    ensures |p| > 1 ==> p[|p| - 1] != start
    decreases |p|
  {
    if |p| == 1 {
    } else {
      var q := p[0..|p| - 1];
      WalkSlice(g, p, 0, |p| - 1);
      WalksStayVisited(g, start, dist, pending, n, q);
      var z, y := p[|p| - 2], p[|p| - 1];
      assert q[|q| - 1] == z && Edge(g, z, y);
      assert Expanded(g, start, dist, z);
    }
  }

  /** The outcome the search promises. */
  ghost predicate Verdict(g: Graph, start: Id, r: Option<seq<Id>>) {
    match r
    case Some(path) => Cycle(g, start, path) && forall p :: Cycle(g, start, p) ==> |path| <= |p|
    case None => !OnCycle(g, start)
  }

  lemma FoundIsShortest(g: Graph, start: Id, dist: map<Id, nat>, pending: seq<Id>, path: seq<Id>)
    requires start in dist && dist[start] == 0 && pending != []
    requires Covered(g, start, dist, pending) && Levelled(dist, pending)
    requires Cycle(g, start, path) && |path| == dist[pending[0]] + 2
    ensures Verdict(g, start, Some(path))
  {
    var n := dist[pending[0]];
    forall x | x in pending ensures dist[x] >= n {
      var i :| 0 <= i < |pending| && pending[i] == x;
    }
    forall p | Cycle(g, start, p) ensures |path| <= |p| {
      if |p| - 1 <= n { WalksStayVisited(g, start, dist, pending, n, p); }
    }
  }

  lemma ExhaustedMeansNone(g: Graph, start: Id, dist: map<Id, nat>)
    requires start in dist && dist[start] == 0 && Covered(g, start, dist, [])
    ensures Verdict(g, start, None)
  {
    forall p ensures !Cycle(g, start, p) {
      if Cycle(g, start, p) { WalksStayVisited(g, start, dist, [], |p| - 1, p); }
    }
  }

  /** The search's state between two steps; queue holds fetched objects. */
  ghost predicate Searching(g: Graph, start: Id, dist: map<Id, nat>, parent: map<Id, Id>, visited: set<Id>,
                            pending: seq<Id>) {
    && Tree(g, start, dist, parent) && visited == dist.Keys && visited <= Nodes(g)
    && Covered(g, start, dist, pending) && Levelled(dist, pending)
    && forall i :: 0 <= i < |pending| ==> pending[i] in g
  }

  lemma VisitKeepsLevels(dist: map<Id, nat>, pending: seq<Id>, dep: Id)
    requires Levelled(dist, pending) && pending != [] && dep !in dist
    ensures Levelled(dist[dep := dist[pending[0]] + 1], pending)
    ensures Levelled(dist[dep := dist[pending[0]] + 1], pending + [dep])
  {
    var dist' := dist[dep := dist[pending[0]] + 1];
    var q := pending + [dep];
    assert forall i :: 0 <= i < |pending| ==> q[i] == pending[i] && dist'[q[i]] == dist[pending[i]];
  }

  lemma VisitKeepsCover(g: Graph, start: Id, dist: map<Id, nat>, pending: seq<Id>, dep: Id, level: nat)
    requires Covered(g, start, dist, pending) && dep !in dist
    ensures Covered(g, start, dist[dep := level], if dep in g then pending + [dep] else pending)
  {
    var dist' := dist[dep := level];
    forall x | x in dist' && x in g && x != dep && x !in pending ensures Expanded(g, start, dist', x) {
      assert Expanded(g, start, dist, x);
    }
  }

  lemma VisitKeepsTree(g: Graph, start: Id, dist: map<Id, nat>, parent: map<Id, Id>, cur: Id, dep: Id)
    requires Tree(g, start, dist, parent) && cur in dist && Edge(g, cur, dep) && dep !in dist
    ensures Tree(g, start, dist[dep := dist[cur] + 1], parent[dep := cur])
  {
    var dist', parent' := dist[dep := dist[cur] + 1], parent[dep := cur];
    assert parent'.Keys == dist'.Keys - {start};
  }

  lemma VisitKeepsOrder(g: Graph, start: Id, dist: map<Id, nat>, pending: seq<Id>, dep: Id, dist': map<Id, nat>,
                        pending': seq<Id>)
    requires Covered(g, start, dist, pending) && Levelled(dist, pending) && pending != [] && dep !in dist
    requires dist' == dist[dep := dist[pending[0]] + 1]
    requires pending' == if dep in g then pending + [dep] else pending
    ensures Covered(g, start, dist', pending') && Levelled(dist', pending')
  {
    VisitKeepsLevels(dist, pending, dep);
    VisitKeepsCover(g, start, dist, pending, dep, dist[pending[0]] + 1);
  }

  lemma EdgeEndsAtNode(g: Graph, a: Id, b: Id)
    requires Edge(g, a, b)
    ensures b in Nodes(g)
  {
  }

  lemma VisitKeepsSearching(g: Graph, start: Id, dist: map<Id, nat>, parent: map<Id, Id>, visited: set<Id>,
                            pending: seq<Id>, dep: Id, dist': map<Id, nat>, parent': map<Id, Id>, pending': seq<Id>)
    requires Searching(g, start, dist, parent, visited, pending) && pending != []
    requires Edge(g, pending[0], dep) && dep !in visited
    requires dist' == dist[dep := dist[pending[0]] + 1] && parent' == parent[dep := pending[0]]
    requires pending' == if dep in g then pending + [dep] else pending
    ensures Searching(g, start, dist', parent', visited + {dep}, pending')
  {
    VisitKeepsOrder(g, start, dist, pending, dep, dist', pending');
    VisitKeepsTree(g, start, dist, parent, pending[0], dep);
    EdgeEndsAtNode(g, pending[0], dep);
  }

  lemma DropKeepsSearching(g: Graph, start: Id, dist: map<Id, nat>, parent: map<Id, Id>, visited: set<Id>,
                           pending: seq<Id>)
    requires Searching(g, start, dist, parent, visited, pending) && pending != []
    requires Expanded(g, start, dist, pending[0])
    ensures Searching(g, start, dist, parent, visited, pending[1..])
  {
    var rest := pending[1..];
    assert forall i :: 0 <= i < |rest| ==> rest[i] == pending[i + 1];
    forall x | x in dist && x in g ensures x in rest || Expanded(g, start, dist, x) {
      if x in pending && x != pending[0] {
        var i :| 0 <= i < |pending| && pending[i] == x;
        assert rest[i - 1] == x;
      }
    }
  }

  // -- the search -----------------------------------------------------------------

  /** A Get that failed while id's dependencies were looked at; a cycle; or nothing yet. */
  datatype Found = Transient(id: Id, at: Id) | Reached(path: seq<Id>) | Absent

  /** What one expansion leaves behind when it does not end the search. */
  datatype Progress = Progress(visited: set<Id>, parent: map<Id, Id>, queue: seq<(Id, Snippet)>)

  function Ids(queue: seq<(Id, Snippet)>): (ids: seq<Id>)
    ensures |ids| == |queue| && forall i :: 0 <= i < |queue| ==> ids[i] == queue[i].0
  {
    seq(|queue|, i requires 0 <= i < |queue| => queue[i].0)
  }

  /** Queued objects are what the cluster holds; the judged snippet stands for start. */
  ghost predicate Fetched(c: Cluster, start: Id, snip: Snippet, queue: seq<(Id, Snippet)>) {
    forall i :: 0 <= i < |queue| ==>
        if queue[i].0 == start then queue[i].1 == snip
        else queue[i].0 in c.snippets && queue[i].1 == c.snippets[queue[i].0]
  }

  ghost predicate Good(c: Cluster, start: Id, snip: Snippet, g: Graph, dist: map<Id, nat>, p: Progress) {
    && g.Keys == c.snippets.Keys + {start}
    && Searching(g, start, dist, p.parent, p.visited, Ids(p.queue))
    && Fetched(c, start, snip, p.queue)
  }

  /** The levels of d0 are still there in d. */
  ghost predicate Extends(d: map<Id, nat>, d0: map<Id, nat>) {
    forall x <- d0.Keys :: x in d && d[x] == d0[x]
  }

  /** Marks dep visited and queues it if such a snippet exists. */
  method Visit(c: Cluster, start: Id, ghost snip: Snippet, p0: Progress, dep: Id, ghost g: Graph,
               ghost dist0: map<Id, nat>)
    returns (p: Progress, ghost dist: map<Id, nat>)
    requires Good(c, start, snip, g, dist0, p0)
    requires p0.queue != [] && Edge(g, p0.queue[0].0, dep) && dep !in p0.visited && dep != start
    ensures Good(c, start, snip, g, dist, p)
    ensures p.queue != [] && p.queue[0] == p0.queue[0] && p.visited == p0.visited + {dep}
    ensures Extends(dist, dist0) && dep in dist && dist[dep] == dist0[p0.queue[0].0] + 1
  {
    var cur := p0.queue[0].0;
    assert Ids(p0.queue)[0] == cur;
    dist := dist0[dep := dist0[cur] + 1];
    var queue := p0.queue;
    if dep in c.snippets {
      queue := queue + [(dep, c.snippets[dep])];
      assert Ids(queue) == Ids(p0.queue) + [dep];
    }
    var parent := p0.parent[dep := cur];
    VisitKeepsSearching(g, start, dist0, p0.parent, p0.visited, Ids(p0.queue), dep, dist, parent, Ids(queue));
    p := Progress(p0.visited + {dep}, parent, queue);
  }

  /** One dependency that is not start. */
  method Consider(c: Cluster, start: Id, ghost snip: Snippet, faults: Faults, p0: Progress, dep: Id,
                  ghost g: Graph, ghost dist0: map<Id, nat>)
    returns (failed: bool, p: Progress, ghost dist: map<Id, nat>)
    requires Good(c, start, snip, g, dist0, p0)
    requires p0.queue != [] && Edge(g, p0.queue[0].0, dep) && dep != start
    ensures failed ==> dep in faults.snippets
    ensures Good(c, start, snip, g, dist, p)
    ensures p.queue != [] && p.queue[0] == p0.queue[0] && p0.visited <= p.visited
    ensures p.visited == p0.visited ==> p.queue == p0.queue
    ensures Extends(dist, dist0)
    ensures !failed ==> dep in dist && dist[dep] <= dist[p.queue[0].0] + 1
  {
    failed, p, dist := false, p0, dist0;
    assert Ids(p0.queue)[0] == p0.queue[0].0;
    if dep !in p0.visited {
      if dep in faults.snippets { return true, p, dist; }
      p, dist := Visit(c, start, snip, p0, dep, g, dist0);
      assert Ids(p.queue)[0] == p.queue[0].0;
    }
  }

  /** A dependency on start closes the cycle. */
  method Close(parent: map<Id, Id>, start: Id, ghost g: Graph, ghost dist: map<Id, nat>, ghost visited: set<Id>,
               cur: Id, ghost pending: seq<Id>)
    returns (path: seq<Id>)
    requires Searching(g, start, dist, parent, visited, pending) && pending != [] && pending[0] == cur &&
        Edge(g, cur, start)
    ensures Verdict(g, start, Some(path))
  {
    path := ReconstructCyclePath(parent, cur, start, g, dist);
    FoundIsShortest(g, start, dist, pending, path);
  }

  /** The head of the queue stays, and what is new has been visited. */
  ghost predicate Grew(p: Progress, p0: Progress) {
    && p.queue != [] && p0.queue != [] && p.queue[0] == p0.queue[0]
    && p0.visited <= p.visited && (p.visited == p0.visited ==> p.queue == p0.queue)
  }

  /** How an expansion may end. */
  ghost predicate Outcome(g: Graph, start: Id, faults: Faults, found: Found) {
    match found
    case Transient(id, at) => id in faults.snippets && Edge(g, at, id)
    case Reached(path) => Verdict(g, start, Some(path))
    case Absent => true
  }

  /** One turn of the inner loop. */
  method Look(c: Cluster, start: Id, ghost snip: Snippet, faults: Faults, p0: Progress, dep: Id,
              ghost g: Graph, ghost dist0: map<Id, nat>)
    returns (found: Found, p: Progress, ghost dist: map<Id, nat>)
    requires Good(c, start, snip, g, dist0, p0) && p0.queue != [] && Edge(g, p0.queue[0].0, dep)
    ensures Outcome(g, start, faults, found) && (found.Transient? ==> found.at == p0.queue[0].0)
    ensures Good(c, start, snip, g, dist, p) && Extends(dist, dist0) && Grew(p, p0)
    ensures found.Absent? ==> dep != start && dep in dist && dist[dep] <= dist[p.queue[0].0] + 1
  {
    if dep == start {
      assert Ids(p0.queue)[0] == p0.queue[0].0;
      var path := Close(p0.parent, start, g, dist0, p0.visited, p0.queue[0].0, Ids(p0.queue));
      found, p, dist := Reached(path), p0, dist0;
    } else {
      var failed;
      failed, p, dist := Consider(c, start, snip, faults, p0, dep, g, dist0);
      found := if failed then Transient(dep, p0.queue[0].0) else Absent;
    }
  }

  /** The first n dependencies have been looked at. */
  ghost predicate Seen(deps: seq<Id>, n: nat, start: Id, dist: map<Id, nat>, level: nat)
    requires n <= |deps|
  {
    forall i :: 0 <= i < n ==> deps[i] != start && deps[i] in dist && dist[deps[i]] <= level
  }

  lemma SeenExtends(deps: seq<Id>, n: nat, start: Id, d0: map<Id, nat>, d: map<Id, nat>, level: nat)
    requires n < |deps| && Seen(deps, n, start, d0, level) && Extends(d, d0)
    requires deps[n] != start && deps[n] in d && d[deps[n]] <= level
    ensures Seen(deps, n + 1, start, d, level)
  {
  }

  /** The inner loop: looks at each dependency of the queue's head in turn. */
  method Expand(c: Cluster, deps: seq<Id>, start: Id, ghost snip: Snippet, faults: Faults, p0: Progress,
                ghost g: Graph, ghost dist0: map<Id, nat>, ghost cur: Id)
    returns (found: Found, p: Progress, ghost dist: map<Id, nat>)
    requires Good(c, start, snip, g, dist0, p0) && Grew(p0, p0) && p0.queue[0].0 == cur
    requires forall dep <- deps :: Edge(g, cur, dep)
    ensures Outcome(g, start, faults, found) && (found.Transient? ==> found.at == cur)
    ensures Good(c, start, snip, g, dist, p) && Grew(p, p0)
    ensures cur in dist && (found.Absent? ==> Seen(deps, |deps|, start, dist, dist[cur] + 1))
  {
    p, dist := p0, dist0;
    assert cur in dist by { assert Ids(p0.queue)[0] == cur; }
    for k := 0 to |deps|
      invariant Good(c, start, snip, g, dist, p) && Grew(p, p0)
      invariant cur in dist && Seen(deps, k, start, dist, dist[cur] + 1)
    {
      ghost var before := dist;
      found, p, dist := Look(c, start, snip, faults, p, deps[k], g, dist);
      if !found.Absent? { return; }
      SeenExtends(deps, k, start, before, dist, dist[cur] + 1);
    }
    found := Absent;
  }

  lemma SeenMeansExpanded(g: Graph, start: Id, dist: map<Id, nat>, cur: Id)
    requires cur in g && cur in dist && Seen(g[cur], |g[cur]|, start, dist, dist[cur] + 1)
    ensures Expanded(g, start, dist, cur)
  {
    forall y | y in g[cur] ensures y != start && y in dist && dist[y] <= dist[cur] + 1 {
      var i :| 0 <= i < |g[cur]| && g[cur][i] == y;
    }
  }

  lemma NoEdgeNoCycle(c: Cluster, start: Id, snip: Snippet)
    requires !HasCycleSourceEdge(snip)
    ensures Verdict(GraphOf(Judged(c, start, snip)), start, None)
  {
    var g := GraphOf(Judged(c, start, snip));
    assert Deps(Judged(c, start, snip), start, snip) == [];
    forall p ensures !Cycle(g, start, p) {
      assert Cycle(g, start, p) ==> Edge(g, p[0], p[1]);
    }
  }

  ghost predicate ReachedFrom(g: Graph, start: Id, x: Id) {
    exists p :: Walk(g, p) && p[0] == start && p[|p| - 1] == x
  }

  lemma {:induction false} VisitedIsReached(g: Graph, start: Id, dist: map<Id, nat>, parent: map<Id, Id>, x: Id)
    requires Tree(g, start, dist, parent) && x in dist
    ensures ReachedFrom(g, start, x)
    decreases dist[x]
  {
    if x == start {
      assert Walk(g, [start]);
    } else {
      var up := parent[x];
      VisitedIsReached(g, start, dist, parent, up);
      var p :| Walk(g, p) && p[0] == start && p[|p| - 1] == up;
      WalkConcat(g, p, [up, x]);
    }
  }

  /** The Get of id failed for a snippet the search was led to: id is one of its dependencies, or one of its
      libraries. */
  ghost predicate Blamed(c: Cluster, start: Id, faults: Faults, id: Id) {
    exists at <- c.snippets.Keys :: ReachedFrom(GraphOf(c), start, at) &&
        ((id in faults.snippets && Edge(GraphOf(c), at, id)) || MissesLibrary(at, c.snippets[at], faults, id))
  }

  ghost predicate Advanced(c: Cluster, start: Id, faults: Faults, found: Found) {
    match found
    case Transient(id, _) => Blamed(c, start, faults, id)
    case Reached(path) => Verdict(GraphOf(c), start, Some(path))
    case Absent => true
  }

  lemma HeadIsReached(c: Cluster, start: Id, snip: Snippet, g: Graph, dist: map<Id, nat>, p: Progress)
    requires Good(c, start, snip, g, dist, p) && p.queue != []
    ensures var (curId, cur) := p.queue[0];
      curId in dist && curId in g && ReachedFrom(g, start, curId) && curId in Judged(c, start, snip).snippets &&
      cur == Judged(c, start, snip).snippets[curId]
  {
    assert Ids(p.queue)[0] == p.queue[0].0;
    VisitedIsReached(g, start, dist, p.parent, p.queue[0].0);
  }

  lemma BlameAt(c: Cluster, start: Id, faults: Faults, id: Id, at: Id)
    requires at in c.snippets && ReachedFrom(GraphOf(c), start, at)
    requires (id in faults.snippets && Edge(GraphOf(c), at, id)) || MissesLibrary(at, c.snippets[at], faults, id)
    ensures Blamed(c, start, faults, id)
  {
  }

  /** The expanded head leaves the queue. */
  lemma DropHead(c: Cluster, start: Id, snip: Snippet, g: Graph, dist: map<Id, nat>, p: Progress)
    requires Good(c, start, snip, g, dist, p) && p.queue != [] && p.queue[0].0 in g && p.queue[0].0 in dist
    requires Seen(g[p.queue[0].0], |g[p.queue[0].0]|, start, dist, dist[p.queue[0].0] + 1)
    ensures Good(c, start, snip, g, dist, p.(queue := p.queue[1..]))
  {
    assert Ids(p.queue)[0] == p.queue[0].0;
    SeenMeansExpanded(g, start, dist, p.queue[0].0);
    DropKeepsSearching(g, start, dist, p.parent, p.visited, Ids(p.queue));
    assert Ids(p.queue[1..]) == Ids(p.queue)[1..];
  }

  /** One turn of the outer loop: the queue's head is expanded and dropped. */
  method Advance(c: Cluster, start: Id, snip: Snippet, faults: Faults, p0: Progress, ghost dist0: map<Id, nat>)
    returns (found: Found, p: Progress, ghost dist: map<Id, nat>)
    requires Good(c, start, snip, GraphOf(Judged(c, start, snip)), dist0, p0) && p0.queue != []
    ensures Advanced(Judged(c, start, snip), start, faults, found)
    ensures found.Absent? ==>
        && Good(c, start, snip, GraphOf(Judged(c, start, snip)), dist, p)
        && p0.visited <= p.visited && (p.visited == p0.visited ==> |p.queue| < |p0.queue|)
  {
    ghost var j := Judged(c, start, snip);
    ghost var g := GraphOf(j);
    HeadIsReached(c, start, snip, g, dist0, p0);
    var (curId, cur) := p0.queue[0];
    var deps := SnippetDependencies(Judged(c, start, snip), curId, cur, faults);
    if deps.Err? {
      BlameAt(j, start, faults, deps.error, curId);
      return Transient(deps.error, curId), p0, dist0;
    }
    assert g[curId] == deps.value;
    found, p, dist := Expand(c, deps.value, start, snip, faults, p0, g, dist0, curId);
    if found.Transient? { BlameAt(j, start, faults, found.id, curId); }
    if found.Absent? {
      DropHead(c, start, snip, g, dist, p);
      p := p.(queue := p.queue[1..]);
    }
  }

  lemma SmallerSet(a: set<Id>, b: set<Id>)
    requires a < b
    ensures |a| < |b|
  {
    assert b == a + (b - a);
    assert b - a != {};
  }

  lemma Shrinks(g: Graph, p: Progress, next: Progress, dist: map<Id, nat>, dist': map<Id, nat>, c: Cluster,
                start: Id, snip: Snippet)
    requires Good(c, start, snip, g, dist, p) && Good(c, start, snip, g, dist', next)
    requires p.visited <= next.visited
    ensures next.visited == p.visited || |Nodes(g) - next.visited| < |Nodes(g) - p.visited|
  {
    if next.visited != p.visited {
      SmallerSet(Nodes(g) - next.visited, Nodes(g) - p.visited);
    }
  }

  lemma StartIsGood(c: Cluster, start: Id, snip: Snippet)
    ensures Good(c, start, snip, GraphOf(Judged(c, start, snip)), map[start := 0],
        Progress({start}, map[], [(start, snip)]))
  {
    assert Ids([(start, snip)]) == [start];
  }

  /** detectSourceRefCycle. On any snapshot the search ends; a verdict is right, a reported cycle is real and
      as short as any, and only a failing Get of something the search was led to withholds the verdict. */
  method DetectSourceRefCycle(c: Cluster, start: Id, snip: Snippet, faults: Faults)
    returns (r: Result<Option<seq<Id>>, Id>)
    ensures r.Ok? ==> Verdict(GraphOf(Judged(c, start, snip)), start, r.value)
    ensures r.Err? ==> Blamed(Judged(c, start, snip), start, faults, r.error)
  {
    if !HasCycleSourceEdge(snip) {
      NoEdgeNoCycle(c, start, snip);
      return Ok(None);
    }
    ghost var g := GraphOf(Judged(c, start, snip));
    ghost var dist: map<Id, nat> := map[start := 0];
    var p := Progress({start}, map[], [(start, snip)]);
    StartIsGood(c, start, snip);
    var found := Absent;
    while p.queue != [] && found.Absent?
      invariant found.Absent? ==> Good(c, start, snip, g, dist, p)
      invariant Advanced(Judged(c, start, snip), start, faults, found)
      decreases if found.Absent? then 1 else 0, |Nodes(g) - p.visited|, |p.queue|
    {
      var next;
      ghost var level;
      found, next, level := Advance(c, start, snip, faults, p, dist);
      if found.Absent? {
        Shrinks(g, p, next, dist, level, c, start, snip);
        p, dist := next, level;
      }
    }
    match found {
      case Transient(id, _) => return Err(id);
      case Reached(path) => return Ok(Some(path));
      case Absent =>
        assert Ids(p.queue) == [];
        ExhaustedMeansNone(g, start, dist);
        return Ok(None);
    }
  }
}
