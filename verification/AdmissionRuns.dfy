/** What the admission gate of internal/operator/webhook.go keeps true of the whole dependency graph. */
module AdmissionRuns {
  import opened Admission
  import opened CycleWalk
  import opened DependencyGraph
  import opened Wrappers

  /** The stored snippets, those being deleted, and the libraries. */
  datatype Registry = Registry(specs: map<Id, Spec>, terminating: set<Id>, libraries: map<Id, Library>)

  datatype Request =
    | Create(id: Id, spec: Spec)
    | Update(id: Id, spec: Spec)
    | Delete(id: Id)
    | Vanish(id: Id)

  function ClusterOf(r: Registry): Cluster {
    Cluster(map id | id in r.specs :: r.specs[id].snippet, r.libraries)
  }

  function Network(r: Registry): Graph { GraphOf(ClusterOf(r)) }

  ghost predicate Passes(cfg: Config, r: Registry, id: Id, spec: Spec) {
    WellFormed(cfg, spec) && !OnCycle(GraphOf(Judged(ClusterOf(r), id, spec.snippet)), id)
  }

  /** Admission of one request against the state it finds, with its two shortcuts. */
  ghost predicate Admitted(cfg: Config, r: Registry, req: Request) {
    match req
    case Create(id, spec) => id !in r.specs && Passes(cfg, r, id, spec)
    case Update(id, spec) =>
      id in r.specs && (id in r.terminating || InputsUnchanged(r.specs[id], spec) || Passes(cfg, r, id, spec))
    case Delete(id) => id in r.specs
    case Vanish(id) => id in r.terminating
  }

  function Apply(r: Registry, req: Request): Registry {
    match req
    case Create(id, spec) => r.(specs := r.specs[id := spec])
    case Update(id, spec) => r.(specs := r.specs[id := spec])
    case Delete(id) => r.(terminating := r.terminating + {id})
    case Vanish(id) => r.(specs := r.specs - {id}, terminating := r.terminating - {id})
  }

  /** Teardown writes leave the spec of a terminating snippet alone. */
  ghost predicate KeepsTerminating(r: Registry, req: Request) {
    req.Update? && req.id in r.terminating && req.id in r.specs ==> req.spec.snippet == r.specs[req.id].snippet
  }

  ghost predicate Run(cfg: Config, states: seq<Registry>, reqs: seq<Request>) {
    && |states| == |reqs| + 1
    && forall i :: 0 <= i < |reqs| ==> Admitted(cfg, states[i], reqs[i]) && states[i + 1] == Apply(states[i], reqs[i])
  }

  // -- one node changes ---------------------------------------------------------------

  lemma {:induction false} SameLibraryDeps(a: Cluster, b: Cluster, refs: seq<LibraryRef>, ns: string)
    requires a.libraries == b.libraries
    ensures LibraryDeps(a, refs, ns) == LibraryDeps(b, refs, ns)
  {
    if refs == [] {
    } else {
      SameLibraryDeps(a, b, refs[..|refs| - 1], ns);
    }
  }

  /** What a snippet reads depends on its spec and the libraries only. */
  lemma SameDeps(a: Cluster, b: Cluster, id: Id, snip: Snippet)
    requires a.libraries == b.libraries
    ensures Deps(a, id, snip) == Deps(b, id, snip)
  {
    SameLibraryDeps(a, b, snip.libraries, id.namespace);
  }

  lemma JudgedGraph(c: Cluster, id: Id, snip: Snippet)
    ensures GraphOf(Judged(c, id, snip)) == GraphOf(c)[id := Deps(c, id, snip)]
  {
    var g, h := GraphOf(Judged(c, id, snip)), GraphOf(c)[id := Deps(c, id, snip)];
    forall x | x in g ensures g[x] == h[x] {
      SameDeps(Judged(c, id, snip), c, x, Judged(c, id, snip).snippets[x]);
    }
  }

  /** A cycle can be entered at any of its nodes. */
  lemma EveryNodeOnCycle(g: Graph, x: Id, p: seq<Id>, i: nat)
    requires Cycle(g, x, p) && i < |p|
    ensures OnCycle(g, p[i])
  {
    if 0 < i < |p| - 1 {
      WalkSlice(g, p, 0, i + 1);
      WalkSlice(g, p, i, |p|);
      var front, back := p[0..i + 1], p[i..|p|];
      assert front[|front| - 1] == p[i] && back[|back| - 1] == x && back[0] == p[i];
      WalkConcat(g, back, front);
      assert Cycle(g, p[i], back + front[1..]);
    }
  }

  lemma OnlyNodesCycle(g: Graph, x: Id, p: seq<Id>)
    requires Acyclic(g)
    ensures !Cycle(g, x, p)
  {
    if Cycle(g, x, p) { assert Edge(g, p[0], p[1]) && OnCycle(g, x); }
  }

  /** Any new cycle runs through the node that changed. */
  lemma ChangeKeepsAcyclic(g: Graph, id: Id, deps: seq<Id>)
    requires Acyclic(g) && !OnCycle(g[id := deps], id)
    ensures Acyclic(g[id := deps])
  {
    var h := g[id := deps];
    forall x, p ensures !Cycle(h, x, p) {
      if Cycle(h, x, p) {
        if i :| 0 <= i < |p| && p[i] == id {
          EveryNodeOnCycle(h, x, p, i);
        } else {
          forall i | 0 < i < |p| ensures Edge(g, p[i - 1], p[i]) {
            assert Edge(h, p[i - 1], p[i]);
          }
          OnlyNodesCycle(g, x, p);
        }
      }
    }
  }

  lemma FewerEdgesStayAcyclic(g: Graph, h: Graph)
    requires Acyclic(g) && forall x <- h.Keys :: x in g && h[x] == g[x]
    ensures Acyclic(h)
  {
    forall x, p ensures !Cycle(h, x, p) {
      if Cycle(h, x, p) {
        forall i | 0 < i < |p| ensures Edge(g, p[i - 1], p[i]) {
          assert Edge(h, p[i - 1], p[i]);
        }
        OnlyNodesCycle(g, x, p);
      }
    }
  }

  // -- the gate -----------------------------------------------------------------------

  lemma StoredGraph(r: Registry, id: Id, spec: Spec)
    ensures Network(r.(specs := r.specs[id := spec])) == GraphOf(Judged(ClusterOf(r), id, spec.snippet))
  {
    assert ClusterOf(r.(specs := r.specs[id := spec])) == Judged(ClusterOf(r), id, spec.snippet);
  }

  /** On an acyclic graph the walk's verdict about one snippet settles the whole graph: it denies for a cycle
      exactly the specs that would make the stored graph cyclic. */
  lemma GateIsExact(r: Registry, id: Id, spec: Spec)
    requires Acyclic(Network(r))
    ensures !OnCycle(GraphOf(Judged(ClusterOf(r), id, spec.snippet)), id) <==>
        Acyclic(Network(r.(specs := r.specs[id := spec])))
  {
    StoredGraph(r, id, spec);
    JudgedGraph(ClusterOf(r), id, spec.snippet);
    var g, deps := Network(r), Deps(ClusterOf(r), id, spec.snippet);
    if !OnCycle(g[id := deps], id) {
      ChangeKeepsAcyclic(g, id, deps);
    } else {
      assert id in g[id := deps];
    }
  }

  lemma UnchangedSpecKeepsGraph(r: Registry, id: Id, spec: Spec)
    requires id in r.specs && r.specs[id].snippet == spec.snippet
    ensures Network(r.(specs := r.specs[id := spec])) == Network(r)
  {
    assert ClusterOf(r.(specs := r.specs[id := spec])) == ClusterOf(r);
  }

  lemma VanishKeepsAcyclic(r: Registry, id: Id)
    requires Acyclic(Network(r))
    ensures Acyclic(Network(Apply(r, Vanish(id))))
  {
    var g, h := Network(r), Network(Apply(r, Vanish(id)));
    forall x | x in h ensures x in g && h[x] == g[x] {
      SameDeps(ClusterOf(r), ClusterOf(Apply(r, Vanish(id))), x, r.specs[x].snippet);
    }
    FewerEdgesStayAcyclic(g, h);
  }

  lemma RequestKeepsAcyclic(cfg: Config, r: Registry, req: Request)
    requires Acyclic(Network(r)) && Admitted(cfg, r, req) && KeepsTerminating(r, req)
    ensures Acyclic(Network(Apply(r, req)))
  {
    match req {
      case Create(id, spec) => GateIsExact(r, id, spec);
      case Update(id, spec) =>
        if r.specs[id].snippet == spec.snippet {
          UnchangedSpecKeepsGraph(r, id, spec);
        } else {
          GateIsExact(r, id, spec);
        }
      case Delete(id) => assert ClusterOf(Apply(r, req)) == ClusterOf(r);
      case Vanish(id) => VanishKeepsAcyclic(r, id);
    }
  }

  /** From an acyclic graph, any sequence of admitted requests keeps the whole graph acyclic: unvalidated updates
      included, libraries fixed, and no spec edit to a terminating snippet. */
  lemma {:induction false} AdmissionKeepsAcyclic(cfg: Config, states: seq<Registry>, reqs: seq<Request>)
    requires Run(cfg, states, reqs) && Acyclic(Network(states[0]))
    requires forall i :: 0 <= i < |reqs| ==> KeepsTerminating(states[i], reqs[i])
    ensures Acyclic(Network(states[|reqs|]))
    decreases |reqs|
  {
    if reqs == [] {
    } else {
      var n := |reqs| - 1;
      AdmissionKeepsAcyclic(cfg, states[..n + 1], reqs[..n]);
      RequestKeepsAcyclic(cfg, states[n], reqs[n]);
    }
  }

  // -- applying a set of snippets ----------------------------------------------------------

  /** The snippets of r named so far in the order given, none of them being deleted. */
  ghost function Partly(r: Registry, order: seq<Id>, n: nat): Registry
    requires n <= |order|
  {
    Registry(map id | id in r.specs && id in order[..n] :: r.specs[id], {}, r.libraries)
  }

  ghost function Stages(r: Registry, order: seq<Id>): seq<Registry> {
    seq(|order| + 1, i requires 0 <= i <= |order| => Partly(r, order, i))
  }

  ghost function Creates(r: Registry, order: seq<Id>): seq<Request>
    requires forall id <- order :: id in r.specs
  {
    seq(|order|, i requires 0 <= i < |order| => Create(order[i], r.specs[order[i]]))
  }

  lemma PartlyAcyclic(r: Registry, order: seq<Id>, n: nat)
    requires n <= |order| && Acyclic(Network(r))
    ensures Acyclic(Network(Partly(r, order, n)))
  {
    var g, h := Network(r), Network(Partly(r, order, n));
    forall x | x in h ensures x in g && h[x] == g[x] {
      SameDeps(ClusterOf(r), ClusterOf(Partly(r, order, n)), x, r.specs[x].snippet);
    }
    FewerEdgesStayAcyclic(g, h);
  }

  lemma NextStage(r: Registry, order: seq<Id>, n: nat)
    requires n < |order| && order[n] in r.specs
    ensures Partly(r, order, n + 1) == Apply(Partly(r, order, n), Create(order[n], r.specs[order[n]]))
  {
    assert order[..n + 1] == order[..n] + [order[n]];
  }

  lemma EmptyAcyclic(r: Registry)
    requires r.specs == map[]
    ensures Acyclic(Network(r))
  {
    forall x, p ensures !Cycle(Network(r), x, p) {
      assert Cycle(Network(r), x, p) ==> Edge(Network(r), p[0], p[1]);
    }
  }

  lemma StageAdmitted(cfg: Config, r: Registry, order: seq<Id>, n: nat)
    requires n < |order| && order[n] in r.specs && order[n] !in order[..n]
    requires WellFormed(cfg, r.specs[order[n]]) && Acyclic(Network(r))
    ensures Admitted(cfg, Partly(r, order, n), Create(order[n], r.specs[order[n]]))
  {
    NextStage(r, order, n);
    PartlyAcyclic(r, order, n);
    PartlyAcyclic(r, order, n + 1);
    GateIsExact(Partly(r, order, n), order[n], r.specs[order[n]]);
  }

  lemma StagesAreRun(cfg: Config, r: Registry, order: seq<Id>)
    requires forall i, j :: 0 <= i < j < |order| ==> order[i] != order[j]
    requires Acyclic(Network(r)) && forall id <- order :: id in r.specs && WellFormed(cfg, r.specs[id])
    ensures Run(cfg, Stages(r, order), Creates(r, order))
  {
    var states, reqs := Stages(r, order), Creates(r, order);
    forall i | 0 <= i < |order|
      ensures Admitted(cfg, states[i], reqs[i]) && states[i + 1] == Apply(states[i], reqs[i])
    {
      assert order[i] in order;
      NextStage(r, order, i);
      StageAdmitted(cfg, r, order, i);
    }
  }

  lemma FirstAndLastStage(r: Registry, order: seq<Id>)
    requires forall id :: id in order <==> id in r.specs
    ensures Stages(r, order)[0] == Registry(map[], {}, r.libraries)
    ensures Stages(r, order)[|order|] == r.(terminating := {})
  {
    assert order[..|order|] == order;
    assert Partly(r, order, |order|).specs == r.specs;
  }

  lemma StagesStayAcyclic(cfg: Config, r: Registry, order: seq<Id>)
    requires (forall id <- order :: id in r.specs) && Run(cfg, Stages(r, order), Creates(r, order))
    ensures Acyclic(Network(Stages(r, order)[|order|]))
  {
    EmptyAcyclic(Stages(r, order)[0]);
    AdmissionKeepsAcyclic(cfg, Stages(r, order), Creates(r, order));
  }

  /** A set of well-formed snippets can be applied one by one, in whatever order, iff all of them together form no
      cycle. */
  lemma AppliesInAnyOrderIff(cfg: Config, r: Registry, order: seq<Id>)
    requires forall i, j :: 0 <= i < j < |order| ==> order[i] != order[j]
    requires (forall id :: id in order <==> id in r.specs) && forall id <- r.specs.Keys :: WellFormed(cfg, r.specs[id])
    ensures Run(cfg, Stages(r, order), Creates(r, order)) <==> Acyclic(Network(r))
    ensures Stages(r, order)[0] == Registry(map[], {}, r.libraries)
    ensures Stages(r, order)[|order|] == r.(terminating := {})
  {
    FirstAndLastStage(r, order);
    assert ClusterOf(r.(terminating := {})) == ClusterOf(r);
    if Acyclic(Network(r)) { StagesAreRun(cfg, r, order); }
    if Run(cfg, Stages(r, order), Creates(r, order)) { StagesStayAcyclic(cfg, r, order); }
  }

  /** Deleting undoes creating. */
  lemma CreateUndone(cfg: Config, r: Registry, id: Id, spec: Spec)
    requires id !in r.specs && id !in r.terminating && Passes(cfg, r, id, spec)
    ensures var there := r.(specs := r.specs[id := spec]);
      Run(cfg, [r, there, there.(terminating := r.terminating + {id}), r], [Create(id, spec), Delete(id), Vanish(id)])
  {
    assert r.specs[id := spec] - {id} == r.specs && r.terminating + {id} - {id} == r.terminating;
  }

  // -- library edits ---------------------------------------------------------------------

  function WithLibrary(r: Registry, lib: Id, value: Library): Registry { r.(libraries := r.libraries[lib := value]) }

  /** The snippet names the library. */
  ghost predicate NamesLibrary(r: Registry, id: Id, lib: Id) {
    id in r.specs && exists ref <- r.specs[id].snippet.libraries ::
        ref.kind == LIBRARY && LibraryId(ref, id.namespace) == lib
  }

  lemma {:induction false} OtherLibraryDeps(a: Cluster, b: Cluster, refs: seq<LibraryRef>, ns: string, lib: Id)
    requires forall x :: x != lib ==> (x in a.libraries <==> x in b.libraries)
    requires forall x :: x != lib && x in a.libraries ==> a.libraries[x] == b.libraries[x]
    requires forall ref <- refs :: ref.kind == LIBRARY ==> LibraryId(ref, ns) != lib
    ensures LibraryDeps(a, refs, ns) == LibraryDeps(b, refs, ns)
  {
    if refs == [] {
    } else {
      OtherLibraryDeps(a, b, refs[..|refs| - 1], ns, lib);
      assert refs[|refs| - 1] in refs;
    }
  }

  /** An edit of one library moves only the edges of the snippets that name it. */
  lemma OnlyNamersChange(r: Registry, lib: Id, value: Library, id: Id)
    requires id in r.specs && !NamesLibrary(r, id, lib)
    ensures Network(WithLibrary(r, lib, value))[id] == Network(r)[id]
  {
    var snip := r.specs[id].snippet;
    OtherLibraryDeps(ClusterOf(WithLibrary(r, lib, value)), ClusterOf(r), snip.libraries, id.namespace, lib);
  }

  /** A cycle that avoids every changed node was there before. */
  lemma UnchangedCycle(g: Graph, h: Graph, x: Id, p: seq<Id>)
    requires Cycle(h, x, p) && forall i :: 0 <= i < |p| ==> p[i] in g && p[i] in h && g[p[i]] == h[p[i]]
    ensures Cycle(g, x, p)
  {
    forall i | 0 < i < |p| ensures Edge(g, p[i - 1], p[i]) {
      assert Edge(h, p[i - 1], p[i]);
    }
  }

  lemma CycleNodesAreSnippets(g: Graph, x: Id, p: seq<Id>, i: nat)
    requires Cycle(g, x, p) && i < |p|
    ensures p[i] in g
  {
    assert Edge(g, p[0], p[1]);
    if i < |p| - 1 { assert Edge(g, p[i], p[i + 1]); }
  }

  lemma EditedCycleNeedsNamer(r: Registry, lib: Id, value: Library, x: Id, p: seq<Id>)
    requires Acyclic(Network(r)) && Cycle(Network(WithLibrary(r, lib, value)), x, p)
    ensures exists id <- r.specs.Keys :: NamesLibrary(r, id, lib) && OnCycle(Network(WithLibrary(r, lib, value)), id)
  {
    var g, h := Network(r), Network(WithLibrary(r, lib, value));
    if i :| 0 <= i < |p| && NamesLibrary(r, p[i], lib) {
      EveryNodeOnCycle(h, x, p, i);
    } else {
      forall i | 0 <= i < |p| ensures p[i] in g && p[i] in h && g[p[i]] == h[p[i]] {
        CycleNodesAreSnippets(h, x, p, i);
        OnlyNamersChange(r, lib, value, p[i]);
      }
      UnchangedCycle(g, h, x, p);
      OnlyNodesCycle(g, x, p);
    }
  }

  /** Exactly when a library edit keeps the graph acyclic: no snippet naming the library is on a cycle afterwards.
      The walk from those snippets alone would settle it. */
  lemma LibraryEditKeepsAcyclicIff(r: Registry, lib: Id, value: Library)
    requires Acyclic(Network(r))
    ensures var h := Network(WithLibrary(r, lib, value));
      Acyclic(h) <==> forall id <- r.specs.Keys :: NamesLibrary(r, id, lib) ==> !OnCycle(h, id)
  {
    var g, h := Network(r), Network(WithLibrary(r, lib, value));
    if forall id <- r.specs.Keys :: NamesLibrary(r, id, lib) ==> !OnCycle(h, id) {
      forall x, p ensures !Cycle(h, x, p) {
        if Cycle(h, x, p) { EditedCycleNeedsNamer(r, lib, value, x, p); }
      }
    }
  }

  // -- what the hypotheses are for ------------------------------------------------------

  function Reading(ns: string, name: string): Snippet {
    Snippet(Some(SourceRef("", ARTIFACT, ns, name, "")), [])
  }

  function Plain(snip: Snippet): Spec { Spec(snip, [], map[], "", false, 0) }

  lemma SelfReadCycles(g: Graph, id: Id)
    requires id in g && id in g[id]
    ensures OnCycle(g, id) && !Acyclic(g)
  {
    assert Walk(g, [id, id]);
    assert Cycle(g, id, [id, id]);
  }

  /** A spec edit to a terminating snippet is admitted whatever it says. */
  lemma TerminatingEditCanCycle(cfg: Config, id: Id, before: Snippet)
    requires id.namespace != "" && before == Snippet(None, [])
    ensures var r := Registry(map[id := Plain(before)], {id}, map[]);
      var req := Update(id, Plain(Reading(id.namespace, id.name)));
      Acyclic(Network(r)) && Admitted(cfg, r, req) && !Acyclic(Network(Apply(r, req)))
  {
    var r := Registry(map[id := Plain(before)], {id}, map[]);
    var req := Update(id, Plain(Reading(id.namespace, id.name)));
    forall x, p ensures !Cycle(Network(r), x, p) {
      assert Cycle(Network(r), x, p) ==> Edge(Network(r), p[0], p[1]);
    }
    SelfReadCycles(Network(Apply(r, req)), id);
  }

  /** Libraries have no webhook: pointing one at a reader's own artifact closes a cycle no request was denied for. */
  lemma LibraryEditCanCycle(id: Id, lib: Id)
    requires id.namespace != "" && lib.namespace != ""
    ensures var snip := Snippet(None, [LibraryRef("", LIBRARY, lib.namespace, lib.name, "")]);
      var before := Registry(map[id := Plain(snip)], {}, map[lib := Library(None)]);
      var after := WithLibrary(before, lib, Library(Some(SourceRef("", ARTIFACT, id.namespace, id.name, ""))));
      Acyclic(Network(before)) && !Acyclic(Network(after))
  {
    var refs := [LibraryRef("", LIBRARY, lib.namespace, lib.name, "")];
    var snip := Snippet(None, refs);
    var before := Registry(map[id := Plain(snip)], {}, map[lib := Library(None)]);
    var after := WithLibrary(before, lib, Library(Some(SourceRef("", ARTIFACT, id.namespace, id.name, ""))));
    assert refs[..0] == [];
    assert LibraryDeps(ClusterOf(before), refs, id.namespace) == [];
    forall x, p ensures !Cycle(Network(before), x, p) {
      assert Cycle(Network(before), x, p) ==> Edge(Network(before), p[0], p[1]);
    }
    assert LibraryDeps(ClusterOf(after), refs, id.namespace) == [id];
    SelfReadCycles(Network(after), id);
  }
}
