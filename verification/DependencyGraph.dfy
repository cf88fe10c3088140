/** The snippet dependency graph that internal/operator/cycle.go walks: a snippet depends on the publishers
    of the ExternalArtifacts it reads, directly or through its libraries. */
module DependencyGraph {
  import opened Wrappers

  datatype Id = Id(namespace: string, name: string)

  datatype SourceRef = SourceRef(apiVersion: string, kind: string, namespace: string, name: string, path: string)

  datatype LibraryRef = LibraryRef(apiVersion: string, kind: string, namespace: string, name: string,
                                   importPath: string)

  datatype Snippet = Snippet(sourceRef: Option<SourceRef>, libraries: seq<LibraryRef>)

  datatype Library = Library(sourceRef: Option<SourceRef>)

  datatype Cluster = Cluster(snippets: map<Id, Snippet>, libraries: map<Id, Library>)

  /** Objects whose Get fails with something other than NotFound. */
  datatype Faults = Faults(snippets: set<Id>, libraries: set<Id>)

  const ARTIFACT := "ExternalArtifact"
  const LIBRARY := "JsonnetLibrary"

  function Default(namespace: string, owner: string): string {
    if namespace == "" then owner else namespace
  }

  function ExternalArtifactDep(ref: Option<SourceRef>, ownerNs: string): Option<Id> {
    if ref.None? || ref.value.kind != ARTIFACT then None
    else Some(Id(Default(ref.value.namespace, ownerNs), ref.value.name))
  }

  function LibraryId(ref: LibraryRef, ownerNs: string): Id {
    Id(Default(ref.namespace, ownerNs), ref.name)
  }

  /** A library's own sourceRef, read relative to the library's namespace. */
  function LibraryDep(c: Cluster, ref: LibraryRef, ownerNs: string): Option<Id> {
    var id := LibraryId(ref, ownerNs);
    if ref.kind == LIBRARY && id in c.libraries then ExternalArtifactDep(c.libraries[id].sourceRef, id.namespace)
    else None
  }

  function ToSeq<T>(o: Option<T>): seq<T> {
    if o.Some? then [o.value] else []
  }

  function LibraryDeps(c: Cluster, refs: seq<LibraryRef>, ownerNs: string): seq<Id> {
    if refs == [] then []
    else LibraryDeps(c, refs[..|refs| - 1], ownerNs) + ToSeq(LibraryDep(c, refs[|refs| - 1], ownerNs))
  }

  function Deps(c: Cluster, id: Id, snip: Snippet): seq<Id> {
    ToSeq(ExternalArtifactDep(snip.sourceRef, id.namespace)) + LibraryDeps(c, snip.libraries, id.namespace)
  }

  lemma {:induction false} LibraryDepsMembers(c: Cluster, refs: seq<LibraryRef>, ownerNs: string, dep: Id)
    ensures dep in LibraryDeps(c, refs, ownerNs) <==> exists ref <- refs :: LibraryDep(c, ref, ownerNs) == Some(dep)
  {
    if refs == [] {
    } else {
      var init, last := refs[..|refs| - 1], refs[|refs| - 1];
      LibraryDepsMembers(c, init, ownerNs, dep);
      assert refs == init + [last];
      assert dep in ToSeq(LibraryDep(c, last, ownerNs)) <==> LibraryDep(c, last, ownerNs) == Some(dep);
    }
  }

  /** b's artifact is an input of a: directly, or through one of a's libraries. */
  ghost predicate ReadsFrom(c: Cluster, a: Id, snip: Snippet, b: Id) {
    || ExternalArtifactDep(snip.sourceRef, a.namespace) == Some(b)
    || exists ref <- snip.libraries :: LibraryDep(c, ref, a.namespace) == Some(b)
  }

  lemma DepsMembers(c: Cluster, a: Id, snip: Snippet, b: Id)
    ensures b in Deps(c, a, snip) <==> ReadsFrom(c, a, snip, b)
  {
    LibraryDepsMembers(c, snip.libraries, a.namespace, b);
  }

  lemma LibraryDepsAppend(c: Cluster, refs: seq<LibraryRef>, i: nat, ownerNs: string)
    requires i < |refs|
    ensures LibraryDeps(c, refs[..i + 1], ownerNs) ==
            LibraryDeps(c, refs[..i], ownerNs) + ToSeq(LibraryDep(c, refs[i], ownerNs))
  {
    assert refs[..i + 1][..i] == refs[..i];
  }

  /** The library's Get fails. */
  predicate Unreadable(ref: LibraryRef, ownerNs: string, faults: Faults) {
    ref.kind == LIBRARY && LibraryId(ref, ownerNs) in faults.libraries
  }

  /** librarySourceRef and the dependency it leads to; only a Get that fails withholds it. */
  method LibrarySource(c: Cluster, ref: LibraryRef, ownerNs: string, faults: Faults) returns (r: Result<seq<Id>, Id>)
    ensures r.Ok? ==> r.value == ToSeq(LibraryDep(c, ref, ownerNs))
    ensures r.Err? <==> ref.kind == LIBRARY && LibraryId(ref, ownerNs) in faults.libraries
    ensures r.Err? <==> Unreadable(ref, ownerNs, faults)
    ensures r.Err? ==> r.error == LibraryId(ref, ownerNs)
  {
    if ref.kind != LIBRARY { return Ok([]); }
    var lib := LibraryId(ref, ownerNs);
    if lib in faults.libraries { return Err(lib); }
    if lib !in c.libraries { return Ok([]); }
    return Ok(ToSeq(ExternalArtifactDep(c.libraries[lib].sourceRef, lib.namespace)));
  }

  /** Where the loop stands after its first i libraries. */
  ghost predicate Gathered(c: Cluster, refs: seq<LibraryRef>, ownerNs: string, faults: Faults, i: nat, ids: seq<Id>)
    requires i <= |refs|
  {
    ids == LibraryDeps(c, refs[..i], ownerNs) && forall j :: 0 <= j < i ==> !Unreadable(refs[j], ownerNs, faults)
  }

  lemma GatherOne(c: Cluster, refs: seq<LibraryRef>, ownerNs: string, faults: Faults, i: nat, ids: seq<Id>,
                  found: seq<Id>)
    requires i < |refs| && Gathered(c, refs, ownerNs, faults, i, ids)
    requires !Unreadable(refs[i], ownerNs, faults) && found == ToSeq(LibraryDep(c, refs[i], ownerNs))
    ensures Gathered(c, refs, ownerNs, faults, i + 1, ids + found)
  {
    LibraryDepsAppend(c, refs, i, ownerNs);
  }

  /** The loop of snippetDependencies over the libraries. */
  method LibrarySources(c: Cluster, refs: seq<LibraryRef>, ownerNs: string, faults: Faults)
    returns (r: Result<seq<Id>, Id>)
    ensures r.Ok? ==>
        r.value == LibraryDeps(c, refs, ownerNs) && forall ref <- refs :: !Unreadable(ref, ownerNs, faults)
    ensures r.Err? ==> exists ref <- refs :: Unreadable(ref, ownerNs, faults) && r.error == LibraryId(ref, ownerNs)
  {
    var ids: seq<Id> := [];
    for i := 0 to |refs|
      invariant Gathered(c, refs, ownerNs, faults, i, ids)
    {
      var found := LibrarySource(c, refs[i], ownerNs, faults);
      if found.Err? {
        assert refs[i] in refs;
        return Err(found.error);
      }
      GatherOne(c, refs, ownerNs, faults, i, ids, found.value);
      ids := ids + found.value;
    }
    assert refs[..|refs|] == refs;
    return Ok(ids);
  }

  /** lib is a library the snippet names, and its Get fails. */
  ghost predicate MissesLibrary(id: Id, snip: Snippet, faults: Faults, lib: Id) {
    exists ref <- snip.libraries :: Unreadable(ref, id.namespace, faults) && lib == LibraryId(ref, id.namespace)
  }

  /** snippetDependencies: only a failing Get of a library the snippet names withholds the answer. */
  method SnippetDependencies(c: Cluster, id: Id, snip: Snippet, faults: Faults) returns (r: Result<seq<Id>, Id>)
    ensures r.Ok? ==> r.value == Deps(c, id, snip)
    ensures r.Err? <==> exists ref <- snip.libraries :: Unreadable(ref, id.namespace, faults)
    ensures r.Err? ==> MissesLibrary(id, snip, faults, r.error)
  {
    var through := LibrarySources(c, snip.libraries, id.namespace, faults);
    if through.Err? { return Err(through.error); }
    return Ok(ToSeq(ExternalArtifactDep(snip.sourceRef, id.namespace)) + through.value);
  }

  // -- the graph -----------------------------------------------------------------

  /** What each existing snippet depends on; an id outside the domain is a leaf. */
  type Graph = map<Id, seq<Id>>

  function GraphOf(c: Cluster): Graph {
    map id | id in c.snippets :: Deps(c, id, c.snippets[id])
  }

  ghost predicate Edge(g: Graph, a: Id, b: Id) {
    a in g && b in g[a]
  }

  ghost predicate Walk(g: Graph, p: seq<Id>) {
    p != [] && forall i :: 0 < i < |p| ==> Edge(g, p[i - 1], p[i])
  }

  /** From id back to id by one or more edges. */
  ghost predicate Cycle(g: Graph, id: Id, p: seq<Id>) {
    Walk(g, p) && |p| >= 2 && p[0] == id && p[|p| - 1] == id
  }

  ghost predicate OnCycle(g: Graph, id: Id) {
    exists p :: Cycle(g, id, p)
  }

  ghost predicate Acyclic(g: Graph) {
    forall id <- g.Keys :: !OnCycle(g, id)
  }

  /** Every snippet and everything one depends on. */
  ghost function Nodes(g: Graph): set<Id> {
    g.Keys + set a, b | a in g && b in g[a] :: b
  }

  lemma WalkConcat(g: Graph, p: seq<Id>, q: seq<Id>)
    requires Walk(g, p) && Walk(g, q) && p[|p| - 1] == q[0]
    ensures Walk(g, p + q[1..])
    ensures (p + q[1..])[0] == p[0] && (p + q[1..])[|p + q[1..]| - 1] == q[|q| - 1]
  {
    var w := p + q[1..];
    forall i | 0 < i < |w| ensures Edge(g, w[i - 1], w[i]) {
      if i < |p| {
        assert w[i - 1] == p[i - 1] && w[i] == p[i];
      } else {
        assert w[i - 1] == q[i - |p|] && w[i] == q[i - |p| + 1];
      }
    }
  }

  lemma WalkSlice(g: Graph, p: seq<Id>, i: nat, j: nat)
    requires Walk(g, p) && i < j <= |p|
    ensures Walk(g, p[i..j])
  {
    var w := p[i..j];
    forall k | 0 < k < |w| ensures Edge(g, w[k - 1], w[k]) {
      assert w[k - 1] == p[i + k - 1] && w[k] == p[i + k];
    }
  }

  // -- what an edge means ------------------------------------------------------------

  /** ref, written in an object of this namespace, names the artifact b publishes. */
  ghost predicate Publishes(ref: Option<SourceRef>, ownerNs: string, b: Id) {
    && ref.Some? && ref.value.kind == "ExternalArtifact" && ref.value.name == b.name
    && b.namespace == if ref.value.namespace == "" then ownerNs else ref.value.namespace
  }

  /** ref, written in a snippet of this namespace, names this library. */
  ghost predicate NamesLibraryAt(ref: LibraryRef, ownerNs: string, lib: Id) {
    && ref.kind == "JsonnetLibrary" && ref.name == lib.name
    && lib.namespace == if ref.namespace == "" then ownerNs else ref.namespace
  }

  ghost predicate ThroughLibrary(c: Cluster, ref: LibraryRef, ownerNs: string, b: Id) {
    exists lib <- c.libraries.Keys ::
      NamesLibraryAt(ref, ownerNs, lib) && Publishes(c.libraries[lib].sourceRef, lib.namespace, b)
  }

  lemma LibraryDepMeans(c: Cluster, ref: LibraryRef, ownerNs: string, b: Id)
    ensures LibraryDep(c, ref, ownerNs) == Some(b) <==> ThroughLibrary(c, ref, ownerNs, b)
  {
    var lib := LibraryId(ref, ownerNs);
    if LibraryDep(c, ref, ownerNs) == Some(b) { assert NamesLibraryAt(ref, ownerNs, lib); }
    if l :| l in c.libraries && NamesLibraryAt(ref, ownerNs, l) && Publishes(c.libraries[l].sourceRef, l.namespace, b) {
      assert l == lib;
    }
  }

  /** An edge is a reference to b's artifact, in the snippet itself or in a library it names; a reference that gives no
      namespace means that of the object it is written in. */
  lemma EdgeMeans(c: Cluster, a: Id, b: Id)
    ensures Edge(GraphOf(c), a, b) <==>
        a in c.snippets &&
        (Publishes(c.snippets[a].sourceRef, a.namespace, b) ||
         exists ref <- c.snippets[a].libraries :: ThroughLibrary(c, ref, a.namespace, b))
  {
    if a in c.snippets {
      var snip := c.snippets[a];
      DepsMembers(c, a, snip, b);
      forall ref ensures LibraryDep(c, ref, a.namespace) == Some(b) <==> ThroughLibrary(c, ref, a.namespace, b) {
        LibraryDepMeans(c, ref, a.namespace, b);
      }
    }
  }

  /** A snippet that reads the artifact of its own name, giving no namespace or its own, is on a cycle. */
  lemma SelfReferenceCycles(c: Cluster, id: Id, ref: SourceRef)
    requires id in c.snippets && c.snippets[id].sourceRef == Some(ref)
    requires ref.kind == "ExternalArtifact" && ref.name == id.name && ref.namespace in {"", id.namespace}
    ensures OnCycle(GraphOf(c), id)
  {
    EdgeMeans(c, id, id);
    assert Cycle(GraphOf(c), id, [id, id]);
  }
}
