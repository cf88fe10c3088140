/** SnippetValidator of internal/operator/webhook.go: what one admission request is checked for. */
module Admission {
  import opened CycleWalk
  import opened DependencyGraph
  import opened EntryNames
  import GoPath
  import opened Strings
  import opened Wrappers

  datatype Variable = Variable(name: string, value: string)

  /** suspend and interval stand for the fields the webhook does not look at. */
  datatype Spec = Spec(
    snippet: Snippet,
    variables: seq<Variable>,
    files: map<string, string>,
    output: string,
    suspend: bool,
    interval: int)

  /** The operator's --ext-var names and the aliases of its OCI-mounted libraries. */
  datatype Config = Config(extVars: set<string>, knownAliases: seq<string>)

  datatype Denial =
    | Conflicts(names: seq<string>)
    | ShadowsMounted(name: string)
    | BadAlias(name: string)
    | DuplicatePath(name: string)
    | UnsafeFile(name: string)
    | LookupFailed(id: Id)
    | FormsCycle(path: seq<Id>)

  const SOURCE := "source"

  function EffectiveAlias(ref: LibraryRef): string {
    if ref.importPath != "" then ref.importPath else ref.name
  }

  predicate IsAliasChar(c: char) {
    'A' <= c <= 'Z' || 'a' <= c <= 'z' || '0' <= c <= '9' || c == '.' || c == '_' || c == '-'
  }

  lemma AliasCharIff(c: char)
    ensures IsAliasChar(c) <==> IsLower(c) || IsUpper(c) || IsDigit(c) || c in "._-"
  {
    LowerRange(c);
    UpperRange(c);
    DigitRange(c);
    assert c in "._-" <==> c == '.' || c == '_' || c == '-' by {
      assert "._-"[0] == '.' && "._-"[1] == '_' && "._-"[2] == '-';
    }
  }

  predicate SafeLibraryAlias(a: string) {
    a != "" && a != "." && a != ".." && forall c <- a :: IsAliasChar(c)
  }

  /** A safe alias is one path element, free of NUL. */
  lemma SafeAliasIsOneElement(a: string)
    requires SafeLibraryAlias(a)
    ensures GoPath.Plain(a) && '\0' !in a
  {
  }

  // The three scans below answer with the offending alias, "" standing for none. The API schema requires a
  // library's name, so no effective alias is empty.

  method InvalidLibraryImportAlias(refs: seq<LibraryRef>) returns (bad: string)
    requires forall ref <- refs :: EffectiveAlias(ref) != ""
    ensures bad == "" <==> forall ref <- refs :: SafeLibraryAlias(EffectiveAlias(ref))
    ensures bad != "" ==> exists i :: 0 <= i < |refs| && EffectiveAlias(refs[i]) == bad && !SafeLibraryAlias(bad) &&
                                   forall j :: 0 <= j < i ==> SafeLibraryAlias(EffectiveAlias(refs[j]))
  {
    for i := 0 to |refs|
      invariant forall j :: 0 <= j < i ==> SafeLibraryAlias(EffectiveAlias(refs[j]))
    {
      assert refs[i] in refs;
      if !SafeLibraryAlias(EffectiveAlias(refs[i])) { return EffectiveAlias(refs[i]); }
    }
    return "";
  }

  ghost predicate DistinctAliases(refs: seq<LibraryRef>) {
    forall i, j :: 0 <= i < j < |refs| ==> EffectiveAlias(refs[i]) != EffectiveAlias(refs[j])
  }

  method DuplicateLibraryImportPath(refs: seq<LibraryRef>) returns (dup: string)
    requires forall ref <- refs :: EffectiveAlias(ref) != ""
    ensures dup == "" <==> DistinctAliases(refs)
    ensures dup != "" ==>
        exists i, j :: 0 <= i < j < |refs| && EffectiveAlias(refs[i]) == dup == EffectiveAlias(refs[j]) &&
                                      DistinctAliases(refs[..j])
  {
    if |refs| < 2 { return ""; }
    var seen: set<string> := {};
    for i := 0 to |refs|
      invariant seen == set j | 0 <= j < i :: EffectiveAlias(refs[j])
      invariant forall j, k :: 0 <= j < k < i ==> EffectiveAlias(refs[j]) != EffectiveAlias(refs[k])
    {
      var key := EffectiveAlias(refs[i]);
      assert refs[i] in refs;
      if key in seen {
        var j :| 0 <= j < i && EffectiveAlias(refs[j]) == key;
        assert DistinctAliases(refs[..i]);
        return key;
      }
      seen := seen + {key};
    }
    return "";
  }

  method LibraryAliasCollision(known: seq<string>, refs: seq<LibraryRef>) returns (hit: string)
    requires forall ref <- refs :: EffectiveAlias(ref) != ""
    ensures hit == "" <==> forall ref <- refs :: EffectiveAlias(ref) !in known
    ensures hit != "" ==> exists i :: 0 <= i < |refs| && EffectiveAlias(refs[i]) == hit && hit in known &&
                                   forall j :: 0 <= j < i ==> EffectiveAlias(refs[j]) !in known
  {
    for i := 0 to |refs|
      invariant forall j :: 0 <= j < i ==> EffectiveAlias(refs[j]) !in known
    {
      assert refs[i] in refs;
      if EffectiveAlias(refs[i]) in known { return EffectiveAlias(refs[i]); }
    }
    return "";
  }

  /** The names that clash, as often as they are given. */
  function Hits(operator: set<string>, vars: seq<Variable>): seq<string> {
    if vars == [] then []
    else
      var init, name := Hits(operator, vars[..|vars| - 1]), vars[|vars| - 1].name;
      if name in operator then init + [name] else init
  }

  lemma {:induction false} HitsMembers(operator: set<string>, vars: seq<Variable>, n: string)
    ensures n in Hits(operator, vars) <==> n in operator && exists v <- vars :: v.name == n
  {
    if vars == [] {
    } else {
      var init, last := vars[..|vars| - 1], vars[|vars| - 1];
      HitsMembers(operator, init, n);
      assert vars == init + [last];
    }
  }

  method VariableConflicts(operator: set<string>, vars: seq<Variable>) returns (hits: seq<string>)
    ensures forall n :: n in hits <==> n in operator && exists v <- vars :: v.name == n
    ensures multiset(hits) == multiset(Hits(operator, vars)) && Sorted(hits)
  {
    hits := [];
    for i := 0 to |vars|
      invariant hits == Hits(operator, vars[..i])
    {
      assert vars[..i + 1][..i] == vars[..i];
      if vars[i].name in operator { hits := hits + [vars[i].name]; }
    }
    assert vars[..|vars|] == vars;
    forall n ensures n in hits <==> n in operator && exists v <- vars :: v.name == n {
      HitsMembers(operator, vars, n);
    }
    SortNamesIsSorted(hits);
    SortNamesKeepsMembers(hits);
    hits := SortNames(hits);
  }

  method UnsafeFileName(files: map<string, string>) returns (bad: Option<string>)
    ensures bad.Some? ==> bad.value in files && !SafeEntryName(bad.value)
    ensures bad.None? ==> forall k <- files.Keys :: SafeEntryName(k)
  {
    var left := files.Keys;
    while left != {}
      invariant left <= files.Keys && forall k <- files.Keys - left :: SafeEntryName(k)
    {
      var k :| k in left;
      if !SafeEntryName(k) { return Some(k); }
      left := left - {k};
    }
    return None;
  }

  /** Everything about the object alone that admission insists on. */
  ghost predicate WellFormed(cfg: Config, spec: Spec) {
    && (forall v <- spec.variables :: v.name !in cfg.extVars)
    && (forall ref <- spec.snippet.libraries :: SafeLibraryAlias(EffectiveAlias(ref)))
    && (forall ref <- spec.snippet.libraries :: EffectiveAlias(ref) !in cfg.knownAliases)
    && DistinctAliases(spec.snippet.libraries)
    && (spec.output == SOURCE ==> forall k <- spec.files.Keys :: SafeEntryName(k))
  }

  ghost predicate NameOk(cfg: Config, a: string) {
    && a !in {"", ".", ".."} && a !in cfg.knownAliases
    && forall c <- a :: IsLower(c) || IsUpper(c) || IsDigit(c) || c in "._-"
  }

  /** Every library of the spec is imported under its own name: the import path where one is given, and else the name;
      one element of letters, digits and "._-", not a dot or two, unlike the others' and the mounted libraries'. */
  ghost predicate ImportNamesOk(cfg: Config, refs: seq<LibraryRef>) {
    && (forall i :: 0 <= i < |refs| && refs[i].importPath != "" ==> NameOk(cfg, refs[i].importPath))
    && (forall i :: 0 <= i < |refs| && refs[i].importPath == "" ==> NameOk(cfg, refs[i].name))
    && forall i, j :: 0 <= i < j < |refs| ==>
        && (refs[i].importPath != "" && refs[j].importPath != "" ==> refs[i].importPath != refs[j].importPath)
        && (refs[i].importPath != "" && refs[j].importPath == "" ==> refs[i].importPath != refs[j].name)
        && (refs[i].importPath == "" && refs[j].importPath != "" ==> refs[i].name != refs[j].importPath)
        && (refs[i].importPath == "" && refs[j].importPath == "" ==> refs[i].name != refs[j].name)
  }

  lemma NameOkIff(cfg: Config, a: string)
    ensures NameOk(cfg, a) <==> SafeLibraryAlias(a) && a !in cfg.knownAliases
  {
    forall c ensures IsAliasChar(c) <==> IsLower(c) || IsUpper(c) || IsDigit(c) || c in "._-" { AliasCharIff(c); }
  }

  /** Both directions: well formed libraries are those. */
  lemma ImportNamesIff(cfg: Config, refs: seq<LibraryRef>)
    ensures ImportNamesOk(cfg, refs) <==>
        && (forall ref <- refs :: SafeLibraryAlias(EffectiveAlias(ref)) && EffectiveAlias(ref) !in cfg.knownAliases)
        && DistinctAliases(refs)
  {
    forall a ensures NameOk(cfg, a) <==> SafeLibraryAlias(a) && a !in cfg.knownAliases { NameOkIff(cfg, a); }
    if ImportNamesOk(cfg, refs) {
      forall ref | ref in refs ensures NameOk(cfg, EffectiveAlias(ref)) {
        var i :| 0 <= i < |refs| && refs[i] == ref;
      }
    } else if forall ref <- refs :: NameOk(cfg, EffectiveAlias(ref)) {
      forall i | 0 <= i < |refs| ensures NameOk(cfg, EffectiveAlias(refs[i])) { assert refs[i] in refs; }
    }
  }

  /** The API server's schema: a library reference always has a name. */
  ghost predicate SchemaValid(spec: Spec) {
    forall ref <- spec.snippet.libraries :: ref.name != ""
  }

  ghost predicate Flawed(cfg: Config, spec: Spec, d: Denial)
    requires !d.LookupFailed? && !d.FormsCycle?
  {
    var refs := spec.snippet.libraries;
    match d
    case Conflicts(names) =>
      && names != [] && (forall v <- spec.variables :: v.name in cfg.extVars ==> v.name in names)
      && forall n <- names :: n in cfg.extVars && exists v <- spec.variables :: v.name == n
    case ShadowsMounted(a) => a in cfg.knownAliases && exists ref <- refs :: EffectiveAlias(ref) == a
    case BadAlias(a) => !SafeLibraryAlias(a) && exists ref <- refs :: EffectiveAlias(ref) == a
    case DuplicatePath(a) => exists i, j ::
        0 <= i < j < |refs| && EffectiveAlias(refs[i]) == a == EffectiveAlias(refs[j])
    case UnsafeFile(k) => spec.output == SOURCE && k in spec.files && !SafeEntryName(k)
  }

  /** What a denial says is true of the request. */
  ghost predicate Justified(cfg: Config, c: Cluster, id: Id, spec: Spec, faults: Faults, d: Denial) {
    match d
    case LookupFailed(x) => Blamed(Judged(c, id, spec.snippet), id, faults, x)
    case FormsCycle(path) => Verdict(GraphOf(Judged(c, id, spec.snippet)), id, Some(path))
    case _ => Flawed(cfg, spec, d)
  }

  method CheckAlone(cfg: Config, spec: Spec) returns (denial: Option<Denial>)
    requires SchemaValid(spec)
    ensures denial.None? <==> WellFormed(cfg, spec)
    ensures denial.None? ==> ImportNamesOk(cfg, spec.snippet.libraries)
    ensures denial.Some? && denial.value.Conflicts? <==> exists v <- spec.variables :: v.name in cfg.extVars
    ensures denial.Some? ==>
        !denial.value.FormsCycle? && !denial.value.LookupFailed? && Flawed(cfg, spec, denial.value)
  {
    ImportNamesIff(cfg, spec.snippet.libraries);
    var refs := spec.snippet.libraries;
    var hits := VariableConflicts(cfg.extVars, spec.variables);
    if hits != [] {
      assert hits[0] in hits;
      return Some(Conflicts(hits));
    }
    assert forall v <- spec.variables :: v.name in cfg.extVars ==> v.name in hits;
    var alias := LibraryAliasCollision(cfg.knownAliases, refs);
    if alias != "" { return Some(ShadowsMounted(alias)); }
    var bad := InvalidLibraryImportAlias(refs);
    if bad != "" { return Some(BadAlias(bad)); }
    var dup := DuplicateLibraryImportPath(refs);
    if dup != "" { return Some(DuplicatePath(dup)); }
    if spec.output == SOURCE {
      var unsafe := UnsafeFileName(spec.files);
      if unsafe.Some? { return Some(UnsafeFile(unsafe.value)); }
    }
    return None;
  }

  /** validate: without lookup failures a request is admitted iff it is well formed and closes no cycle. */
  method Validate(cfg: Config, c: Cluster, id: Id, spec: Spec, faults: Faults) returns (denial: Option<Denial>)
    requires SchemaValid(spec)
    ensures denial.None? ==> WellFormed(cfg, spec) && !OnCycle(GraphOf(Judged(c, id, spec.snippet)), id)
    ensures denial.None? ==> ImportNamesOk(cfg, spec.snippet.libraries)
    ensures denial.None? ==> forall v <- spec.variables :: v.name !in cfg.extVars
    ensures denial.None? && spec.output == "source" ==> forall k <- spec.files.Keys :: SafeEntryName(k)
    ensures denial.Some? ==> Justified(cfg, c, id, spec, faults, denial.value)
  {
    denial := CheckAlone(cfg, spec);
    if denial.Some? { return; }
    var r := DetectSourceRefCycle(c, id, spec.snippet, faults);
    match r {
      case Err(x) => return Some(LookupFailed(x));
      case Ok(Some(path)) => return Some(FormsCycle(path));
      case Ok(None) => return None;
    }
  }

  /** Every field the webhook validates is the same; suspend and interval may differ. */
  predicate InputsUnchanged(old_: Spec, spec: Spec) {
    && old_.variables == spec.variables && old_.snippet == spec.snippet
    && old_.files == spec.files && old_.output == spec.output
  }

  method ValidateUpdate(cfg: Config, c: Cluster, id: Id, before: Spec, spec: Spec, deleting: bool, faults: Faults)
    returns (denial: Option<Denial>)
    requires SchemaValid(spec)
    ensures deleting || spec == before.(suspend := spec.suspend, interval := spec.interval) ==> denial.None?
    ensures !deleting && spec != before.(suspend := spec.suspend, interval := spec.interval) && denial.None? ==>
        && WellFormed(cfg, spec) && ImportNamesOk(cfg, spec.snippet.libraries)
        && (forall v <- spec.variables :: v.name !in cfg.extVars)
        && (spec.output == "source" ==> forall k <- spec.files.Keys :: SafeEntryName(k))
        && !OnCycle(GraphOf(Judged(c, id, spec.snippet)), id)
    ensures denial.Some? ==> Justified(cfg, c, id, spec, faults, denial.value)
  {
    if deleting || InputsUnchanged(before, spec) { return None; }
    denial := Validate(cfg, c, id, spec, faults);
  }
}
