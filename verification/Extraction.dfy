/** extractTarballWithLimits of internal/sources/sources.go, from the tar reader's members to the file map.
    Integers are int64: sums wrap. */
module Extraction {
  import opened Common
  import opened EntryNames
  import Strings
  import opened Wrappers

  /** body is what reading the member to its end yields, whatever its header claims. */
  datatype Member = Member(name: string, regular: bool, size: int, body: string)

  /** How the stream ends after its members: the archive's end, an error from Next (a malformed header, or the
      decompressed-stream cap), or an error while the body of a further member is read. */
  datatype Ending = Complete | BadHeader | BadBody(member: Member)

  datatype Stream = Stream(members: seq<Member>, ending: Ending)

  datatype Caps = Caps(maxBytes: int, perEntry: int)

  datatype ExtractError =
    | Tar
    | Duplicate(name: string)
    | NegativeSize(name: string)
    | EntryTooLarge(name: string)
    | ArchiveTooLarge
    | ReadEntry(name: string)

  const MAX_INT64 := 0x7FFF_FFFF_FFFF_FFFF
  const DEFAULT_MAX_EXTRACTED := 0x400_0000
  const DEFAULT_MAX_PER_ENTRY := 0x100_0000

  function Wrap(x: int): (r: int)
    ensures -MAX_INT64 - 1 <= r <= MAX_INT64
  {
    (x + MAX_INT64 + 1) % (2 * (MAX_INT64 + 1)) - MAX_INT64 - 1
  }

  lemma WrapIsIdentity(x: int)
    requires -MAX_INT64 - 1 <= x <= MAX_INT64
    ensures Wrap(x) == x
  {
  }

  /** Zero or less on either cap means its default. */
  function Effective(caps: Caps): Caps {
    Caps(if caps.maxBytes <= 0 then DEFAULT_MAX_EXTRACTED else caps.maxBytes,
         if caps.perEntry <= 0 then DEFAULT_MAX_PER_ENTRY else caps.perEntry)
  }

  /** The defaults: 64 MiB in all and 16 MiB per entry. */
  lemma DefaultCaps(caps: Caps)
    ensures caps.maxBytes <= 0 ==> Effective(caps).maxBytes == 64 * 1024 * 1024
    ensures caps.perEntry <= 0 ==> Effective(caps).perEntry == 16 * 1024 * 1024
    ensures caps.maxBytes > 0 ==> Effective(caps).maxBytes == caps.maxBytes
    ensures caps.perEntry > 0 ==> Effective(caps).perEntry == caps.perEntry
  {
  }

  ghost predicate Int64Caps(caps: Caps) { caps.maxBytes <= MAX_INT64 && caps.perEntry <= MAX_INT64 }

  /** io.LimitReader: nothing at all once the limit is not positive. */
  function Limited(body: string, limit: int): string {
    if limit <= 0 then "" else if |body| <= limit then body else body[..limit]
  }

  type Files = map<string, string>

  datatype Sink = Sink(files: Files, total: int)

  function Kept(m: Member, pathPrefix: string): Option<string> {
    if m.regular then NormaliseEntry(m.name, pathPrefix) else None
  }

  /** The checks made before a kept member's body is read. */
  function Precheck(s: Sink, name: string, m: Member, caps: Caps): Option<ExtractError> {
    if name in s.files then Some(Duplicate(name))
    else if m.size < 0 then Some(NegativeSize(m.name))
    else if m.size > caps.perEntry then Some(EntryTooLarge(m.name))
    else if m.size > Wrap(caps.maxBytes - s.total) then Some(ArchiveTooLarge)
    else None
  }

  function Take(s: Sink, name: string, m: Member, caps: Caps): Result<Sink, ExtractError> {
    var body := Limited(m.body, Wrap(caps.perEntry + 1));
    var total := Wrap(s.total + |body|);
    if |body| > caps.perEntry then Err(EntryTooLarge(m.name))
    else if total > caps.maxBytes then Err(ArchiveTooLarge)
    else Ok(Sink(s.files[name := body], total))
  }

  function Step(s: Sink, m: Member, pathPrefix: string, caps: Caps): Result<Sink, ExtractError> {
    match Kept(m, pathPrefix)
    case None => Ok(s)
    case Some(name) =>
      var early := Precheck(s, name, m, caps);
      if early.Some? then Err(early.value) else Take(s, name, m, caps)
  }

  function Fold(ms: seq<Member>, pathPrefix: string, caps: Caps): Result<Sink, ExtractError> {
    if ms == [] then Ok(Sink(map[], 0))
    else
      var before := Fold(ms[..|ms| - 1], pathPrefix, caps);
      if before.Err? then before else Step(before.value, ms[|ms| - 1], pathPrefix, caps)
  }

  function Finish(s: Sink, ending: Ending, pathPrefix: string, caps: Caps): Result<Files, ExtractError> {
    match ending
    case Complete => Ok(s.files)
    case BadHeader => Err(Tar)
    case BadBody(m) =>
      var name := Kept(m, pathPrefix);
      if name.None? then Err(Tar)
      else
        var early := Precheck(s, name.value, m, caps);
        Err(if early.Some? then early.value else ReadEntry(m.name))
  }

  function Extracted(t: Stream, pathPrefix: string, caps: Caps): Result<Files, ExtractError> {
    var folded := Fold(t.members, pathPrefix, Effective(caps));
    if folded.Err? then Err(folded.error) else Finish(folded.value, t.ending, pathPrefix, Effective(caps))
  }

  lemma {:induction false} FoldStopsAtError(ms: seq<Member>, k: nat, pathPrefix: string, caps: Caps)
    requires k <= |ms| && Fold(ms[..k], pathPrefix, caps).Err?
    ensures Fold(ms, pathPrefix, caps) == Fold(ms[..k], pathPrefix, caps)
  {
    if k == |ms| {
      assert ms[..k] == ms;
    } else {
      assert ms[..|ms| - 1][..k] == ms[..k];
      FoldStopsAtError(ms[..|ms| - 1], k, pathPrefix, caps);
    }
  }

  lemma FoldOneMore(ms: seq<Member>, k: nat, pathPrefix: string, caps: Caps)
    requires k < |ms| && Fold(ms[..k], pathPrefix, caps).Ok?
    ensures Fold(ms[..k + 1], pathPrefix, caps) == Step(Fold(ms[..k], pathPrefix, caps).value, ms[k], pathPrefix, caps)
  {
    assert ms[..k + 1][..k] == ms[..k];
  }

  /** The body of the loop for a member that is kept. */
  method ExtractOne(files: Files, total: int, name: string, m: Member, ghost pathPrefix: string, caps: Caps)
    returns (r: Result<Sink, ExtractError>)
    requires Kept(m, pathPrefix) == Some(name)
    ensures r == Step(Sink(files, total), m, pathPrefix, caps)
  {
    if name in files { return Err(Duplicate(name)); }
    if m.size < 0 { return Err(NegativeSize(m.name)); }
    if m.size > caps.perEntry { return Err(EntryTooLarge(m.name)); }
    if m.size > Wrap(caps.maxBytes - total) { return Err(ArchiveTooLarge); }
    var body := Limited(m.body, Wrap(caps.perEntry + 1));
    if |body| > caps.perEntry { return Err(EntryTooLarge(m.name)); }
    var sum := Wrap(total + |body|);
    if sum > caps.maxBytes { return Err(ArchiveTooLarge); }
    return Ok(Sink(files[name := body], sum));
  }

  /** The extraction loop. */
  method ExtractMembers(ms: seq<Member>, pathPrefix: string, caps: Caps) returns (r: Result<Sink, ExtractError>)
    ensures r == Fold(ms, pathPrefix, caps)
  {
    var files: Files, total := map[], 0;
    for k := 0 to |ms|
      invariant Fold(ms[..k], pathPrefix, caps) == Ok(Sink(files, total))
    {
      FoldOneMore(ms, k, pathPrefix, caps);
      if Fold(ms[..k + 1], pathPrefix, caps).Err? { FoldStopsAtError(ms, k + 1, pathPrefix, caps); }
      if !ms[k].regular { continue; }
      var name := NormaliseEntry(ms[k].name, pathPrefix);
      if name.None? { continue; }
      var taken := ExtractOne(files, total, name.value, ms[k], pathPrefix, caps);
      if taken.Err? { return Err(taken.error); }
      files, total := taken.value.files, taken.value.total;
    }
    assert ms[..|ms|] == ms;
    return Ok(Sink(files, total));
  }

  method ExtractTarballWithLimits(t: Stream, pathPrefix: string, caps: Caps) returns (r: Result<Files, ExtractError>)
    ensures r == Extracted(t, pathPrefix, caps)
  {
    var sink := ExtractMembers(t.members, pathPrefix, Effective(caps));
    if sink.Err? { return Err(sink.error); }
    return Finish(sink.value, t.ending, pathPrefix, Effective(caps));
  }

  // -- whatever the archive holds ---------------------------------------------------

  function BodySum(files: Files): nat {
    if files == map[] then 0 else
      var name := Strings.Least(files.Keys);
      |files[name]| + BodySum(files - {name})
  }

  lemma LeastWithout(s: set<string>, x: string)
    requires x !in s && Strings.Least(s + {x}) != x
    ensures s != {} && Strings.Least(s) == Strings.Least(s + {x})
  {
    Strings.LeqAntisymmetric(Strings.Least(s), Strings.Least(s + {x}));
  }

  lemma {:induction false} BodySumAdd(files: Files, name: string, body: string)
    requires name !in files
    ensures BodySum(files[name := body]) == BodySum(files) + |body|
  {
    var more := files[name := body];
    assert more.Keys == files.Keys + {name};
    var least := Strings.Least(more.Keys);
    if least == name {
      assert more - {least} == files;
    } else {
      BodySumAdd(files - {least}, name, body);
      LeastWithout(files.Keys, name);
      assert more - {least} == (files - {least})[name := body];
    }
  }

  /** The sum and one more body cannot overflow: the caps leave room, as the defaults do, or no body is longer
      than its header says, as archive/tar guarantees. */
  ghost predicate NoWrap(ms: seq<Member>, caps: Caps) {
    caps.maxBytes + caps.perEntry <= MAX_INT64 || forall m <- ms :: |m.body| <= m.size
  }

  ghost predicate Bounded(s: Sink, pathPrefix: string, caps: Caps) {
    && 0 <= s.total == BodySum(s.files) <= caps.maxBytes
    && forall name <- s.files.Keys :: Canonical(name) && |s.files[name]| <= caps.perEntry
  }

  lemma StepBounded(s: Sink, name: string, m: Member, pathPrefix: string, caps: Caps)
    requires Kept(m, pathPrefix) == Some(name) && Bounded(s, pathPrefix, caps)
    requires 0 < caps.maxBytes && 0 < caps.perEntry && Int64Caps(caps) && NoWrap([m], caps)
    requires Step(s, m, pathPrefix, caps).Ok?
    ensures Bounded(Step(s, m, pathPrefix, caps).value, pathPrefix, caps)
  {
    KeptIsCanonical(m.name, pathPrefix, name);
    assert m in [m];
    var body := Limited(m.body, Wrap(caps.perEntry + 1));
    assert |body| <= |m.body|;
    WrapIsIdentity(caps.maxBytes - s.total);
    WrapIsIdentity(s.total + |body|);
    BodySumAdd(s.files, name, body);
  }

  lemma {:induction false} FoldBounded(ms: seq<Member>, pathPrefix: string, caps: Caps)
    requires 0 < caps.maxBytes && 0 < caps.perEntry && Int64Caps(caps) && NoWrap(ms, caps)
    requires Fold(ms, pathPrefix, caps).Ok?
    ensures Bounded(Fold(ms, pathPrefix, caps).value, pathPrefix, caps)
  {
    if ms == [] {
    } else {
      var m := ms[|ms| - 1];
      FoldBounded(ms[..|ms| - 1], pathPrefix, caps);
      var s := Fold(ms[..|ms| - 1], pathPrefix, caps).value;
      if Kept(m, pathPrefix).Some? {
        StepBounded(s, Kept(m, pathPrefix).value, m, pathPrefix, caps);
      }
    }
  }

  /** Any archive at all: what comes out stays within both caps under safe names, and the int64 total the loop ends
      with is the true sum, so it never overflowed. */
  lemma ExtractionStaysWithinCaps(t: Stream, pathPrefix: string, caps: Caps)
    requires Int64Caps(caps) && NoWrap(t.members, Effective(caps))
    requires Extracted(t, pathPrefix, caps).Ok?
    ensures var files := Extracted(t, pathPrefix, caps).value;
      && Fold(t.members, pathPrefix, Effective(caps)) == Ok(Sink(files, BodySum(files)))
      && BodySum(files) <= Effective(caps).maxBytes
      && forall name <- files.Keys :: Canonical(name) && |files[name]| <= Effective(caps).perEntry
  {
    FoldBounded(t.members, pathPrefix, Effective(caps));
  }

  // -- archives whose headers tell the truth ------------------------------------------

  ghost predicate Truthful(ms: seq<Member>) { forall m <- ms :: m.size == |m.body| }

  /** Names of kept members, in order. */
  function KeptNames(ms: seq<Member>, pathPrefix: string): seq<string> {
    if ms == [] then []
    else
      var m, before := ms[|ms| - 1], KeptNames(ms[..|ms| - 1], pathPrefix);
      if Kept(m, pathPrefix).Some? then before + [Kept(m, pathPrefix).value] else before
  }

  function KeptFiles(ms: seq<Member>, pathPrefix: string): Files {
    if ms == [] then map[]
    else
      var m, before := ms[|ms| - 1], KeptFiles(ms[..|ms| - 1], pathPrefix);
      if Kept(m, pathPrefix).Some? then before[Kept(m, pathPrefix).value := m.body] else before
  }

  ghost predicate Fits(files: Files, caps: Caps) {
    && BodySum(files) <= caps.maxBytes
    && forall name <- files.Keys :: |files[name]| <= caps.perEntry
  }

  lemma {:induction false} KeptFilesHoldKeptNames(ms: seq<Member>, pathPrefix: string)
    ensures forall name :: name in KeptFiles(ms, pathPrefix) <==> name in KeptNames(ms, pathPrefix)
  {
    if ms == [] {
    } else {
      KeptFilesHoldKeptNames(ms[..|ms| - 1], pathPrefix);
    }
  }

  lemma KeptAppend(ms: seq<Member>, m: Member, pathPrefix: string, name: string)
    requires Kept(m, pathPrefix) == Some(name)
    ensures KeptNames(ms + [m], pathPrefix) == KeptNames(ms, pathPrefix) + [name]
    ensures KeptFiles(ms + [m], pathPrefix) == KeptFiles(ms, pathPrefix)[name := m.body]
  {
    assert (ms + [m])[..|ms|] == ms;
  }

  lemma RepeatsGrow(names: seq<string>, name: string)
    ensures Distinct(names + [name]) <==> Distinct(names) && name !in names
  {
    var more := names + [name];
    if Distinct(more) {
      forall i | 0 <= i < |names| ensures names[i] != name {
        assert more[i] == names[i] && more[|names|] == name;
      }
      assert forall i :: 0 <= i < |names| ==> more[i] == names[i];
    }
  }

  lemma FitsShrinks(files: Files, name: string, body: string, caps: Caps)
    requires name !in files
    ensures Fits(files[name := body], caps) <==>
        |body| <= caps.perEntry && BodySum(files) + |body| <= caps.maxBytes && Fits(files, caps)
  {
    BodySumAdd(files, name, body);
    var more := files[name := body];
    if Fits(more, caps) {
      assert more[name] == body;
      forall n | n in files ensures |files[n]| <= caps.perEntry { assert more[n] == files[n]; }
    }
  }

  lemma StepExact(s: Sink, m: Member, name: string, pathPrefix: string, caps: Caps)
    requires 0 < caps.maxBytes <= MAX_INT64 && 0 < caps.perEntry < MAX_INT64 && m.size == |m.body|
    requires Kept(m, pathPrefix) == Some(name) && Fits(s.files, caps) && s.total == BodySum(s.files)
    ensures Step(s, m, pathPrefix, caps).Ok? <==> name !in s.files && Fits(s.files[name := m.body], caps)
    ensures Step(s, m, pathPrefix, caps).Ok? ==>
        Step(s, m, pathPrefix, caps).value == Sink(s.files[name := m.body], BodySum(s.files[name := m.body]))
  {
    WrapIsIdentity(caps.maxBytes - s.total);
    WrapIsIdentity(caps.perEntry + 1);
    if name !in s.files && 0 <= m.size <= caps.perEntry && m.size <= caps.maxBytes - s.total {
      WrapIsIdentity(s.total + |m.body|);
    }
    if name !in s.files {
      FitsShrinks(s.files, name, m.body, caps);
      BodySumAdd(s.files, name, m.body);
    }
  }

  lemma {:induction false} FoldExact(ms: seq<Member>, pathPrefix: string, caps: Caps)
    requires 0 < caps.maxBytes <= MAX_INT64 && 0 < caps.perEntry < MAX_INT64 && Truthful(ms)
    ensures Fold(ms, pathPrefix, caps).Ok? <==>
        Distinct(KeptNames(ms, pathPrefix)) && Fits(KeptFiles(ms, pathPrefix), caps)
    ensures Fold(ms, pathPrefix, caps).Ok? ==>
        Fold(ms, pathPrefix, caps).value == Sink(KeptFiles(ms, pathPrefix), BodySum(KeptFiles(ms, pathPrefix)))
  {
    if ms == [] {
    } else {
      var m, init := ms[|ms| - 1], ms[..|ms| - 1];
      FoldExact(init, pathPrefix, caps);
      if Kept(m, pathPrefix).Some? {
        var name, files := Kept(m, pathPrefix).value, KeptFiles(init, pathPrefix);
        RepeatsGrow(KeptNames(init, pathPrefix), name);
        KeptFilesHoldKeptNames(init, pathPrefix);
        if name !in files { FitsShrinks(files, name, m.body, caps); }
        var before := Fold(init, pathPrefix, caps);
        if before.Ok? { StepExact(before.value, m, name, pathPrefix, caps); }
      }
    }
  }

  /** A truthful archive is extracted iff it is complete, names no path twice and fits the caps; then the result is
      exactly the kept members. */
  lemma ExtractionIsExact(t: Stream, pathPrefix: string, caps: Caps)
    requires Int64Caps(caps) && caps.perEntry < MAX_INT64 && Truthful(t.members)
    ensures var files := KeptFiles(t.members, pathPrefix);
      && (Extracted(t, pathPrefix, caps).Ok? <==>
          t.ending.Complete? && Distinct(KeptNames(t.members, pathPrefix)) && Fits(files, Effective(caps)))
      && (Extracted(t, pathPrefix, caps).Ok? ==> Extracted(t, pathPrefix, caps).value == files)
  {
    FoldExact(t.members, pathPrefix, Effective(caps));
  }

  // -- the largest per-entry cap ----------------------------------------------------------

  ghost predicate Emptied(s: Sink, names: seq<string>) {
    && s.total == 0 && s.files == (map name | name in names :: "") && Distinct(names)
  }

  ghost predicate AllEmpty(files: Files) { forall name <- files.Keys :: files[name] == "" }

  lemma StepAtLargestCap(s: Sink, m: Member, name: string, names: seq<string>, pathPrefix: string, caps: Caps)
    requires 0 < caps.maxBytes <= MAX_INT64 && caps.perEntry == MAX_INT64 && Kept(m, pathPrefix) == Some(name)
    requires Emptied(s, names)
    ensures Step(s, m, pathPrefix, caps).Ok? ==> Emptied(Step(s, m, pathPrefix, caps).value, names + [name])
    ensures Step(s, m, pathPrefix, caps).Ok? <==> name !in names && 0 <= m.size <= caps.maxBytes
  {
    WrapIsIdentity(caps.maxBytes);
    WrapIsIdentity(0);
    assert Wrap(MAX_INT64 + 1) == -MAX_INT64 - 1;
    RepeatsGrow(names, name);
  }

  lemma {:induction false} FoldAtLargestCap(ms: seq<Member>, pathPrefix: string, caps: Caps)
    requires 0 < caps.maxBytes <= MAX_INT64 && caps.perEntry == MAX_INT64
    ensures Fold(ms, pathPrefix, caps).Ok? ==> Emptied(Fold(ms, pathPrefix, caps).value, KeptNames(ms, pathPrefix))
  {
    if ms == [] {
    } else {
      var m, init := ms[|ms| - 1], ms[..|ms| - 1];
      FoldAtLargestCap(init, pathPrefix, caps);
      if Fold(init, pathPrefix, caps).Ok? && Kept(m, pathPrefix).Some? {
        var before, name := Fold(init, pathPrefix, caps).value, Kept(m, pathPrefix).value;
        StepAtLargestCap(before, m, name, KeptNames(init, pathPrefix), pathPrefix, caps);
      }
    }
  }

  /** perEntry + 1 wraps below zero: whatever the archive, every body reads as empty. */
  lemma LargestEntryCapEmptiesBodies(t: Stream, pathPrefix: string, caps: Caps)
    requires caps.maxBytes <= MAX_INT64 && caps.perEntry == MAX_INT64 && Extracted(t, pathPrefix, caps).Ok?
    ensures Extracted(t, pathPrefix, caps).value == map name | name in KeptNames(t.members, pathPrefix) :: ""
    ensures AllEmpty(Extracted(t, pathPrefix, caps).value)
  {
    FoldAtLargestCap(t.members, pathPrefix, Effective(caps));
  }

  lemma {:induction false} EmptyBodiesFold(ms: seq<Member>, pathPrefix: string, caps: Caps)
    requires 0 < caps.maxBytes <= MAX_INT64 && caps.perEntry == MAX_INT64 && Truthful(ms)
    requires Distinct(KeptNames(ms, pathPrefix)) && AllEmpty(KeptFiles(ms, pathPrefix))
    ensures Fold(ms, pathPrefix, caps) == Ok(Sink(KeptFiles(ms, pathPrefix), 0))
  {
    if ms == [] {
    } else {
      var m, init := ms[|ms| - 1], ms[..|ms| - 1];
      var names, files := KeptNames(init, pathPrefix), KeptFiles(init, pathPrefix);
      if Kept(m, pathPrefix).Some? {
        var name := Kept(m, pathPrefix).value;
        RepeatsGrow(names, name);
        KeptFilesHoldKeptNames(init, pathPrefix);
        assert forall n <- files.Keys :: KeptFiles(ms, pathPrefix)[n] == files[n];
        assert KeptFiles(ms, pathPrefix)[name] == m.body;
        EmptyBodiesFold(init, pathPrefix, caps);
        FoldAtLargestCap(init, pathPrefix, caps);
        StepAtLargestCap(Sink(files, 0), m, name, names, pathPrefix, caps);
      } else {
        EmptyBodiesFold(init, pathPrefix, caps);
      }
    }
  }

  lemma {:induction false} EmptySum(files: Files)
    requires AllEmpty(files)
    ensures BodySum(files) == 0
  {
    if files == map[] {
    } else {
      EmptySum(files - {Strings.Least(files.Keys)});
    }
  }

  lemma EmptyFits(files: Files, caps: Caps)
    requires AllEmpty(files) && 0 < caps.maxBytes && 0 < caps.perEntry
    ensures Fits(files, caps)
  {
    EmptySum(files);
  }

  /** Under the largest cap a truthful archive comes out as it is iff it is complete, names no path twice, and every
      kept body is empty. */
  lemma ExactAtLargestCap(t: Stream, pathPrefix: string, caps: Caps)
    requires Int64Caps(caps) && caps.perEntry == MAX_INT64 && Truthful(t.members)
    ensures var files := KeptFiles(t.members, pathPrefix);
      Extracted(t, pathPrefix, caps) == Ok(files) <==>
      t.ending.Complete? && Distinct(KeptNames(t.members, pathPrefix)) && AllEmpty(files)
  {
    var files := KeptFiles(t.members, pathPrefix);
    if Extracted(t, pathPrefix, caps) == Ok(files) {
      FoldAtLargestCap(t.members, pathPrefix, Effective(caps));
    }
    if t.ending.Complete? && Distinct(KeptNames(t.members, pathPrefix)) && AllEmpty(files) {
      EmptyBodiesFold(t.members, pathPrefix, Effective(caps));
    }
  }

  /** All caps: a truthful archive comes out as it is iff it is complete, names no path twice, fits the caps, and the
      per-entry cap is not the one that wraps, unless there is nothing to lose. */
  lemma ExtractedExactlyIff(t: Stream, pathPrefix: string, caps: Caps)
    requires Int64Caps(caps) && Truthful(t.members)
    ensures var files := KeptFiles(t.members, pathPrefix);
      Extracted(t, pathPrefix, caps) == Ok(files) <==>
      (t.ending.Complete? && Distinct(KeptNames(t.members, pathPrefix)) && Fits(files, Effective(caps)) &&
       (caps.perEntry < MAX_INT64 || AllEmpty(files)))
  {
    if caps.perEntry < MAX_INT64 {
      ExtractionIsExact(t, pathPrefix, caps);
    } else {
      ExactAtLargestCap(t, pathPrefix, caps);
      if AllEmpty(KeptFiles(t.members, pathPrefix)) { EmptyFits(KeptFiles(t.members, pathPrefix), Effective(caps)); }
    }
  }

  // -- without reference to the steps ---------------------------------------------------

  /** The member is a file below the prefix, under name. */
  ghost predicate IsFile(m: Member, pathPrefix: string, name: string) {
    m.regular && SafeEntryName(m.name) && LiesAt(m.name, pathPrefix, name)
  }

  ghost predicate Below(m: Member, pathPrefix: string) { exists name :: IsFile(m, pathPrefix, name) }

  /** These are the files below the prefix, each member of them with its body. */
  ghost predicate FilesBelow(ms: seq<Member>, pathPrefix: string, files: Files) {
    && (forall m <- ms, name :: IsFile(m, pathPrefix, name) ==> name in files && files[name] == m.body)
    && forall name <- files.Keys :: exists m <- ms :: IsFile(m, pathPrefix, name)
  }

  /** No two members lie at one name. */
  ghost predicate NoClash(ms: seq<Member>, pathPrefix: string) {
    forall i, j, name :: 0 <= i < j < |ms| && IsFile(ms[i], pathPrefix, name) ==> !IsFile(ms[j], pathPrefix, name)
  }

  lemma KeptIsFile(m: Member, pathPrefix: string, name: string)
    ensures IsFile(m, pathPrefix, name) <==> Kept(m, pathPrefix) == Some(name)
  {
    KeptIff(m.name, pathPrefix, name);
  }

  ghost predicate KeptAs(m: Member, pathPrefix: string, name: string) { Kept(m, pathPrefix) == Some(name) }

  lemma {:induction false} NamesAreKept(ms: seq<Member>, pathPrefix: string, name: string)
    ensures name in KeptNames(ms, pathPrefix) <==> exists m <- ms :: KeptAs(m, pathPrefix, name)
  {
    if ms == [] {
    } else {
      var last, init := ms[|ms| - 1], ms[..|ms| - 1];
      NamesAreKept(init, pathPrefix, name);
      assert ms == init + [last];
      assert name in KeptNames(ms, pathPrefix) <==>
          name in KeptNames(init, pathPrefix) || KeptAs(last, pathPrefix, name);
      if m :| m in init && KeptAs(m, pathPrefix, name) { assert m in ms; }
      if m :| m in ms && KeptAs(m, pathPrefix, name) { assert m in init || m == last; }
    }
  }

  lemma KeptNamesAre(ms: seq<Member>, pathPrefix: string, name: string)
    ensures name in KeptNames(ms, pathPrefix) <==> exists m <- ms :: IsFile(m, pathPrefix, name)
  {
    NamesAreKept(ms, pathPrefix, name);
    forall m ensures KeptAs(m, pathPrefix, name) <==> IsFile(m, pathPrefix, name) {
      KeptIsFile(m, pathPrefix, name);
    }
  }

  lemma NoClashInit(ms: seq<Member>, pathPrefix: string)
    requires ms != []
    ensures var n := |ms| - 1;
      NoClash(ms, pathPrefix) <==>
      && NoClash(ms[..n], pathPrefix)
      && forall m <- ms[..n], name :: IsFile(m, pathPrefix, name) ==> !IsFile(ms[n], pathPrefix, name)
  {
    var n, init := |ms| - 1, ms[..|ms| - 1];
    if NoClash(ms, pathPrefix) {
      forall m, name | m in init && IsFile(m, pathPrefix, name) ensures !IsFile(ms[n], pathPrefix, name) {
        var i :| 0 <= i < n && init[i] == m;
      }
    }
  }

  lemma {:induction false} NoClashIsDistinct(ms: seq<Member>, pathPrefix: string)
    ensures NoClash(ms, pathPrefix) <==> Distinct(KeptNames(ms, pathPrefix))
  {
    if ms == [] {
    } else {
      var m, init := ms[|ms| - 1], ms[..|ms| - 1];
      NoClashIsDistinct(init, pathPrefix);
      NoClashInit(ms, pathPrefix);
      forall x ensures IsFile(m, pathPrefix, x) <==> Kept(m, pathPrefix) == Some(x) { KeptIsFile(m, pathPrefix, x); }
      if Kept(m, pathPrefix).Some? {
        var name := Kept(m, pathPrefix).value;
        RepeatsGrow(KeptNames(init, pathPrefix), name);
        KeptNamesAre(init, pathPrefix, name);
      }
    }
  }

  lemma {:induction false} LastBodyWins(ms: seq<Member>, m: Member, pathPrefix: string, name: string)
    requires m in ms && IsFile(m, pathPrefix, name) && NoClash(ms, pathPrefix)
    ensures name in KeptFiles(ms, pathPrefix) && KeptFiles(ms, pathPrefix)[name] == m.body
  {
    var last, init := ms[|ms| - 1], ms[..|ms| - 1];
    KeptIsFile(last, pathPrefix, name);
    if m != last {
      NoClashInit(ms, pathPrefix);
      LastBodyWins(init, m, pathPrefix, name);
    }
  }

  ghost predicate TooMuch(ms: seq<Member>, pathPrefix: string, caps: Caps) {
    BodySum(KeptFiles(ms, pathPrefix)) > caps.maxBytes
  }

  ghost predicate Twice(ms: seq<Member>, pathPrefix: string, name: string) {
    exists i, j :: 0 <= i < j < |ms| && IsFile(ms[i], pathPrefix, name) && IsFile(ms[j], pathPrefix, name)
  }

  /** The archive breaks off in the body of a file of that name below the prefix. */
  ghost predicate BadBodyOf(t: Stream, pathPrefix: string, raw: string) {
    t.ending.BadBody? && t.ending.member.name == raw && Below(t.ending.member, pathPrefix)
  }

  /** What each error says of a truthful archive, and of the member that could not be read where one breaks off. */
  ghost predicate Blames(t: Stream, pathPrefix: string, caps: Caps, e: ExtractError) {
    match e
    case Tar =>
      t.ending.BadHeader? || (t.ending.BadBody? && !Below(t.ending.member, pathPrefix))
    case ReadEntry(raw) => BadBodyOf(t, pathPrefix, raw) && 0 <= t.ending.member.size <= caps.perEntry
    case Duplicate(name) =>
      || Twice(t.members, pathPrefix, name)
      || (t.ending.BadBody? && Twice(t.members + [t.ending.member], pathPrefix, name))
    case NegativeSize(raw) => BadBodyOf(t, pathPrefix, raw) && t.ending.member.size < 0
    case EntryTooLarge(raw) =>
      || (exists m <- t.members :: m.name == raw && m.regular && |m.body| > caps.perEntry)
      || (BadBodyOf(t, pathPrefix, raw) && t.ending.member.size > caps.perEntry)
    case ArchiveTooLarge =>
      || (exists k: nat :: k <= |t.members| && TooMuch(t.members[..k], pathPrefix, caps))
      || (t.ending.BadBody? && BodySum(KeptFiles(t.members, pathPrefix)) + t.ending.member.size > caps.maxBytes)
  }

  lemma StepBlames(s: Sink, m: Member, name: string, pathPrefix: string, caps: Caps)
    requires 0 < caps.maxBytes <= MAX_INT64 && 0 < caps.perEntry < MAX_INT64 && m.size == |m.body|
    requires Kept(m, pathPrefix) == Some(name) && Fits(s.files, caps) && s.total == BodySum(s.files)
    requires Step(s, m, pathPrefix, caps).Err?
    ensures match Step(s, m, pathPrefix, caps).error
      case Duplicate(n) => n == name && name in s.files
      case EntryTooLarge(raw) => raw == m.name && |m.body| > caps.perEntry
      case ArchiveTooLarge => name !in s.files && BodySum(s.files) + |m.body| > caps.maxBytes
      case _ => false
  {
    WrapIsIdentity(caps.maxBytes - s.total);
    WrapIsIdentity(caps.perEntry + 1);
    if |m.body| <= caps.perEntry && |m.body| <= caps.maxBytes - s.total { WrapIsIdentity(s.total + |m.body|); }
  }

  lemma KeptTwice(ms: seq<Member>, n: nat, pathPrefix: string, name: string)
    requires 0 < n <= |ms| && name in KeptFiles(ms[..n - 1], pathPrefix) && Kept(ms[n - 1], pathPrefix) == Some(name)
    ensures Twice(ms, pathPrefix, name)
  {
    var init := ms[..n - 1];
    KeptIsFile(ms[n - 1], pathPrefix, name);
    KeptFilesHoldKeptNames(init, pathPrefix);
    KeptNamesAre(init, pathPrefix, name);
    var m :| m in init && IsFile(m, pathPrefix, name);
    var i :| 0 <= i < n - 1 && init[i] == m;
    assert IsFile(ms[i], pathPrefix, name);
  }

  lemma KeptTooMuch(ms: seq<Member>, n: nat, pathPrefix: string, caps: Caps, name: string)
    requires 0 < n <= |ms| && name !in KeptFiles(ms[..n - 1], pathPrefix) && Kept(ms[n - 1], pathPrefix) == Some(name)
    requires BodySum(KeptFiles(ms[..n - 1], pathPrefix)) + |ms[n - 1].body| > caps.maxBytes
    ensures TooMuch(ms[..n], pathPrefix, caps)
  {
    KeptAppend(ms[..n - 1], ms[n - 1], pathPrefix, name);
    BodySumAdd(KeptFiles(ms[..n - 1], pathPrefix), name, ms[n - 1].body);
    assert ms[..n] == ms[..n - 1] + [ms[n - 1]];
  }

  lemma LastIsBlamed(t: Stream, n: nat, pathPrefix: string, caps: Caps)
    requires 0 < caps.maxBytes <= MAX_INT64 && 0 < caps.perEntry < MAX_INT64
    requires Truthful(t.members) && 0 < n <= |t.members|
    requires Fits(KeptFiles(t.members[..n - 1], pathPrefix), caps)
    requires Distinct(KeptNames(t.members[..n - 1], pathPrefix))
    requires var files := KeptFiles(t.members[..n - 1], pathPrefix);
      Step(Sink(files, BodySum(files)), t.members[n - 1], pathPrefix, caps).Err?
    ensures var files := KeptFiles(t.members[..n - 1], pathPrefix);
      var e := Step(Sink(files, BodySum(files)), t.members[n - 1], pathPrefix, caps).error;
      Blames(t, pathPrefix, caps, e) && (e.Duplicate? || e.EntryTooLarge? || e.ArchiveTooLarge?)
  {
    var init, m := t.members[..n - 1], t.members[n - 1];
    var files := KeptFiles(init, pathPrefix);
    var name := Kept(m, pathPrefix).value;
    StepBlames(Sink(files, BodySum(files)), m, name, pathPrefix, caps);
    if name in files {
      KeptTwice(t.members, n, pathPrefix, name);
    } else if BodySum(files) + |m.body| > caps.maxBytes {
      KeptTooMuch(t.members, n, pathPrefix, caps, name);
    }
  }

  lemma {:induction false} FoldBlames(t: Stream, n: nat, pathPrefix: string, caps: Caps)
    requires 0 < caps.maxBytes <= MAX_INT64 && 0 < caps.perEntry < MAX_INT64 && Truthful(t.members) && n <= |t.members|
    requires Fold(t.members[..n], pathPrefix, caps).Err?
    ensures Blames(t, pathPrefix, caps, Fold(t.members[..n], pathPrefix, caps).error)
    ensures Fold(t.members[..n], pathPrefix, caps).error.Duplicate?
         || Fold(t.members[..n], pathPrefix, caps).error.EntryTooLarge?
         || Fold(t.members[..n], pathPrefix, caps).error.ArchiveTooLarge?
  {
    var ms := t.members[..n];
    if n == 0 {
    } else {
      var init, m := t.members[..n - 1], t.members[n - 1];
      assert ms[..n - 1] == init && ms[n - 1] == m;
      if Fold(init, pathPrefix, caps).Err? {
        FoldBlames(t, n - 1, pathPrefix, caps);
      } else {
        FoldExact(init, pathPrefix, caps);
        LastIsBlamed(t, n, pathPrefix, caps);
      }
    }
  }

  lemma BelowIff(m: Member, pathPrefix: string)
    ensures Below(m, pathPrefix) <==> Kept(m, pathPrefix).Some?
  {
    if Kept(m, pathPrefix).Some? { KeptIsFile(m, pathPrefix, Kept(m, pathPrefix).value); }
    if name :| IsFile(m, pathPrefix, name) { KeptIsFile(m, pathPrefix, name); }
  }

  lemma KeptOnceMore(ms: seq<Member>, m: Member, pathPrefix: string, name: string)
    requires name in KeptFiles(ms, pathPrefix) && Kept(m, pathPrefix) == Some(name)
    ensures Twice(ms + [m], pathPrefix, name)
  {
    assert (ms + [m])[..|ms|] == ms;
    KeptTwice(ms + [m], |ms| + 1, pathPrefix, name);
  }

  lemma FinishBlames(t: Stream, pathPrefix: string, caps: Caps)
    requires 0 < caps.maxBytes <= MAX_INT64 && 0 < caps.perEntry < MAX_INT64 && !t.ending.Complete?
    requires var files := KeptFiles(t.members, pathPrefix);
      Fits(files, caps) && Fold(t.members, pathPrefix, caps) == Ok(Sink(files, BodySum(files)))
    ensures var files := KeptFiles(t.members, pathPrefix);
      Blames(t, pathPrefix, caps, Finish(Sink(files, BodySum(files)), t.ending, pathPrefix, caps).error)
  {
    var files := KeptFiles(t.members, pathPrefix);
    if t.ending.BadBody? {
      var m := t.ending.member;
      BelowIff(m, pathPrefix);
      WrapIsIdentity(caps.maxBytes - BodySum(files));
      if Kept(m, pathPrefix).Some? && Kept(m, pathPrefix).value in files {
        KeptOnceMore(t.members, m, pathPrefix, Kept(m, pathPrefix).value);
      }
    }
  }

  /** Of a truthful archive, every error says what is so. */
  lemma ErrorsAreTrue(t: Stream, pathPrefix: string, caps: Caps)
    requires Int64Caps(caps) && caps.perEntry < MAX_INT64 && Truthful(t.members) && Extracted(t, pathPrefix, caps).Err?
    ensures Blames(t, pathPrefix, Effective(caps), Extracted(t, pathPrefix, caps).error)
  {
    assert t.members[..|t.members|] == t.members;
    if Fold(t.members, pathPrefix, Effective(caps)).Err? {
      FoldBlames(t, |t.members|, pathPrefix, Effective(caps));
    } else {
      FoldExact(t.members, pathPrefix, Effective(caps));
      FinishBlames(t, pathPrefix, Effective(caps));
    }
  }

  lemma FilesBelowAreKept(ms: seq<Member>, pathPrefix: string, files: Files)
    requires FilesBelow(ms, pathPrefix, files) && NoClash(ms, pathPrefix)
    ensures KeptFiles(ms, pathPrefix) == files
  {
    var kept := KeptFiles(ms, pathPrefix);
    KeptFilesHoldKeptNames(ms, pathPrefix);
    forall name | name in kept || name in files ensures name in kept && name in files && kept[name] == files[name] {
      KeptNamesAre(ms, pathPrefix, name);
      var m :| m in ms && IsFile(m, pathPrefix, name);
      LastBodyWins(ms, m, pathPrefix, name);
    }
  }

  /** A truthful archive comes out, under any prefix, with exactly the files below it, iff it is complete and they fit;
      one with two members at one name does not come out at all. */
  lemma ExtractsFilesBelow(t: Stream, pathPrefix: string, caps: Caps, files: Files)
    requires Int64Caps(caps) && caps.perEntry < MAX_INT64
    requires Truthful(t.members) && FilesBelow(t.members, pathPrefix, files)
    ensures NoClash(t.members, pathPrefix) ==>
        (Extracted(t, pathPrefix, caps).Ok? <==> t.ending.Complete? && Fits(files, Effective(caps))) &&
        (Extracted(t, pathPrefix, caps).Ok? ==> Extracted(t, pathPrefix, caps).value == files)
    ensures !NoClash(t.members, pathPrefix) ==> Extracted(t, pathPrefix, caps).Err?
  {
    ExtractionIsExact(t, pathPrefix, caps);
    NoClashIsDistinct(t.members, pathPrefix);
    if NoClash(t.members, pathPrefix) { FilesBelowAreKept(t.members, pathPrefix, files); }
  }

  /** Without NoWrap a header that understates its body can carry the sum past the int64 range and the cap. archive/tar
      returns no such body, so this shows what the loop relies on it for. */
  lemma LyingHeadersWrapTheSum(a: string, b: string, body: string)
    requires NormaliseEntry(a, "") == Some(a) && NormaliseEntry(b, "") == Some(b) && a != b
    requires |body| == 0x4000_0000_0000_0000
    ensures var t := Stream([Member(a, true, 0, body), Member(b, true, 0, body)], Complete);
      var r := Extracted(t, "", Caps(MAX_INT64, MAX_INT64 - 1));
      r.Ok? && BodySum(r.value) > MAX_INT64
  {
    var caps, m, n := Caps(MAX_INT64, MAX_INT64 - 1), Member(a, true, 0, body), Member(b, true, 0, body);
    assert [m, n][..1] == [m] && [m][..0] == [];
    var one := Sink(map[a := body], |body|);
    WrapIsIdentity(|body|);
    WrapIsIdentity(MAX_INT64);
    WrapIsIdentity(MAX_INT64 - |body|);
    assert Wrap(|body| + |body|) == -MAX_INT64 - 1;
    assert Fold([m], "", caps) == Step(Sink(map[], 0), m, "", caps) == Ok(one);
    assert Fold([m, n], "", caps) == Step(one, n, "", caps) == Ok(Sink(map[a := body, b := body], -MAX_INT64 - 1));
    BodySumAdd(map[], a, body);
    BodySumAdd(map[a := body], b, body);
  }
}
