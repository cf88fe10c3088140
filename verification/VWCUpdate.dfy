/** UpdateVWCCABundle of internal/webhook/selfsigned/patcher.go against an API server with optimistic concurrency:
    other writers, conflicts and faults at every attempt. */
module VWCUpdate {
  import opened CABundle
  import opened Wrappers

  datatype UpdateError =
    | NameRequired | NotFound | NoWebhooks | EmptyBundle | Forbidden
    | Conflict | ServerTimeout | Unavailable | Throttled | Internal

  /** isRetriableVWCError. */
  predicate Retriable(e: UpdateError) {
    e == Conflict || e == ServerTimeout || e == Unavailable || e == Throttled || e == Internal
  }

  /** One attempt: what Get fails with, the time the mutation reads, what others write between Get and Update, and
      what Update answers; a failing Update may have been applied all the same. */
  datatype Attempt = Attempt(
    getFault: Option<UpdateError>, now: int, foreign: seq<seq<Pem>>, updateFault: Option<UpdateError>, applied: bool)

  /** The caBundle of each webhook entry, and the resource version. */
  class Server {
    var hooks: seq<Pem>
    var version: nat

    constructor (hooks: seq<Pem>)
      ensures this.hooks == hooks
    {
      this.hooks, version := hooks, 0;
    }

    method Write(hooks: seq<Pem>)
      modifies this
      ensures this.hooks == hooks && version == old(version) + 1
    {
      this.hooks, version := hooks, version + 1;
    }

    method WriteAll(foreign: seq<seq<Pem>>)
      modifies this
      ensures version == old(version) + |foreign|
      ensures this.hooks == if foreign == [] then old(this.hooks) else foreign[|foreign| - 1]
    {
      for i := 0 to |foreign|
        invariant version == old(version) + i
        invariant this.hooks == if i == 0 then old(this.hooks) else foreign[i - 1]
      {
        Write(foreign[i]);
      }
    }

    /** Update carries the version it read; a stale one is a conflict. */
    method Update(next: seq<Pem>, read: nat, fault: Option<UpdateError>, applied: bool)
      returns (error: Option<UpdateError>)
      modifies this
      ensures error == if read != old(version) then Some(Conflict) else fault
      ensures hooks == if read == old(version) && (fault.None? || applied) then next else old(hooks)
    {
      if read != version { return Some(Conflict); }
      if fault.None? || applied { Write(next); }
      return fault;
    }
  }

  function Stamped(hooks: seq<Pem>, bundle: Pem): seq<Pem> {
    seq(|hooks|, i => bundle)
  }

  /** Every entry gets the bundle; changed iff some entry differed. */
  method StampAll(hooks: seq<Pem>, bundle: Pem) returns (next: seq<Pem>, changed: bool)
    ensures next == Stamped(hooks, bundle) && (changed <==> next != hooks)
  {
    next, changed := hooks, false;
    for i := 0 to |hooks|
      invariant |next| == |hooks|
      invariant forall j :: 0 <= j < |hooks| ==> next[j] == if j < i then bundle else hooks[j]
      invariant changed <==> exists j :: 0 <= j < i && hooks[j] != bundle
    {
      if next[i] != bundle {
        next := next[i := bundle];
        changed := true;
      }
    }
    assert next == Stamped(hooks, bundle);
    if changed {
      var j :| 0 <= j < |hooks| && hooks[j] != bundle;
      assert next[j] != hooks[j];
    }
  }

  /** The one thing this client may do to the object: merge into the first entry's bundle and stamp it everywhere. */
  ghost predicate AtomicMerge(before: seq<Pem>, after: seq<Pem>, add: Pem, remove: Pem, now: int) {
    before != [] && Merged(before[0], add, remove, now) != [] &&
        after == Stamped(before, Merged(before[0], add, remove, now))
  }

  /** No fault, and nobody writes in between. */
  predicate Undisturbed(a: Attempt) { a.getFault.None? && a.foreign == [] && a.updateFault.None? }

  lemma MergeIsNotEmpty(current: Pem, add: Pem, remove: Pem, now: int)
    requires Trusts(add) != {}
    ensures Merged(current, add, remove, now) != []
  {
    MergeTrusts(current, add, remove, now);
    var b :| b in Trusts(add);
    assert b in Trusts(Merged(current, add, remove, now));
  }

  /** A single attempt is an atomic merge of what the server held at one moment, or changes nothing itself. */
  method Try(server: Server, add: Pem, remove: Pem, a: Attempt)
    returns (error: Option<UpdateError>, ghost before: seq<Pem>, ghost after: seq<Pem>)
    modifies server
    ensures error.None? ==> AtomicMerge(before, after, add, remove, a.now)
    ensures Undisturbed(a) && old(server.hooks) != [] && Trusts(add) != {} ==> error.None?
    ensures after == before || AtomicMerge(before, after, add, remove, a.now)
    ensures before == old(server.hooks) || before in a.foreign
    ensures server.hooks == after || (after == before && server.hooks in a.foreign)
    ensures a.getFault.Some? ==> error == a.getFault && server.hooks == old(server.hooks)
    ensures a.getFault.None? && old(server.hooks) == [] ==> error == Some(NoWebhooks)
    ensures error.Some? && a.getFault.None? ==>
        error.value in {NoWebhooks, EmptyBundle, Conflict} || error == a.updateFault
  {
    before, after := server.hooks, server.hooks;
    if a.getFault.Some? { return a.getFault, before, after; }
    var read, hooks := server.version, server.hooks;
    if hooks == [] { return Some(NoWebhooks), before, after; }
    var next := MergeCABundle(hooks[0], add, remove, a.now);
    if Trusts(add) != {} { MergeIsNotEmpty(hooks[0], add, remove, a.now); }
    if next == [] { return Some(EmptyBundle), before, after; }
    var stamped, changed := StampAll(hooks, next);
    if !changed { return None, before, after; }
    server.WriteAll(a.foreign);
    before := server.hooks;
    error := server.Update(stamped, read, a.updateFault, a.applied);
    after := server.hooks;
  }

  /** retry.OnError: repeats while the error is retriable and attempts are left. On success the last thing this client
      did is one atomic merge, at the time of one of the attempts; an error that ends it is the last attempt's. */
  method UpdateVWCCABundle(server: Server, name: string, add: Pem, remove: Pem, attempts: seq<Attempt>)
    returns (error: Option<UpdateError>, used: nat, ghost before: seq<Pem>, ghost after: seq<Pem>,
             ghost retried: seq<UpdateError>)
    requires attempts != []
    modifies server
    ensures used <= |attempts| && (used == 0 <==> name == "")
    ensures name == "" ==> error == Some(NameRequired) && server.hooks == old(server.hooks)
    ensures error.None? ==> used > 0 && AtomicMerge(before, after, add, remove, attempts[used - 1].now)
    ensures error.Some? ==>
        used == |attempts| || error.value in {NameRequired, NotFound, NoWebhooks, EmptyBundle, Forbidden}
    ensures |retried| == if used == 0 then 0 else used - 1
    ensures forall e <- retried :: e in {Conflict, ServerTimeout, Unavailable, Throttled, Internal}
    ensures name != "" && old(server.hooks) != [] && Trusts(add) != {} && Undisturbed(attempts[0]) ==>
        error.None? && used == 1
    ensures used > 0 ==> server.hooks == after || (after == before && server.hooks in attempts[used - 1].foreign)
  {
    if name == "" { return Some(NameRequired), 0, server.hooks, server.hooks, []; }
    used, error, before, after, retried := 0, None, server.hooks, server.hooks, [];
    while used < |attempts|
      invariant used <= |attempts|
      invariant used == 0 ==> server.hooks == old(server.hooks)
      invariant used > 0 ==> error.Some? && Retriable(error.value) && |retried| == used - 1
      invariant used == 0 ==> retried == []
      invariant forall e <- retried :: e in {Conflict, ServerTimeout, Unavailable, Throttled, Internal}
      invariant used > 0 && old(server.hooks) != [] && Trusts(add) != {} ==> !Undisturbed(attempts[0])
      invariant used > 0 ==> server.hooks == after || (after == before && server.hooks in attempts[used - 1].foreign)
    {
      if used > 0 { retried := retried + [error.value]; }
      error, before, after := Try(server, add, remove, attempts[used]);
      used := used + 1;
      if error.None? || !Retriable(error.value) { return; }
    }
  }

  /** With MergeTrusts: what a completed update made every entry trust. */
  lemma UpdateTrusts(before: seq<Pem>, after: seq<Pem>, add: Pem, remove: Pem, now: int)
    requires AtomicMerge(before, after, add, remove, now)
    ensures |after| == |before|
    ensures forall i :: 0 <= i < |after| ==>
        Trusts(after[i]) == MergedSet(Trusts(before[0]), Trusts(add), Trusts(remove), now)
  {
    MergeTrusts(before[0], add, remove, now);
  }
}
