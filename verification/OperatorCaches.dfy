/** cycleCache of internal/operator/cycle.go, tenantClientCache of internal/operator/clientcache.go, and
    cycleVerdict of internal/operator/reconciler.go. Each method holds the mutex throughout. */
module OperatorCaches {
  import opened EpochCache
  import opened Wrappers

  datatype Verdict = Verdict(hasCycle: bool, path: string)

  class CycleCache {
    var entries: map<string, Entry<int, Verdict>>
    var gen: int

    ghost function View(): Cache<string, int, Verdict>
      reads this
    {
      Cache(entries, gen)
    }

    constructor ()
      ensures View() == Cache(map[], 0)
    {
      entries, gen := map[], 0;
    }

    /** The empty uid never engages the cache. */
    method Lookup(uid: string, generation: int) returns (v: Option<Verdict>, epoch: int)
      ensures v.Some? <==> uid != "" && Holds(View(), uid, generation)
      ensures v.Some? ==> v.value == entries[uid].value
      ensures epoch == if uid == "" then 0 else gen
    {
      if uid == "" { return None, 0; }
      epoch := gen;
      if uid !in entries || entries[uid].tag != generation { return None, epoch; }
      return Some(entries[uid].value), epoch;
    }

    method Store(uid: string, generation: int, epoch: int, v: Verdict) returns (ok: bool)
      modifies this
      ensures ok <==> uid != "" && old(gen) == epoch
      ensures View() == if uid == "" then old(View()) else Stored(old(View()), uid, generation, v, epoch)
      ensures gen == old(gen) && entries == if ok then old(entries)[uid := Entry(generation, v)] else old(entries)
    {
      if uid == "" { return false; }
      if gen != epoch { return false; }
      entries := entries[uid := Entry(generation, v)];
      return true;
    }

    method Forget(uid: string)
      modifies this
      ensures View() == if uid == "" then old(View()) else Forgotten(old(View()), uid)
      ensures uid != "" ==> entries == old(entries) - {uid} && gen == old(gen) + 1
    {
      if uid == "" { return; }
      entries := entries - {uid};
      gen := gen + 1;
    }
  }

  class TenantClientCache<Client> {
    var entries: map<string, Entry<string, Client>>
    var gen: int

    ghost function View(): Cache<string, string, Client>
      reads this
    {
      Cache(entries, gen)
    }

    constructor ()
      ensures View() == Cache(map[], 0)
    {
      entries, gen := map[], 0;
    }

    method Get(key: string, token: string) returns (client: Option<Client>, epoch: int)
      ensures client.Some? <==> Holds(View(), key, token)
      ensures client.Some? ==> client.value == entries[key].value
      ensures epoch == gen
    {
      epoch := gen;
      if key !in entries || entries[key].tag != token { return None, epoch; }
      return Some(entries[key].value), epoch;
    }

    method Put(key: string, token: string, epoch: int, client: Client)
      modifies this
      ensures View() == Stored(old(View()), key, token, client, epoch)
      ensures gen == old(gen)
      ensures entries == if gen == epoch then old(entries)[key := Entry(token, client)] else old(entries)
    {
      if gen != epoch { return; }
      entries := entries[key := Entry(token, client)];
    }

    method Forget(key: string)
      modifies this
      ensures View() == Forgotten(old(View()), key)
      ensures entries == old(entries) - {key} && gen == old(gen) + 1
    {
      entries := entries - {key};
      gen := gen + 1;
    }
  }

  // -- cycleVerdict -------------------------------------------------------------------

  const MAX_RETRIES := 3

  /** What other goroutines do to the cache while a walk runs. */
  datatype Meanwhile = Stores(uid: string, generation: int, verdict: Verdict) | Forgets(uid: string)

  predicate Invalidates(ops: seq<Meanwhile>) { exists op <- ops :: op.Forgets? && op.uid != "" }

  method Interfere(cache: CycleCache, ops: seq<Meanwhile>)
    modifies cache
    ensures cache.gen >= old(cache.gen) && (cache.gen == old(cache.gen) <==> !Invalidates(ops))
  {
    for i := 0 to |ops|
      invariant cache.gen >= old(cache.gen)
      invariant cache.gen == old(cache.gen) <==> !Invalidates(ops[..i])
    {
      assert ops[..i + 1] == ops[..i] + [ops[i]];
      match ops[i] {
        case Stores(uid, generation, v) => var _ := cache.Store(uid, generation, cache.gen, v);
        case Forgets(uid) => cache.Forget(uid);
      }
    }
    assert ops[..|ops|] == ops;
  }

  /** The result of one walk, and what happens to the cache while it runs. */
  datatype Round = Round(walk: Result<Verdict, string>, during: seq<Meanwhile>)

  /** Returns within MAX_RETRIES cached attempts and one more walk, with a verdict cached for this very generation or
      with the last walk's answer; a walk is only repeated because a Forget landed while it ran. */
  method CycleVerdict(cache: CycleCache, uid: string, generation: int, rounds: seq<Round>)
    returns (r: Result<Verdict, string>, walks: nat, hit: bool)
    requires |rounds| == MAX_RETRIES + 1
    modifies cache
    ensures walks <= 4 && (hit ==> walks < 3)
    ensures !hit ==> walks > 0 && r == rounds[walks - 1].walk
    ensures !hit && r.Ok? && walks <= MAX_RETRIES ==>
        uid != "" && Holds(cache.View(), uid, generation) && cache.entries[uid].value == r.value
    ensures hit ==> r.Ok? && uid != "" && Holds(cache.View(), uid, generation) && cache.entries[uid].value == r.value
    ensures forall i :: 0 <= i < walks - 1 ==> rounds[i].walk.Ok? && (uid == "" || Invalidates(rounds[i].during))
  {
    walks, hit := 0, false;
    while walks < MAX_RETRIES
      invariant walks <= MAX_RETRIES
      invariant forall i :: 0 <= i < walks ==> rounds[i].walk.Ok? && (uid == "" || Invalidates(rounds[i].during))
    {
      var v, epoch := cache.Lookup(uid, generation);
      if v.Some? { return Ok(v.value), walks, true; }
      r := rounds[walks].walk;
      Interfere(cache, rounds[walks].during);
      walks := walks + 1;
      if r.Err? { return; }
      var stored := cache.Store(uid, generation, epoch, r.value);
      if stored { return; }
    }
    r := rounds[walks].walk;
    walks := walks + 1;
  }
}
