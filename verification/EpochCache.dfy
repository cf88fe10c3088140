/** The epoch-guarded cache that cycleCache, tokenCache and tenantClientCache of internal/operator share: read
    the epoch, compute outside the lock, store only if no Forget came in between. */
module EpochCache {

  /** tag is what a lookup compares: the generation, the token, or nothing. */
  datatype Entry<T, V> = Entry(tag: T, value: V)

  datatype Cache<K, T, V> = Cache(entries: map<K, Entry<T, V>>, gen: int)

  predicate Holds<K(==), T(==), V>(c: Cache<K, T, V>, key: K, tag: T) {
    key in c.entries && c.entries[key].tag == tag
  }

  function Stored<K, T, V>(c: Cache<K, T, V>, key: K, tag: T, value: V, epoch: int): Cache<K, T, V> {
    if c.gen == epoch then c.(entries := c.entries[key := Entry(tag, value)]) else c
  }

  function Forgotten<K, T, V>(c: Cache<K, T, V>, key: K): Cache<K, T, V> {
    Cache(c.entries - {key}, c.gen + 1)
  }

  // -- any number of callers ----------------------------------------------------------

  /** begun is the step at which the computation of the value started. */
  datatype Made<V> = Made(value: V, begun: nat)

  datatype Call<K> = Reading(key: K, epoch: int) | Computing(key: K, epoch: int, begun: nat)

  datatype State<K, T, V> = State(cache: Cache<K, T, Made<V>>, calls: map<nat, Call<K>>)

  datatype Step<K, T, V> =
    | Miss(caller: nat, key: K)
    | Start(caller: nat)
    | Store(caller: nat, tag: T, value: V)
    | Abandon(caller: nat)
    | Forget(key: K)

  ghost predicate Enabled<K, T, V>(s: State<K, T, V>, step: Step<K, T, V>) {
    match step
    case Miss(p, _) => p !in s.calls
    case Start(p) => p in s.calls && s.calls[p].Reading?
    case Store(p, _, _) => p in s.calls && s.calls[p].Computing?
    case Abandon(p) => p in s.calls
    case Forget(_) => true
  }

  ghost function Do<K, T, V>(s: State<K, T, V>, step: Step<K, T, V>, now: nat): State<K, T, V>
    requires Enabled(s, step)
  {
    match step
    case Miss(p, key) => s.(calls := s.calls[p := Reading(key, s.cache.gen)])
    case Start(p) => s.(calls := s.calls[p := Computing(s.calls[p].key, s.calls[p].epoch, now)])
    case Store(p, tag, value) =>
      State(Stored(s.cache, s.calls[p].key, tag, Made(value, s.calls[p].begun), s.calls[p].epoch), s.calls - {p})
    case Abandon(p) => s.(calls := s.calls - {p})
    case Forget(key) => s.(cache := Forgotten(s.cache, key))
  }

  ghost predicate Run<K, T, V>(states: seq<State<K, T, V>>, steps: seq<Step<K, T, V>>) {
    && |states| == |steps| + 1 && states[0] == State(Cache(map[], 0), map[])
    && forall i :: 0 <= i < |steps| ==> Enabled(states[i], steps[i]) && states[i + 1] == Do(states[i], steps[i], i)
  }

  /** No Forget of the key among the first n steps came at or after begun. */
  ghost predicate AfterForgets<K, T, V>(steps: seq<Step<K, T, V>>, n: nat, key: K, begun: nat)
    requires n <= |steps|
  {
    forall i :: 0 <= i < n && steps[i] == Forget(key) ==> i < begun
  }

  ghost predicate AfterAllForgets<K, T, V>(steps: seq<Step<K, T, V>>, n: nat, begun: nat)
    requires n <= |steps|
  {
    forall i :: 0 <= i < n && steps[i].Forget? ==> i < begun
  }

  /** Every value a lookup could find now was computed after the last Forget of its key. */
  ghost predicate Fresh<K, T, V>(s: State<K, T, V>, steps: seq<Step<K, T, V>>, n: nat)
    requires n <= |steps|
  {
    forall key <- s.cache.entries.Keys :: AfterForgets(steps, n, key, s.cache.entries[key].value.begun)
  }

  /** A caller whose epoch is still the current one started after every Forget so far. */
  ghost predicate CurrentCallsAreLate<K, T, V>(s: State<K, T, V>, steps: seq<Step<K, T, V>>, n: nat)
    requires n <= |steps|
  {
    && (forall p <- s.calls.Keys :: s.calls[p].epoch <= s.cache.gen)
    && (forall p <- s.calls.Keys :: s.calls[p].epoch == s.cache.gen && s.calls[p].Computing? ==>
        AfterAllForgets(steps, n, s.calls[p].begun))
  }

  lemma FreshStep<K, T, V>(s: State<K, T, V>, steps: seq<Step<K, T, V>>, n: nat)
    requires n < |steps| && Enabled(s, steps[n]) && Fresh(s, steps, n) && CurrentCallsAreLate(s, steps, n)
    ensures Fresh(Do(s, steps[n], n), steps, n + 1)
    ensures CurrentCallsAreLate(Do(s, steps[n], n), steps, n + 1)
  {
    var t := Do(s, steps[n], n);
    forall key | key in t.cache.entries ensures AfterForgets(steps, n + 1, key, t.cache.entries[key].value.begun) {
      if key in s.cache.entries { assert AfterForgets(steps, n, key, s.cache.entries[key].value.begun); }
    }
  }

  /** In every interleaving, whatever a lookup can find was computed after every completed Forget of its key. */
  lemma {:induction false} HitsAreFresh<K, T, V>(states: seq<State<K, T, V>>, steps: seq<Step<K, T, V>>, n: nat)
    requires Run(states, steps) && n <= |steps|
    ensures Fresh(states[n], steps, n) && CurrentCallsAreLate(states[n], steps, n)
  {
    if n == 0 {
    } else {
      HitsAreFresh(states, steps, n - 1);
      FreshStep(states[n - 1], steps, n - 1);
    }
  }

  /** The epoch test is what does it: without it this run's store would bring back a forgotten value. */
  lemma UnguardedStoreRevives<K, T, V>(key: K, tag: T, value: V)
    returns (states: seq<State<K, T, V>>, steps: seq<Step<K, T, V>>)
    ensures Run(states, steps) && |steps| == 3 && Enabled(states[3], Store(0, tag, value))
    ensures var s, made := states[3], Made(value, states[3].calls[0].begun);
      && !Fresh(s.(cache := s.cache.(entries := s.cache.entries[key := Entry(tag, made)])), steps, 3)
      && Do(s, Store(0, tag, value), 3).cache == s.cache
  {
    var s0: State<K, T, V> := State(Cache(map[], 0), map[]);
    steps := [Miss(0, key), Start(0), Forget(key)];
    var s1 := Do(s0, steps[0], 0);
    var s2 := Do(s1, steps[1], 1);
    var s3 := Do(s2, steps[2], 2);
    states := [s0, s1, s2, s3];
    var revived := s3.(cache := s3.cache.(entries := s3.cache.entries[key := Entry(tag, Made(value, 1))]));
    assert key in revived.cache.entries && !AfterForgets(steps, 3, key, 1);
  }
}
