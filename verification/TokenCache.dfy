/** tokenCache of internal/operator/token.go: the epoch guard, the refresh margin and singleflight.
    Times are in nanoseconds. */
module TokenCache {
  import opened EpochCache
  import opened Wrappers

  datatype Minted = Minted(token: string, expires: int)

  /** The margin is the configured one, clamped to a third of the token's lifetime. */
  function Margin(configured: nat, lifetime: int): (m: nat)
    ensures m <= configured && (lifetime > 0 ==> 3 * m <= lifetime)
    ensures forall other: nat :: other <= configured && (lifetime > 0 ==> 3 * other <= lifetime) ==> other <= m
  {
    if lifetime > 0 && lifetime / 3 < configured then lifetime / 3 else configured
  }

  function RefreshAt(configured: nat, minted: Minted, now: int): int {
    minted.expires - Margin(configured, minted.expires - now)
  }

  /** Less than two thirds of the life that began at now are over. */
  predicate InTwoThirds(t: int, now: int, expires: int) { 3 * (t - now) < 2 * (expires - now) }

  /** What a refresh time is for, of a token got at now: a token that lives at all is served for at least two thirds of
      its life and never once it has expired, and all but the configured margin of it where that is a third or less. */
  ghost predicate WellTimed(configured: nat, minted: Minted, now: int, refreshAt: int) {
    && refreshAt <= minted.expires
    && (now < minted.expires ==>
        && (forall t :: InTwoThirds(t, now, minted.expires) ==> t < refreshAt)
        && (3 * configured <= minted.expires - now ==> refreshAt == minted.expires - configured)
        && (3 * configured > minted.expires - now ==> refreshAt == minted.expires - (minted.expires - now) / 3))
    && (now >= minted.expires ==> refreshAt == minted.expires - configured)
  }

  lemma ServedTwoThirds(configured: nat, minted: Minted, now: int)
    ensures WellTimed(configured, minted, now, RefreshAt(configured, minted, now))
  {
  }

  /** What other callers do to the cache meanwhile. */
  datatype Other = Keeps(key: string, minted: Minted, at: int) | Forgets(key: string)

  function AfterOther(c: Cache<string, int, Minted>, op: Other, configured: nat): Cache<string, int, Minted> {
    match op
    case Keeps(key, minted, at) => Stored(c, key, RefreshAt(configured, minted, at), minted, c.gen)
    case Forgets(key) => Forgotten(c, key)
  }

  function AfterOthers(c: Cache<string, int, Minted>, ops: seq<Other>, configured: nat): Cache<string, int, Minted> {
    if ops == [] then c else AfterOther(AfterOthers(c, ops[..|ops| - 1], configured), ops[|ops| - 1], configured)
  }

  function ForgetsIn(ops: seq<Other>): nat {
    if ops == [] then 0 else ForgetsIn(ops[..|ops| - 1]) + if ops[|ops| - 1].Forgets? then 1 else 0
  }

  predicate Serves(c: Cache<string, int, Minted>, key: string, now: int) {
    key in c.entries && now < c.entries[key].tag
  }

  /** The tag of an entry is its refreshAt. */
  class Tokens {
    const refreshMargin: nat
    var tokens: map<string, Entry<int, Minted>>
    var gen: int

    ghost function View(): Cache<string, int, Minted>
      reads this
    {
      Cache(tokens, gen)
    }

    ghost predicate Valid()
      reads this
    {
      forall key <- tokens.Keys :: tokens[key].tag <= tokens[key].value.expires
    }

    constructor (refreshMargin: nat)
      ensures Valid() && View() == Cache(map[], 0) && this.refreshMargin == refreshMargin
    {
      this.refreshMargin, tokens, gen := refreshMargin, map[], 0;
    }

    /** What Lookup would answer at t. */
    ghost function Answer(key: string, t: int): Option<string>
      reads this
    {
      if key in tokens && t < tokens[key].tag then Some(tokens[key].value.token) else None
    }

    /** A hit is always unexpired. */
    method Lookup(key: string, now: int) returns (hit: Option<string>)
      requires Valid()
      ensures hit.Some? <==> key in tokens && now < tokens[key].tag
      ensures hit.Some? ==> hit.value == tokens[key].value.token && now < tokens[key].value.expires
      ensures hit == Answer(key, now)
    {
      if key !in tokens { return None; }
      if !(now < tokens[key].tag) { return None; }
      return Some(tokens[key].value.token);
    }

    method RefreshMarginFor(expires: int, now: int) returns (margin: int)
      ensures margin == Margin(refreshMargin, expires - now)
    {
      margin := refreshMargin;
      var lifetime := expires - now;
      if lifetime > 0 && lifetime / 3 < margin { margin := lifetime / 3; }
    }

    method Forget(key: string)
      requires Valid()
      modifies this
      ensures Valid() && View() == Forgotten(old(View()), key)
      ensures tokens == old(tokens) - {key} && gen == old(gen) + 1
    {
      tokens := tokens - {key};
      gen := gen + 1;
    }

    /** The write after a mint, under the epoch read before it: from then on lookups hit for as long as they should. */
    method Keep(key: string, minted: Minted, epoch: int, now: int)
      requires Valid()
      modifies this
      ensures Valid()
      ensures View() == Stored(old(View()), key, RefreshAt(refreshMargin, minted, now), minted, epoch)
      ensures gen == old(gen) && tokens - {key} == old(tokens) - {key} && (epoch != gen ==> tokens == old(tokens))
      ensures epoch == gen ==>
          key in tokens && tokens[key].value == minted && WellTimed(refreshMargin, minted, now, tokens[key].tag)
      ensures epoch == gen && now < minted.expires ==>
          forall t :: InTwoThirds(t, now, minted.expires) ==> Answer(key, t) == Some(minted.token)
      ensures epoch == gen ==> forall t :: t >= minted.expires ==> Answer(key, t) == None
    {
      ServedTwoThirds(refreshMargin, minted, now);
      if gen == epoch {
        var margin := RefreshMarginFor(minted.expires, now);
        tokens := tokens[key := Entry(minted.expires - margin, minted)];
      }
    }

    method LetOthersRun(ops: seq<Other>)
      requires Valid()
      modifies this
      ensures Valid() && View() == AfterOthers(old(View()), ops, refreshMargin)
      ensures gen == old(gen) + ForgetsIn(ops)
      ensures ops == [] ==> tokens == old(tokens)
    {
      for i := 0 to |ops|
        invariant Valid() && View() == AfterOthers(old(View()), ops[..i], refreshMargin)
        invariant gen == old(gen) + ForgetsIn(ops[..i]) && (i == 0 ==> tokens == old(tokens))
      {
        assert ops[..i + 1][..i] == ops[..i];
        match ops[i] {
          case Keeps(key, minted, at) => Keep(key, minted, gen, at);
          case Forgets(key) => Forget(key);
        }
      }
      assert ops[..|ops|] == ops;
    }

    /** The function singleflight runs: a second lookup, then the mint, whose write is dropped if a Forget
        intervened. */
    method MintOnce(key: string, now: int, mint: Result<Minted, string>, minted: int, during: seq<Other>)
      returns (r: Result<string, string>, hit: bool)
      requires Valid()
      modifies this
      ensures Valid() && hit == Serves(old(View()), key, now)
      ensures hit ==> r == Ok(old(tokens[key].value.token)) && now < old(tokens[key].value.expires)
      ensures hit ==> View() == old(View())
      ensures !hit ==> var after := AfterOthers(old(View()), during, refreshMargin);
        match mint
        case Err(e) => r == Err(e) && View() == after
        case Ok(m) => r == Ok(m.token) && View() == Stored(after, key, RefreshAt(refreshMargin, m, minted), m, old(gen))
      ensures !hit ==> gen == old(gen) + ForgetsIn(during)
      ensures !hit && mint.Ok? && ForgetsIn(during) == 0 && minted < mint.value.expires ==>
          forall t :: InTwoThirds(t, minted, mint.value.expires) ==> Answer(key, t) == Some(mint.value.token)
    {
      var cached := Lookup(key, now);
      if cached.Some? { return Ok(cached.value), true; }
      var epoch := gen;
      LetOthersRun(during);
      if mint.Err? { return Err(mint.error), false; }
      Keep(key, mint.value, epoch, minted);
      return Ok(mint.value.token), false;
    }

    /** Token as one caller runs it, with what others do before its flight begins and while it mints: a hit on either
        lookup changes nothing and mints nothing; otherwise the answer is the mint's own, stored under the epoch read
        just before it. */
    method Token(key: string, now: int, between: seq<Other>, later: int, mint: Result<Minted, string>, minted: int,
                 during: seq<Other>)
      returns (r: Result<string, string>, hit: bool)
      requires Valid()
      modifies this
      ensures Valid()
      ensures var c := old(View()); Serves(c, key, now) ==>
          hit && r == Ok(c.entries[key].value.token) && now < c.entries[key].value.expires && View() == c
      ensures var c, d := old(View()), AfterOthers(old(View()), between, refreshMargin);
        !Serves(c, key, now) && Serves(d, key, later) ==> hit && r == Ok(d.entries[key].value.token) && View() == d
      ensures var c, d := old(View()), AfterOthers(old(View()), between, refreshMargin);
        !Serves(c, key, now) && !Serves(d, key, later) ==>
          var after := AfterOthers(d, during, refreshMargin);
          match mint
          case Err(e) => !hit && r == Err(e) && View() == after
          case Ok(m) =>
            !hit && r == Ok(m.token) && View() == Stored(after, key, RefreshAt(refreshMargin, m, minted), m, d.gen)
      ensures hit && between == [] ==> tokens == old(tokens) && gen == old(gen)
      ensures old(Answer(key, now)).Some? ==>
          hit && r == Ok(old(Answer(key, now)).value) && tokens == old(tokens) && gen == old(gen)
      ensures between == [] && later == now && old(Answer(key, now)).None? ==> !hit
      ensures !hit && mint.Ok? && ForgetsIn(during) == 0 && minted < mint.value.expires ==>
          forall t :: InTwoThirds(t, minted, mint.value.expires) ==> Answer(key, t) == Some(mint.value.token)
    {
      var cached := Lookup(key, now);
      if cached.Some? { return Ok(cached.value), true; }
      LetOthersRun(between);
      r, hit := MintOnce(key, later, mint, minted, during);
    }
  }

  /** Two calls, the second within two thirds of the life of what the first one minted: it mints nothing. */
  method TokenTwice(c: Tokens, key: string, now: int, first: Minted, again: int, second: Result<Minted, string>)
    returns (a: Result<string, string>, b: Result<string, string>, hit: bool)
    requires c.Valid() && now < first.expires && InTwoThirds(again, now, first.expires) && c.Answer(key, now).None?
    modifies c
    ensures a == b == Ok(first.token) && hit
  {
    var missed;
    a, missed := c.Token(key, now, [], now, Ok(first), now, []);
    b, hit := c.Token(key, again, [], again, second, again, []);
  }

  // -- singleflight -------------------------------------------------------------------

  datatype Flight = Flight(epoch: int, begun: nat)

  /** called is the step at which this caller's Token call began. */
  datatype Caller = Missed(key: string, called: nat) | Waiting(key: string, called: nat)

  datatype FlightState = FlightState(
    cache: Cache<string, int, Made<Minted>>, flights: map<string, Flight>, callers: map<nat, Caller>)

  datatype Step =
    | Look(caller: nat, key: string)
    | Recheck(caller: nat)
    | Join(caller: nat)
    | Lead(caller: nat)
    | Land(key: string, minted: Minted, refreshAt: int)
    | Crash(key: string)
    | Evict(key: string)

  ghost predicate Enabled(s: FlightState, step: Step) {
    match step
    case Look(p, _) => p !in s.callers
    case Recheck(p) => p in s.callers && s.callers[p].Missed? && s.callers[p].key in s.cache.entries
    case Join(p) => p in s.callers && s.callers[p].Missed? && s.callers[p].key in s.flights
    case Lead(p) => p in s.callers && s.callers[p].Missed? && s.callers[p].key !in s.flights
    case Land(key, _, _) => key in s.flights
    case Crash(key) => key in s.flights
    case Evict(_) => true
  }

  /** Everyone waiting for the key returns. */
  ghost function Released(callers: map<nat, Caller>, key: string): map<nat, Caller> {
    map p | p in callers && callers[p] != Waiting(key, callers[p].called) :: callers[p]
  }

  ghost function Do(s: FlightState, step: Step, now: nat): FlightState
    requires Enabled(s, step)
  {
    match step
    case Look(p, key) => s.(callers := s.callers[p := Missed(key, now)])
    case Recheck(p) => s.(callers := s.callers - {p})
    case Join(p) => s.(callers := s.callers[p := Waiting(s.callers[p].key, s.callers[p].called)])
    case Lead(p) =>
      s.(callers := s.callers[p := Waiting(s.callers[p].key, s.callers[p].called)],
         flights := s.flights[s.callers[p].key := Flight(s.cache.gen, now)])
    case Land(key, minted, refreshAt) =>
      FlightState(Stored(s.cache, key, refreshAt, Made(minted, s.flights[key].begun), s.flights[key].epoch),
            s.flights - {key}, Released(s.callers, key))
    case Crash(key) => s.(flights := s.flights - {key}, callers := Released(s.callers, key))
    case Evict(key) => s.(cache := Forgotten(s.cache, key))
  }

  const START := FlightState(Cache(map[], 0), map[], map[])

  ghost predicate Run(states: seq<FlightState>, steps: seq<Step>) {
    && |states| == |steps| + 1 && states[0] == START
    && forall i :: 0 <= i < |steps| ==> Enabled(states[i], steps[i]) && states[i + 1] == Do(states[i], steps[i], i)
  }

  ghost predicate AfterEvictions(steps: seq<Step>, n: nat, key: string, begun: nat)
    requires n <= |steps|
  {
    forall i :: 0 <= i < n && steps[i] == Evict(key) ==> i < begun
  }

  /** Cached tokens are newer than every completed Forget of their key; whoever waits waits for a mint in flight. */
  ghost predicate Inv(s: FlightState, steps: seq<Step>, n: nat)
    requires n <= |steps|
  {
    && (forall key <- s.cache.entries.Keys :: AfterEvictions(steps, n, key, s.cache.entries[key].value.begun))
    && (forall key <- s.flights.Keys :: s.flights[key].epoch <= s.cache.gen && s.flights[key].begun < n)
    && (forall key <- s.flights.Keys :: s.flights[key].epoch == s.cache.gen ==>
        AfterEvictions(steps, n, key, s.flights[key].begun))
    && (forall p <- s.callers.Keys :: s.callers[p].Waiting? ==> s.callers[p].key in s.flights)
  }

  lemma InvStep(s: FlightState, steps: seq<Step>, n: nat)
    requires n < |steps| && Enabled(s, steps[n]) && Inv(s, steps, n)
    ensures Inv(Do(s, steps[n], n), steps, n + 1)
  {
    var t := Do(s, steps[n], n);
    forall key | key in t.cache.entries ensures AfterEvictions(steps, n + 1, key, t.cache.entries[key].value.begun) {
      if key in s.cache.entries { assert AfterEvictions(steps, n, key, s.cache.entries[key].value.begun); }
    }
  }

  lemma {:induction false} CachedTokensAreFresh(states: seq<FlightState>, steps: seq<Step>, n: nat)
    requires Run(states, steps) && n <= |steps|
    ensures Inv(states[n], steps, n)
  {
    if n == 0 {
    } else {
      CachedTokensAreFresh(states, steps, n - 1);
      InvStep(states[n - 1], steps, n - 1);
    }
  }

  lemma {:induction false} CalledBefore(states: seq<FlightState>, steps: seq<Step>, n: nat)
    requires Run(states, steps) && n <= |steps|
    ensures forall p <- states[n].callers.Keys :: states[n].callers[p].called < n
  {
    if n == 0 {
    } else {
      CalledBefore(states, steps, n - 1);
      var s, t := states[n - 1], states[n];
      assert t == Do(s, steps[n - 1], n - 1);
      assert forall p <- t.callers.Keys :: p in s.callers || steps[n - 1] == Look(p, t.callers[p].key);
    }
  }

  /** The caller that leads a flight gets a token minted after its own call began. */
  lemma LeaderIsFresh(states: seq<FlightState>, steps: seq<Step>, i: nat, p: nat)
    requires Run(states, steps) && i < |steps| && steps[i] == Lead(p)
    ensures var c := states[i].callers[p]; states[i + 1].flights[c.key].begun == i && c.called < i
  {
    CalledBefore(states, steps, i);
  }

  /** A caller that joins may not: here caller 1 calls at step 3, after the Forget of step 2, and receives the token
      whose mint began at step 1. Nothing of it stays in the cache. */
  lemma JoinerAfterForgetGetsOlderToken(key: string, minted: Minted)
    returns (states: seq<FlightState>, steps: seq<Step>)
    ensures Run(states, steps) && |steps| == 6
    ensures steps[2] == Evict(key) && steps[3] == Look(1, key) && steps[4] == Join(1)
    ensures steps[5] == Land(key, minted, minted.expires)
    ensures states[5].callers[1] == Waiting(key, 3) && states[5].flights[key].begun == 1
    ensures !AfterEvictions(steps, 3, key, states[5].flights[key].begun) && key !in states[6].cache.entries
  {
    steps := [Look(0, key), Lead(0), Evict(key), Look(1, key), Join(1), Land(key, minted, minted.expires)];
    var s1 := Do(START, steps[0], 0);
    var s2 := Do(s1, steps[1], 1);
    var s3 := Do(s2, steps[2], 2);
    var s4 := Do(s3, steps[3], 3);
    var s5 := Do(s4, steps[4], 4);
    var s6 := Do(s5, steps[5], 5);
    states := [START, s1, s2, s3, s4, s5, s6];
  }

  /** A flight stays the same one until it lands or crashes. */
  lemma {:induction false} FlightStays(states: seq<FlightState>, steps: seq<Step>, j: nat, n: nat, key: string)
    requires Run(states, steps) && j <= n <= |steps| && key in states[j].flights
    requires forall i :: j <= i < n ==>
        !(steps[i].Land? && steps[i].key == key) && !(steps[i].Crash? && steps[i].key == key)
    ensures key in states[n].flights && states[n].flights[key] == states[j].flights[key]
    decreases n
  {
    if j == n {
    } else {
      FlightStays(states, steps, j, n - 1, key);
    }
  }

  /** The Forgets, of any key, among the first n steps. */
  ghost function Evictions(steps: seq<Step>, n: nat): nat
    requires n <= |steps|
  {
    if n == 0 then 0 else Evictions(steps, n - 1) + if steps[n - 1].Evict? then 1 else 0
  }

  lemma {:induction false} EvictionsBetween(steps: seq<Step>, a: nat, b: nat)
    requires a <= b <= |steps|
    ensures Evictions(steps, a) <= Evictions(steps, b)
    ensures Evictions(steps, a) == Evictions(steps, b) <==> forall i :: a <= i < b ==> !steps[i].Evict?
    decreases b
  {
    if a == b {
    } else {
      EvictionsBetween(steps, a, b - 1);
    }
  }

  /** The epoch counts the Forgets so far, and a flight's those before it began. */
  lemma {:induction false} EpochsCount(states: seq<FlightState>, steps: seq<Step>, n: nat)
    requires Run(states, steps) && n <= |steps|
    ensures states[n].cache.gen == Evictions(steps, n)
    ensures forall key <- states[n].flights.Keys ::
        states[n].flights[key].begun < n &&
            states[n].flights[key].epoch == Evictions(steps, states[n].flights[key].begun)
  {
    if n == 0 {
    } else {
      EpochsCount(states, steps, n - 1);
      assert states[n] == Do(states[n - 1], steps[n - 1], n - 1);
    }
  }

  /** The test a joiner could make: the flight it joins carries at least the epoch read when its call began. */
  ghost predicate SameEpoch(states: seq<FlightState>, j: nat, c: Caller)
    requires j < |states| && c.called < |states| && c.key in states[j].flights
  {
    states[j].flights[c.key].epoch >= states[c.called].cache.gen
  }

  /** Caller p, which called at step called and joined at step j, gets the token of the landing at step n. The test
      holds iff nothing at all was forgotten between the flight's start and the call. Then the token is newer than every
      Forget of the key completed before the call; and where only this key was forgotten meanwhile, it is so only
      then. */
  lemma JoinerIsFreshIff(states: seq<FlightState>, steps: seq<Step>, p: nat, j: nat, n: nat)
    requires Run(states, steps) && j < n < |steps| && steps[j] == Join(p)
    requires var key := states[j].callers[p].key;
      steps[n].Land? && steps[n].key == key &&
      forall i :: j <= i < n ==> !(steps[i].Land? && steps[i].key == key) && !(steps[i].Crash? && steps[i].key == key)
    ensures var c := states[j].callers[p];
      && c.called <= |steps| && c.key in states[n].flights && states[n].flights[c.key] == states[j].flights[c.key]
      && var begun := states[n].flights[c.key].begun;
         && (SameEpoch(states, j, c) <==> forall i :: begun <= i < c.called ==> !steps[i].Evict?)
         && (SameEpoch(states, j, c) ==> AfterEvictions(steps, c.called, c.key, begun))
         && ((forall i :: begun <= i < c.called && steps[i].Evict? ==> steps[i].key == c.key) ==>
             (SameEpoch(states, j, c) <==> AfterEvictions(steps, c.called, c.key, begun)))
  {
    var c := states[j].callers[p];
    CalledBefore(states, steps, j);
    FlightStays(states, steps, j, n, c.key);
    EpochsCount(states, steps, j);
    EpochsCount(states, steps, c.called);
    var begun := states[j].flights[c.key].begun;
    if begun <= c.called {
      EvictionsBetween(steps, begun, c.called);
    } else {
      EvictionsBetween(steps, c.called, begun);
    }
  }
}
