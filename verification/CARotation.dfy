/** Bootstrap and rotation of the self-signed webhook certificate across any number of replicas: main.go's
    bootstrap stamp and renewOnce of internal/webhook/selfsigned/renewer.go, over one shared caBundle that is
    read and written under optimistic concurrency. */
module CARotation {
  import opened CABundle
  import opened Wrappers

  datatype Stage =
    | Stamping                 // bootstrapped, the first stamp has not been reported done
    | Resting
    | Uniting(made: Block)     // union of the new CA into the bundle
    | Writing(made: Block)     // key and certificate to disk
    | Guarding(made: Block)
    | Trimming(made: Block)    // removal of the superseded CA

  /** A read bundle with the bytes it merges to, and the version it was read at. */
  datatype Snapshot = Snapshot(next: set<Block>, version: nat, at: int)

  /** serving is the CA of the certificate in memory, disk that of the one on disk; stamped once the first stamp has
      landed, reported or not. A half-written pair fails to load and leaves both as they were. */
  datatype Pod = Pod(serving: Block, disk: Block, current: Block, stage: Stage, snap: Option<Snapshot>, stamped: bool)

  /** The shared object and its version, the time, and every CA generated so far. */
  datatype World = World(bundle: set<Block>, version: nat, now: int, used: set<Block>)

  datatype State = State(w: World, pods: map<nat, Pod>)

  datatype Step =
    | Boot(pod: nat, ca: Block)
    | Generate(pod: nat, ca: Block)
    | Get(pod: nat)
    | Update(pod: nat, applied: bool, reported: bool)
    | WriteCert(pod: nat)
    | Reload(pod: nat)
    | GuardOver(pod: nat)
    | Abort(pod: nat)
    | Stop(pod: nat)
    | Tick(now: int)

  function Adds(p: Pod): Block {
    match p.stage
    case Stamping => p.current
    case Resting => p.current
    case Uniting(ca) => ca
    case Writing(ca) => ca
    case Guarding(ca) => ca
    case Trimming(ca) => ca
  }

  function Removes(p: Pod): set<Block> {
    if p.stage.Trimming? then {p.current} else {}
  }

  predicate Updating(p: Pod) { p.stage.Stamping? || p.stage.Uniting? || p.stage.Trimming? }

  /** What a reported success moves the pod on to. */
  function Advance(p: Pod): Pod {
    match p.stage
    case Stamping => p.(stage := Resting, snap := None)
    case Uniting(ca) => p.(stage := Writing(ca), snap := None)
    case Trimming(ca) => p.(stage := Resting, snap := None, current := ca)
    case _ => p
  }

  ghost predicate Enabled(s: State, step: Step) {
    match step
    case Boot(p, ca) => p !in s.pods && ca !in s.w.used && ca.Certificate?
    case Generate(p, ca) => p in s.pods && s.pods[p].stage.Resting? && ca !in s.w.used && ca.Certificate?
    case Get(p) => p in s.pods && Updating(s.pods[p])
    case Update(p, applied, reported) =>
      p in s.pods && Updating(s.pods[p]) && s.pods[p].snap.Some? &&
      (applied ==> s.pods[p].snap.value.version == s.w.version) && (reported ==> applied)
    case WriteCert(p) => p in s.pods && s.pods[p].stage.Writing?
    case Reload(p) => p in s.pods
    case GuardOver(p) => p in s.pods && s.pods[p].stage.Guarding?
    case Abort(p) => p in s.pods && !s.pods[p].stage.Stamping?
    case Stop(p) => p in s.pods
    case Tick(now) => s.w.now <= now
  }

  function WithPod(s: State, p: nat, pod: Pod): State { s.(pods := s.pods[p := pod]) }

  function WithUsed(w: World, ca: Block): World { w.(used := w.used + {ca}) }

  function Written(w: World, next: set<Block>): World { w.(bundle := next, version := w.version + 1) }

  function Landed(p: Pod): Pod { p.(snap := None, stamped := true) }

  /** An unchanged bundle is a success without an Update. */
  function DoGet(s: State, p: nat): State
    requires p in s.pods
  {
    var pod := s.pods[p];
    var next := MergedSet(s.w.bundle, {Adds(pod)}, Removes(pod), s.w.now);
    if next == s.w.bundle then WithPod(s, p, Advance(Landed(pod)))
    else WithPod(s, p, pod.(snap := Some(Snapshot(next, s.w.version, s.w.now))))
  }

  function DoUpdate(s: State, p: nat, applied: bool, reported: bool): State
    requires p in s.pods && s.pods[p].snap.Some?
  {
    var pod := s.pods[p];
    if !applied then WithPod(s, p, pod.(snap := None))
    else
      var written := State(Written(s.w, pod.snap.value.next), s.pods);
      WithPod(written, p, if reported then Advance(Landed(pod)) else Landed(pod))
  }

  ghost function Do(s: State, step: Step): State
    requires Enabled(s, step)
  {
    match step
    case Boot(p, ca) => WithPod(State(WithUsed(s.w, ca), s.pods), p, Pod(ca, ca, ca, Stamping, None, false))
    case Generate(p, ca) => WithPod(State(WithUsed(s.w, ca), s.pods), p, s.pods[p].(stage := Uniting(ca), snap := None))
    case Get(p) => DoGet(s, p)
    case Update(p, applied, reported) => DoUpdate(s, p, applied, reported)
    case WriteCert(p) => WithPod(s, p,
        s.pods[p].(disk := s.pods[p].stage.made, stage := Guarding(s.pods[p].stage.made)))
    case Reload(p) => WithPod(s, p, s.pods[p].(serving := s.pods[p].disk))
    case GuardOver(p) => WithPod(s, p, s.pods[p].(stage := Trimming(s.pods[p].stage.made), snap := None))
    case Abort(p) => WithPod(s, p, s.pods[p].(stage := Resting, snap := None))
    case Stop(p) => s.(pods := s.pods - {p})
    case Tick(now) => s.(w := s.w.(now := now))
  }

  ghost predicate Run(states: seq<State>, steps: seq<Step>) {
    && |states| == |steps| + 1 && states[0].pods == map[] && states[0].w.bundle <= states[0].w.used
    && forall i :: 0 <= i < |steps| ==> Enabled(states[i], steps[i]) && states[i + 1] == Do(states[i], steps[i])
  }

  /** What the guard delay is for: when a trim lands, the CA it retires is no longer served, or has expired. */
  ghost predicate RetiredNotServed(s: State, step: Step) {
    step.Update? && step.applied && step.pod in s.pods && s.pods[step.pod].stage.Trimming? ==>
      var pod := s.pods[step.pod];
      pod.serving != pod.current || Expired(pod.serving, s.w.now)
  }

  /** Every trim that landed among the first n steps. */
  ghost predicate CoveredUpTo(states: seq<State>, steps: seq<Step>, n: nat)
    requires n <= |steps| < |states|
  {
    forall i :: 0 <= i < n ==> RetiredNotServed(states[i], steps[i])
  }

  // -- the invariant ------------------------------------------------------------------

  ghost predicate TrustedOrExpired(w: World, ca: Block) { ca in w.bundle || Expired(ca, w.now) }

  function Made(p: Pod): set<Block> {
    if p.stage.Stamping? || p.stage.Resting? then {} else {p.stage.made}
  }

  function Refs(p: Pod): set<Block> { {p.serving, p.disk, p.current} + Made(p) }

  /** A snapshot still current is what the merge makes of the bundle as it is now. */
  ghost predicate SnapInv(w: World, p: Pod)
    requires p.snap.Some?
  {
    && Updating(p) && p.snap.value.version <= w.version && p.snap.value.at <= w.now
    && (p.snap.value.version == w.version ==>
        p.snap.value.next == MergedSet(w.bundle, {Adds(p)}, Removes(p), p.snap.value.at))
  }

  /** What one pod relies on. */
  ghost predicate PodInv(w: World, p: Pod) {
    && Refs(p) <= w.used
    && (!p.stamped ==> p.stage.Stamping?)
    && (p.stage.Stamping? ==> p.serving == p.disk == p.current)
    && (p.stamped ==> TrustedOrExpired(w, p.serving) && TrustedOrExpired(w, p.disk))
    && (p.stage.Writing? || p.stage.Guarding? || p.stage.Trimming? ==> TrustedOrExpired(w, p.stage.made))
    && (p.stage.Uniting? || p.stage.Writing? || p.stage.Guarding? || p.stage.Trimming? ==> p.stage.made != p.current)
    && (p.stage.Guarding? ==> p.disk == p.stage.made)
    && (p.stage.Trimming? ==> p.disk == p.stage.made)
    && (p.snap.Some? ==> SnapInv(w, p) && p.snap.value.next <= w.used)
  }

  ghost predicate Inv(s: State) {
    && s.w.bundle <= s.w.used
    && (forall p <- s.pods.Keys :: PodInv(s.w, s.pods[p]))
    && (forall p <- s.pods.Keys, q <- s.pods.Keys :: p != q ==> Refs(s.pods[p]) !! Refs(s.pods[q]))
  }

  /** Every pod past its first stamp is trusted. */
  ghost predicate ServingTrusted(s: State) {
    forall p <- s.pods.Keys :: s.pods[p].stamped ==> TrustedOrExpired(s.w, s.pods[p].serving)
  }

  /** Only pod p changed, and nothing shared. */
  lemma PodStep(s: State, p: nat, pod: Pod)
    requires Inv(s) && p in s.pods && PodInv(s.w, pod) && Refs(pod) <= Refs(s.pods[p])
    ensures Inv(WithPod(s, p, pod))
  {
  }

  lemma UsedGrows(w: World, ca: Block, p: Pod)
    requires PodInv(w, p)
    ensures PodInv(WithUsed(w, ca), p)
  {
  }

  lemma NewCa(s: State, p: nat, ca: Block, pod: Pod)
    requires Inv(s) && ca !in s.w.used && Refs(pod) <= (if p in s.pods then Refs(s.pods[p]) else {}) + {ca}
    requires PodInv(WithUsed(s.w, ca), pod)
    ensures Inv(WithPod(State(WithUsed(s.w, ca), s.pods), p, pod))
  {
    forall q | q in s.pods && q != p ensures PodInv(WithUsed(s.w, ca), s.pods[q]) && Refs(pod) !! Refs(s.pods[q]) {
      UsedGrows(s.w, ca, s.pods[q]);
    }
  }

  /** Another pod's landing update, from a snapshot that is still current. */
  lemma OthersUpdate(w: World, pod: Pod, other: Pod)
    requires PodInv(w, pod) && PodInv(w, other) && Refs(pod) !! Refs(other) && Updating(pod)
    requires pod.snap.Some? && pod.snap.value.version == w.version
    ensures PodInv(Written(w, pod.snap.value.next), other)
  {
    forall ca | ca in Refs(other) && TrustedOrExpired(w, ca)
      ensures TrustedOrExpired(Written(w, pod.snap.value.next), ca) {
      assert pod.current in Refs(pod);
    }
  }

  lemma OwnUpdate(w: World, pod: Pod)
    requires PodInv(w, pod) && Updating(pod)
    requires pod.stage.Trimming? ==> pod.serving != pod.current || Expired(pod.serving, w.now)
    requires pod.snap.Some? && pod.snap.value.version == w.version
    ensures PodInv(Written(w, pod.snap.value.next), Advance(Landed(pod)))
    ensures PodInv(Written(w, pod.snap.value.next), Landed(pod))
  {
    forall ca | ca in Refs(pod) && ca !in Removes(pod) && TrustedOrExpired(w, ca)
      ensures TrustedOrExpired(Written(w, pod.snap.value.next), ca)
    {
    }
  }

  lemma UpdateLands(s: State, p: nat, pod: Pod)
    requires Inv(s) && p in s.pods && Updating(s.pods[p]) && RetiredNotServed(s, Update(p, true, true))
    requires s.pods[p].snap.Some? && s.pods[p].snap.value.version == s.w.version
    requires pod == Landed(s.pods[p]) || pod == Advance(Landed(s.pods[p]))
    ensures Inv(WithPod(State(Written(s.w, s.pods[p].snap.value.next), s.pods), p, pod))
  {
    var w := Written(s.w, s.pods[p].snap.value.next);
    OwnUpdate(s.w, s.pods[p]);
    forall q | q in s.pods && q != p ensures PodInv(w, s.pods[q]) {
      OthersUpdate(s.w, s.pods[p], s.pods[q]);
    }
    assert w.bundle <= w.used;
  }

  lemma UpdateKeepsInv(s: State, p: nat, applied: bool, reported: bool)
    requires Inv(s) && Enabled(s, Update(p, applied, reported)) && RetiredNotServed(s, Update(p, applied, reported))
    ensures Inv(DoUpdate(s, p, applied, reported))
  {
    var pod := s.pods[p];
    if applied {
      UpdateLands(s, p, if reported then Advance(Landed(pod)) else Landed(pod));
    } else {
      PodStep(s, p, pod.(snap := None));
    }
  }

  lemma GetKeepsInv(s: State, p: nat)
    requires Inv(s) && Enabled(s, Get(p))
    ensures Inv(DoGet(s, p))
  {
    var pod := s.pods[p];
    var next := MergedSet(s.w.bundle, {Adds(pod)}, Removes(pod), s.w.now);
    assert Adds(pod) in next && Adds(pod) in Refs(pod) && PodInv(s.w, pod);
    var read := Some(Snapshot(next, s.w.version, s.w.now));
    PodStep(s, p, if next == s.w.bundle then Advance(Landed(pod)) else pod.(snap := read));
  }

  lemma TimePasses(w: World, now: int, p: Pod)
    requires PodInv(w, p) && w.now <= now
    ensures PodInv(w.(now := now), p)
  {
  }

  lemma TickKeepsInv(s: State, now: int)
    requires Inv(s) && s.w.now <= now
    ensures Inv(s.(w := s.w.(now := now)))
  {
    forall p | p in s.pods ensures PodInv(s.w.(now := now), s.pods[p]) { TimePasses(s.w, now, s.pods[p]); }
  }

  lemma BootKeepsInv(s: State, p: nat, ca: Block)
    requires Inv(s) && Enabled(s, Boot(p, ca))
    ensures Inv(Do(s, Boot(p, ca)))
  {
    NewCa(s, p, ca, Pod(ca, ca, ca, Stamping, None, false));
  }

  lemma GenerateKeepsInv(s: State, p: nat, ca: Block)
    requires Inv(s) && Enabled(s, Generate(p, ca))
    ensures Inv(Do(s, Generate(p, ca)))
  {
    UsedGrows(s.w, ca, s.pods[p]);
    NewCa(s, p, ca, s.pods[p].(stage := Uniting(ca), snap := None));
  }

  lemma StepKeepsInv(s: State, step: Step)
    requires Inv(s) && Enabled(s, step) && RetiredNotServed(s, step)
    ensures Inv(Do(s, step))
  {
    match step {
      case Boot(p, ca) => BootKeepsInv(s, p, ca);
      case Generate(p, ca) => GenerateKeepsInv(s, p, ca);
      case Get(p) => GetKeepsInv(s, p);
      case Update(p, applied, reported) => UpdateKeepsInv(s, p, applied, reported);
      case WriteCert(p) => PodStep(s, p,
          s.pods[p].(disk := s.pods[p].stage.made, stage := Guarding(s.pods[p].stage.made)));
      case Reload(p) => PodStep(s, p, s.pods[p].(serving := s.pods[p].disk));
      case GuardOver(p) => PodStep(s, p, s.pods[p].(stage := Trimming(s.pods[p].stage.made), snap := None));
      case Abort(p) => PodStep(s, p, s.pods[p].(stage := Resting, snap := None));
      case Stop(p) =>
      case Tick(now) => TickKeepsInv(s, now);
    }
  }

  lemma {:induction false} RunKeepsInv(states: seq<State>, steps: seq<Step>, n: nat)
    requires Run(states, steps) && n <= |steps|
    requires CoveredUpTo(states, steps, n)
    ensures Inv(states[n])
  {
    if n == 0 {
    } else {
      RunKeepsInv(states, steps, n - 1);
      StepKeepsInv(states[n - 1], steps[n - 1]);
    }
  }

  /** In every interleaving of any number of pods booting, stamping, rotating, failing and stopping, with conflicts and
      lost answers anywhere: once a pod's first stamp has landed, the CA of what it serves is trusted until it
      expires. */
  lemma RotationKeepsServingTrusted(states: seq<State>, steps: seq<Step>, n: nat)
    requires Run(states, steps) && n <= |steps|
    requires CoveredUpTo(states, steps, n)
    ensures ServingTrusted(states[n])
  {
    RunKeepsInv(states, steps, n);
    var s := states[n];
    forall p | p in s.pods && s.pods[p].stamped ensures TrustedOrExpired(s.w, s.pods[p].serving) {
      assert PodInv(s.w, s.pods[p]);
    }
  }

  // -- the hypothesis is exact ----------------------------------------------------------

  /** A trim that lands leaves its pod trusted iff the CA it retires is no longer served, or has expired. */
  lemma TrimKeepsServingIff(s: State, p: nat, reported: bool)
    requires Inv(s) && Enabled(s, Update(p, true, reported)) && s.pods[p].stage.Trimming?
    ensures var pod, t := s.pods[p], Do(s, Update(p, true, reported));
      TrustedOrExpired(t.w, t.pods[p].serving) <==> pod.serving != pod.current || Expired(pod.serving, s.w.now)
  {
    assert PodInv(s.w, s.pods[p]);
  }

  lemma UncoveredTrimBreaksTrust(s: State, step: Step)
    requires Inv(s) && Enabled(s, step) && !RetiredNotServed(s, step)
    ensures !ServingTrusted(Do(s, step))
  {
    assert PodInv(s.w, s.pods[step.pod]);
    TrimKeepsServingIff(s, step.pod, step.reported);
    var t := Do(s, step);
    assert step.pod in t.pods && t.pods[step.pod].stamped;
  }

  ghost predicate TrustedUpTo(states: seq<State>, n: nat)
    requires n < |states|
  {
    forall i :: 0 <= i <= n ==> ServingTrusted(states[i])
  }

  /** Whole runs: every pod past its first stamp is trusted in all of the first n states iff every trim that landed on
      the way was covered. */
  lemma {:induction false} TrustedThroughoutIff(states: seq<State>, steps: seq<Step>, n: nat)
    requires Run(states, steps) && n <= |steps|
    ensures TrustedUpTo(states, n) <==> CoveredUpTo(states, steps, n)
  {
    if n == 0 {
      RotationKeepsServingTrusted(states, steps, 0);
    } else {
      TrustedThroughoutIff(states, steps, n - 1);
      if !CoveredUpTo(states, steps, n - 1) {
        assert !TrustedUpTo(states, n - 1);
      } else if RetiredNotServed(states[n - 1], steps[n - 1]) {
        assert CoveredUpTo(states, steps, n);
        RotationKeepsServingTrusted(states, steps, n);
      } else {
        RunKeepsInv(states, steps, n - 1);
        UncoveredTrimBreaksTrust(states[n - 1], steps[n - 1]);
        assert !ServingTrusted(states[n]);
      }
    }
  }

  // -- optimistic concurrency -----------------------------------------------------------

  ghost predicate SnapsCurrent(s: State) {
    forall p <- s.pods.Keys :: s.pods[p].snap.Some? ==> SnapInv(s.w, s.pods[p])
  }

  lemma StepKeepsSnaps(s: State, step: Step)
    requires SnapsCurrent(s) && Enabled(s, step)
    ensures SnapsCurrent(Do(s, step))
  {
  }

  lemma {:induction false} RunKeepsSnaps(states: seq<State>, steps: seq<Step>, n: nat)
    requires Run(states, steps) && n <= |steps|
    ensures SnapsCurrent(states[n])
  {
    if n == 0 {
      assert states[0].pods == map[];
    } else {
      RunKeepsSnaps(states, steps, n - 1);
      StepKeepsSnaps(states[n - 1], steps[n - 1]);
    }
  }

  /** However gets and updates of different pods interleave, in any run at all, what an update writes is the merge of
      the bundle it replaces. */
  lemma UpdatesAreAtomicMerges(states: seq<State>, steps: seq<Step>, n: nat)
    requires Run(states, steps) && n < |steps|
    requires steps[n].Update? && steps[n].applied
    ensures var s, pod := states[n], states[n].pods[steps[n].pod];
      && pod.snap.value.at <= s.w.now
      && states[n + 1].w.bundle == MergedSet(s.w.bundle, {Adds(pod)}, Removes(pod), pod.snap.value.at)
  {
    RunKeepsSnaps(states, steps, n);
    assert Do(states[n], steps[n]) == DoUpdate(states[n], steps[n].pod, true, steps[n].reported);
  }

  ghost predicate Follows(s: State, step: Step, t: State) { Enabled(s, step) && Do(s, step) == t }

  /** A lone pod, with the bundle and version it finds. */
  function Lone(bundle: set<Block>, version: nat, used: set<Block>, pod: Pod): State {
    State(World(bundle, version, 0, used), map[0 := pod])
  }

  ghost predicate RunTo(states: seq<State>, steps: seq<Step>, n: nat, last: State) {
    Run(states, steps) && |steps| == n && states[n] == last
  }

  lemma Then(states: seq<State>, steps: seq<Step>, n: nat, last: State, step: Step, next: State)
    returns (states': seq<State>, steps': seq<Step>)
    requires RunTo(states, steps, n, last) && Follows(last, step, next)
    ensures RunTo(states', steps', n + 1, next)
  {
    states', steps' := states + [next], steps + [step];
    assert forall i :: 0 <= i <= n ==> states'[i] == states[i];
  }

  /** Get and Update by the lone pod. */
  lemma ThenUpdate(states: seq<State>, steps: seq<Step>, n: nat, last: State, pod: Pod, next: set<Block>)
    returns (states': seq<State>, steps': seq<Step>)
    requires RunTo(states, steps, n, last) && last == Lone(last.w.bundle, last.w.version, last.w.used, pod)
    requires Updating(pod) && next == MergedSet(last.w.bundle, {Adds(pod)}, Removes(pod), 0) && next != last.w.bundle
    ensures RunTo(states', steps', n + 2, Lone(next, last.w.version + 1, last.w.used, Advance(Landed(pod))))
  {
    var mid := Lone(last.w.bundle, last.w.version, last.w.used, pod.(snap := Some(Snapshot(next, last.w.version, 0))));
    states', steps' := Then(states, steps, n, last, Get(0), mid);
    states', steps' := Then(states', steps', n + 1, mid, Update(0, true, true),
                            Lone(next, last.w.version + 1, last.w.used, Advance(Landed(pod))));
  }

  lemma BootAlone(a: Block)
    requires a.Certificate?
    ensures Follows(State(World({}, 0, 0, {}), map[]), Boot(0, a),
        Lone({}, 0, {a}, Pod(a, a, a, Stamping, None, false)))
  {
    assert {} + {a} == {a};
  }

  lemma GenerateAlone(bundle: set<Block>, version: nat, a: Block, b: Block, pod: Pod)
    requires b.Certificate? && a != b && pod.stage.Resting? && pod.snap.None?
    ensures Follows(Lone(bundle, version, {a}, pod), Generate(0, b),
        Lone(bundle, version, {a, b}, pod.(stage := Uniting(b))))
  {
    assert {a} + {b} == {a, b};
  }

  lemma StampAlone(a: Block) returns (states: seq<State>, steps: seq<Step>)
    requires a.Certificate?
    ensures RunTo(states, steps, 3, Lone({a}, 1, {a}, Pod(a, a, a, Resting, None, true)))
  {
    var start, boot := State(World({}, 0, 0, {}), map[]), Pod(a, a, a, Stamping, None, false);
    BootAlone(a);
    states, steps := Then([start], [], 0, start, Boot(0, a), Lone({}, 0, {a}, boot));
    assert MergedSet({}, {a}, {}, 0) == {a};
    states, steps := ThenUpdate(states, steps, 1, Lone({}, 0, {a}, boot), boot, {a});
  }

  lemma UniteAndWrite(a: Block, b: Block) returns (states: seq<State>, steps: seq<Step>)
    requires a.Certificate? && b.Certificate? && a != b && !Expired(a, 0)
    ensures RunTo(states, steps, 7, Lone({a, b}, 2, {a, b}, Pod(a, b, a, Guarding(b), None, true)))
  {
    var rest, unite := Pod(a, a, a, Resting, None, true), Pod(a, a, a, Uniting(b), None, true);
    var write := Pod(a, a, a, Writing(b), None, true);
    states, steps := StampAlone(a);
    GenerateAlone({a}, 1, a, b, rest);
    states, steps := Then(states, steps, 3, Lone({a}, 1, {a}, rest), Generate(0, b), Lone({a}, 1, {a, b}, unite));
    assert MergedSet({a}, {b}, {}, 0) == {a, b};
    states, steps := ThenUpdate(states, steps, 4, Lone({a}, 1, {a, b}, unite), unite, {a, b});
    states, steps := Then(states, steps, 6, Lone({a, b}, 2, {a, b}, write), WriteCert(0),
                          Lone({a, b}, 2, {a, b}, Pod(a, b, a, Guarding(b), None, true)));
  }

  /** An update that landed without its answer is not repeated: the pod stays where it was, and its next look at the
      bundle, if nobody wrote and no certificate expired in between, takes it on without a further write. */
  lemma LostAnswerIsHealed(s: State, p: nat)
    requires Inv(s) && Enabled(s, Update(p, true, false)) && s.pods[p].snap.value.at == s.w.now
    ensures var lost, pod := Do(s, Update(p, true, false)), s.pods[p];
      && lost.pods[p] == pod.(snap := None, stamped := true) && Enabled(lost, Get(p))
      && Do(lost, Get(p)) == lost.(pods := lost.pods[p := Advance(lost.pods[p])])
  {
    var pod, next := s.pods[p], s.pods[p].snap.value.next;
    assert PodInv(s.w, pod);
    assert MergedSet(next, {Adds(pod)}, Removes(pod), s.w.now) == next;
  }

  /** A rotation whose reload comes in time replaces the CA: in the end the new one, and only it, is trusted, on disk
      and served, and the pod may rotate again. */
  lemma RotationReplacesCa(a: Block, b: Block) returns (states: seq<State>, steps: seq<Step>)
    requires a.Certificate? && b.Certificate? && a != b && !Expired(a, 0) && !Expired(b, 0)
    ensures Run(states, steps) && |steps| == 11 && ServingTrusted(states[11])
    ensures var t := states[11];
      t.w.bundle == {b} && 0 in t.pods && t.pods[0] == Pod(b, b, b, Resting, None, true)
  {
    var guarded, wait := Pod(a, b, a, Guarding(b), None, true), Pod(b, b, a, Guarding(b), None, true);
    var trim := Pod(b, b, a, Trimming(b), None, true);
    states, steps := UniteAndWrite(a, b);
    states, steps := Then(states, steps, 7, Lone({a, b}, 2, {a, b}, guarded), Reload(0), Lone({a, b}, 2, {a, b}, wait));
    states, steps := Then(states, steps, 8, Lone({a, b}, 2, {a, b}, wait), GuardOver(0), Lone({a, b}, 2, {a, b}, trim));
    assert MergedSet({a, b}, {b}, {a}, 0) == {b};
    states, steps := ThenUpdate(states, steps, 9, Lone({a, b}, 2, {a, b}, trim), trim, {b});
  }

  /** A rotation whose guard ends before the reload leaves the pod serving a certificate nobody trusts. */
  lemma ShortGuardBreaksAdmission(a: Block, b: Block) returns (states: seq<State>, steps: seq<Step>)
    requires a.Certificate? && b.Certificate? && a != b && !Expired(a, 0)
    ensures Run(states, steps) && |steps| == 10 && !ServingTrusted(states[10])
  {
    var wait, trim := Pod(a, b, a, Guarding(b), None, true), Pod(a, b, a, Trimming(b), None, true);
    states, steps := UniteAndWrite(a, b);
    states, steps := Then(states, steps, 7, Lone({a, b}, 2, {a, b}, wait), GuardOver(0), Lone({a, b}, 2, {a, b}, trim));
    assert MergedSet({a, b}, {b}, {a}, 0) == {b};
    states, steps := ThenUpdate(states, steps, 8, Lone({a, b}, 2, {a, b}, trim), trim, {b});
    assert states[10].pods[0].stamped && states[10].pods[0].serving == a;
  }
}
