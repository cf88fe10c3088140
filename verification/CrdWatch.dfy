/** The CRD watcher of internal/operator/crdwatcher.go: informer events, retry timers and slow engagements race on
    the retry state of a kind. The kinds' states are independent; the protocol below is for one of them. */
module CrdWatch {
  import opened Common

  const MAX_RETRIES := 6

  /** What the mutex guards for one kind. */
  datatype Flags = Flags(engaged: bool, engaging: bool, attempts: nat)

  /** check: an event for a kind not yet engaged gives it a clean budget. */
  function AfterCheck(f: Flags): Flags { if f.engaged then f else f.(attempts := 0) }

  predicate MayBegin(f: Flags) { !f.engaged && !f.engaging }

  function AfterBegin(f: Flags): Flags { if MayBegin(f) then f.(engaging := true) else f }

  function AfterFailure(f: Flags): Flags { f.(engaging := false, attempts := f.attempts + 1) }

  function AfterSuccess(f: Flags): Flags { Flags(true, false, 0) }

  /** entering, scheduling and timers count goroutines: about to take the lock in attempt, between a failure and its
      AfterFunc, and waiting in AfterFunc. calls counts EngageFluxWatch calls in flight, successes those that returned
      nil. */
  datatype State = State(
    flags: Flags,
    entering: nat, calls: nat, scheduling: nat, timers: nat,
    successes: nat, eventSeen: bool, cancelled: bool)

  datatype Step = Event | Enter | CallFails | CallSucceeds | Schedule | TimerFires | Cancel

  const START := State(Flags(false, false, 0), 0, 0, 0, 0, 0, false, false)

  ghost predicate Enabled(s: State, step: Step) {
    match step
    case Event => true
    case Enter => s.entering > 0
    case CallFails => s.calls > 0
    case CallSucceeds => s.calls > 0
    case Schedule => s.scheduling > 0
    case TimerFires => s.timers > 0
    case Cancel => true
  }

  /** Each critical section of check and attempt, and each unlocked move in between, is a step. */
  ghost function Do(s: State, step: Step): State
    requires Enabled(s, step)
  {
    match step
    case Event =>
      s.(flags := AfterCheck(s.flags), entering := s.entering + if s.flags.engaged then 0 else 1, eventSeen := true)
    case Enter =>
      s.(flags := AfterBegin(s.flags), entering := s.entering - 1,
         calls := s.calls + if MayBegin(s.flags) then 1 else 0)
    case CallFails =>
      var flags := AfterFailure(s.flags);
      s.(flags := flags, calls := s.calls - 1,
         scheduling := if flags.attempts >= MAX_RETRIES then s.scheduling else s.scheduling + 1)
    case CallSucceeds =>
      s.(flags := AfterSuccess(s.flags), calls := s.calls - 1, successes := s.successes + 1)
    case Schedule => s.(scheduling := s.scheduling - 1, timers := s.timers + 1)
    case TimerFires =>
      if s.cancelled then s.(timers := s.timers - 1) else s.(timers := s.timers - 1, entering := s.entering + 1)
    case Cancel => s.(cancelled := true)
  }

  ghost predicate Run(states: seq<State>, steps: seq<Step>) {
    && |states| == |steps| + 1 && states[0] == START
    && forall i :: 0 <= i < |steps| ==> Enabled(states[i], steps[i]) && states[i + 1] == Do(states[i], steps[i])
  }

  /** Something that will engage, or is about to try to. */
  ghost predicate Active(s: State) { s.entering > 0 || s.flags.engaging || s.scheduling > 0 || s.timers > 0 }

  ghost predicate Inv(s: State) {
    && s.calls == (if s.flags.engaging then 1 else 0)
    && s.successes == (if s.flags.engaged then 1 else 0)
    && !(s.flags.engaged && s.flags.engaging)
    && (!s.cancelled && s.eventSeen && !s.flags.engaged && s.flags.attempts < MAX_RETRIES ==> Active(s))
  }

  lemma StepKeepsInv(s: State, step: Step)
    requires Inv(s) && Enabled(s, step)
    ensures Inv(Do(s, step))
  {
  }

  /** In every interleaving: at most one EngageFluxWatch in flight, at most one ever succeeds, and while the kind is
      unengaged below the retry cap a retry is pending or running. */
  lemma {:induction false} EngagesOnceAndKeepsTrying(states: seq<State>, steps: seq<Step>, n: nat)
    requires Run(states, steps) && n <= |steps|
    ensures Inv(states[n]) && states[n].calls <= 1 && states[n].successes <= 1
  {
    if n == 0 {
    } else {
      EngagesOnceAndKeepsTrying(states, steps, n - 1);
      StepKeepsInv(states[n - 1], steps[n - 1]);
    }
  }

  ghost predicate Happened(steps: seq<Step>, n: nat, what: Step)
    requires n <= |steps|
  {
    exists i :: 0 <= i < n && steps[i] == what
  }

  lemma {:induction false} Remembered(states: seq<State>, steps: seq<Step>, n: nat)
    requires Run(states, steps) && n <= |steps|
    ensures states[n].eventSeen <==> Happened(steps, n, Event)
    ensures states[n].cancelled <==> Happened(steps, n, Cancel)
    ensures states[n].successes > 0 ==> Happened(steps, n, CallSucceeds)
  {
    if n > 0 {
      Remembered(states, steps, n - 1);
      assert forall what :: Happened(steps, n, what) <==> Happened(steps, n - 1, what) || steps[n - 1] == what;
    }
  }

  /** When nothing is left to do after an event, and the operator has not been stopped, a call has succeeded or the cap
      is reached. */
  lemma RestMeansDecided(states: seq<State>, steps: seq<Step>, n: nat)
    requires Run(states, steps) && n <= |steps| && Happened(steps, n, Event) && !Happened(steps, n, Cancel)
    requires forall step :: Enabled(states[n], step) ==> step.Event? || step.Cancel?
    ensures states[n].flags.engaged || states[n].flags.attempts >= MAX_RETRIES
    ensures states[n].flags.engaged ==> Happened(steps, n, CallSucceeds)
  {
    EngagesOnceAndKeepsTrying(states, steps, n);
    Remembered(states, steps, n);
    assert !Enabled(states[n], Enter) && !Enabled(states[n], CallFails);
    assert !Enabled(states[n], Schedule) && !Enabled(states[n], TimerFires);
  }

  /** A kind that failed k times and is in its next call, with nothing else under way. */
  ghost function Trying(k: nat): State { State(Flags(false, true, k), 0, 1, 0, 0, 0, true, false) }

  function Calls(steps: seq<Step>): nat {
    if steps == [] then 0
    else
      var init, step := steps[..|steps| - 1], steps[|steps| - 1];
      Calls(init) + if step.CallFails? || step.CallSucceeds? then 1 else 0
  }

  /** Once events stop, only finitely much happens: every further move uses up the measure. */
  predicate IsCall(step: Step) { step.CallFails? || step.CallSucceeds? }

  lemma Then(states: seq<State>, steps: seq<Step>, step: Step, next: State)
    returns (states': seq<State>, steps': seq<Step>)
    requires Run(states, steps) && Enabled(states[|steps|], step) && next == Do(states[|steps|], step)
    ensures Run(states', steps') && |steps'| == |steps| + 1 && states'[|steps'|] == next
    ensures Calls(steps') == Calls(steps) + if IsCall(step) then 1 else 0
  {
    states', steps' := states + [next], steps + [step];
    assert steps'[..|steps|] == steps;
    assert forall i :: 0 <= i <= |steps| ==> states'[i] == states[i];
  }

  lemma {:induction false} FailsSoOften(k: nat) returns (states: seq<State>, steps: seq<Step>)
    requires k < MAX_RETRIES
    ensures Run(states, steps) && states[|steps|] == Trying(k) && Calls(steps) == k
  {
    if k == 0 {
      states, steps := Then([START], [], Event, Do(START, Event));
      states, steps := Then(states, steps, Enter, Trying(0));
    } else {
      states, steps := FailsSoOften(k - 1);
      var failed := Do(Trying(k - 1), CallFails);
      var timing := Do(failed, Schedule);
      states, steps := Then(states, steps, CallFails, failed);
      states, steps := Then(states, steps, Schedule, timing);
      states, steps := Then(states, steps, TimerFires, Do(timing, TimerFires));
      states, steps := Then(states, steps, Enter, Trying(k));
    }
  }

  /** The sixth failure is the last: nothing is scheduled after it. */
  lemma SixthFailureGivesUp() returns (states: seq<State>, steps: seq<Step>)
    ensures Run(states, steps) && Calls(steps) == 6
    ensures forall step :: Enabled(states[|steps|], step) ==> step.Event? || step.Cancel?
  {
    states, steps := FailsSoOften(5);
    states, steps := Then(states, steps, CallFails, Do(Trying(5), CallFails));
  }

  // -- it stops trying ------------------------------------------------------------------

  ghost function Budget(s: State): nat {
    if s.flags.engaged || s.flags.attempts >= MAX_RETRIES then 0 else MAX_RETRIES - s.flags.attempts
  }

  ghost function Measure(s: State): nat {
    4 * Budget(s) + 4 * s.scheduling + 3 * s.timers + 2 * s.entering + s.calls
  }

  lemma StepLowersMeasure(s: State, step: Step)
    requires Inv(s) && Enabled(s, step) && !step.Event? && !step.Cancel?
    ensures Measure(Do(s, step)) < Measure(s)
  {
  }

  function Moves(steps: seq<Step>): nat {
    if steps == [] then 0 else Moves(steps[..|steps| - 1]) + if steps[|steps| - 1].Cancel? then 0 else 1
  }

  ghost predicate Segment(states: seq<State>, steps: seq<Step>) {
    && |states| == |steps| + 1
    && forall i :: 0 <= i < |steps| ==> Enabled(states[i], steps[i]) && states[i + 1] == Do(states[i], steps[i])
  }

  ghost function CallsAt(steps: seq<Step>): set<nat> { set i: nat | i < |steps| && IsCall(steps[i]) }

  ghost function MovesAt(steps: seq<Step>): set<nat> { set i: nat | i < |steps| && !steps[i].Cancel? }

  /** What is counted: the calls made. */
  lemma {:induction false} CallsCounted(steps: seq<Step>)
    ensures Calls(steps) == |CallsAt(steps)|
  {
    if steps != [] {
      var n := |steps| - 1;
      CallsCounted(steps[..n]);
      assert CallsAt(steps) == CallsAt(steps[..n]) + if IsCall(steps[n]) then {n} else {};
    }
  }

  /** And the steps that are no cancellation. */
  lemma {:induction false} MovesCounted(steps: seq<Step>)
    ensures Moves(steps) == |MovesAt(steps)|
  {
    if steps != [] {
      var n := |steps| - 1;
      MovesCounted(steps[..n]);
      assert MovesAt(steps) == MovesAt(steps[..n]) + if steps[n].Cancel? then {} else {n};
    }
  }

  lemma {:induction false} QuietRunsEnd(states: seq<State>, steps: seq<Step>)
    requires Segment(states, steps) && Inv(states[0]) && forall i :: 0 <= i < |steps| ==> !steps[i].Event?
    ensures Inv(states[|steps|]) && Moves(steps) + Measure(states[|steps|]) <= Measure(states[0])
    decreases |steps|
  {
    if steps == [] {
    } else {
      var n := |steps| - 1;
      QuietRunsEnd(states[..n + 1], steps[..n]);
      StepKeepsInv(states[n], steps[n]);
      if !steps[n].Cancel? { StepLowersMeasure(states[n], steps[n]); }
    }
  }

  ghost function Tokens(s: State): nat { s.entering + s.calls + s.scheduling + s.timers }

  lemma StepPaysForCall(s: State, step: Step)
    requires Inv(s) && Enabled(s, step) && !step.Event?
    ensures var t, paid := Do(s, step), if step.CallFails? || step.CallSucceeds? then 1 else 0;
      paid + Budget(t) + Tokens(t) <= Budget(s) + Tokens(s)
  {
  }

  /** And the calls among them are few: one for each goroutine under way, and one for each try left in the budget. */
  /** Once the operator is stopped no timer starts another try: what is called still was under way. */
  lemma {:induction false} CallsAfterCancel(states: seq<State>, steps: seq<Step>)
    requires Segment(states, steps) && states[0].cancelled && forall i :: 0 <= i < |steps| ==> !steps[i].Event?
    ensures var s, t := states[0], states[|steps|];
      t.cancelled && Calls(steps) + t.entering + t.calls <= s.entering + s.calls
    decreases |steps|
  {
    if steps != [] {
      var n := |steps| - 1;
      CallsAfterCancel(states[..n + 1], steps[..n]);
      assert Enabled(states[n], steps[n]) && states[n + 1] == Do(states[n], steps[n]);
    }
  }

  lemma {:induction false} CallsAfterLastEvent(states: seq<State>, steps: seq<Step>)
    requires Segment(states, steps) && Inv(states[0]) && forall i :: 0 <= i < |steps| ==> !steps[i].Event?
    ensures Inv(states[|steps|])
    ensures Calls(steps) + Budget(states[|steps|]) + Tokens(states[|steps|]) <= Budget(states[0]) + Tokens(states[0])
    decreases |steps|
  {
    if steps == [] {
    } else {
      var n := |steps| - 1;
      CallsAfterLastEvent(states[..n + 1], steps[..n]);
      StepKeepsInv(states[n], steps[n]);
      StepPaysForCall(states[n], steps[n]);
    }
  }

  // -- backoff --------------------------------------------------------------------------

  method CrdWatchBackoff(initial: int, attempt: nat) returns (d: int)
    ensures d == initial * Pow(2, attempt)
  {
    d := initial;
    for i := 0 to attempt
      invariant d == initial * Pow(2, i)
    {
      d := d * 2;
    }
  }

  /** All delays of one chain of failures: the n'th failure, below the cap, waits Pow(2, n - 1). */
  function TotalDelay(initial: int, failures: nat): int {
    if failures == 0 then 0 else TotalDelay(initial, failures - 1) + initial * Pow(2, failures - 1)
  }

  lemma {:induction false} DelaysDouble(initial: int, failures: nat)
    ensures TotalDelay(initial, failures) == initial * Pow(2, failures) - initial
  {
    if failures == 0 {
    } else {
      DelaysDouble(initial, failures - 1);
    }
  }

  /** The last try gives up without waiting, so a chain waits 31 initial delays in all, not 63. */
  lemma ChainWaits(initial: int)
    ensures TotalDelay(initial, MAX_RETRIES - 1) == 31 * initial
  {
    DelaysDouble(initial, MAX_RETRIES - 1);
    assert Pow(2, 5) == 2 * Pow(2, 4) && Pow(2, 4) == 2 * Pow(2, 3) && Pow(2, 3) == 8;
  }

  // -- the state the closures share -------------------------------------------------------

  /** The maps under stateMu; each method is one critical section. */
  class RetryState {
    var engaged: set<string>
    var engaging: set<string>
    var attempts: map<string, nat>

    constructor ()
      ensures forall kind :: FlagsOf(kind) == START.flags
    {
      engaged, engaging, attempts := {}, {}, map[];
    }

    function FlagsOf(kind: string): Flags
      reads this
    {
      Flags(kind in engaged, kind in engaging, if kind in attempts then attempts[kind] else 0)
    }

    twostate predicate OthersUnchanged(kind: string)
      reads this
    {
      forall other :: other != kind ==> FlagsOf(other) == old(FlagsOf(other))
    }

    /** check: whether to call attempt. */
    method Check(kind: string) returns (go: bool)
      modifies this`attempts
      ensures FlagsOf(kind) == AfterCheck(old(FlagsOf(kind))) && go == !old(FlagsOf(kind)).engaged &&
          OthersUnchanged(kind)
      ensures FlagsOf(kind) == if go then Flags(false, old(kind in engaging), 0) else old(FlagsOf(kind))
    {
      if kind in engaged { return false; }
      attempts := attempts[kind := 0];
      return true;
    }

    /** The entry of attempt: single flight. */
    method Begin(kind: string) returns (go: bool)
      modifies this`engaging
      ensures FlagsOf(kind) == AfterBegin(old(FlagsOf(kind))) && go == MayBegin(old(FlagsOf(kind))) &&
          OthersUnchanged(kind)
      ensures go <==> old(kind !in engaged && kind !in engaging)
      ensures FlagsOf(kind) == if go then Flags(false, true, old(FlagsOf(kind)).attempts) else old(FlagsOf(kind))
    {
      if kind in engaged || kind in engaging { return false; }
      engaging := engaging + {kind};
      return true;
    }

    /** After a failed call: whether a retry is to be scheduled. */
    method Fail(kind: string) returns (retry: bool)
      modifies this`engaging, this`attempts
      ensures FlagsOf(kind) == AfterFailure(old(FlagsOf(kind))) && OthersUnchanged(kind)
      ensures FlagsOf(kind) == Flags(old(kind in engaged), false, old(FlagsOf(kind)).attempts + 1)
      ensures retry <==> FlagsOf(kind).attempts < 6
    {
      engaging := engaging - {kind};
      var n := if kind in attempts then attempts[kind] + 1 else 1;
      attempts := attempts[kind := n];
      return !(n >= MAX_RETRIES);
    }

    method Succeed(kind: string)
      modifies this
      ensures FlagsOf(kind) == AfterSuccess(old(FlagsOf(kind))) && OthersUnchanged(kind)
      ensures FlagsOf(kind) == Flags(true, false, 0)
    {
      engaged, engaging := engaged + {kind}, engaging - {kind};
      attempts := attempts[kind := 0];
    }
  }

  /** One event whose engagement keeps failing: attempt after attempt through the shared state, each failure below the
      cap waiting crdWatchBackoff(n - 1). The sixth gives up, after 31 initial delays. */
  method KeepFailing(state: RetryState, kind: string, initial: int) returns (failures: nat, waited: int)
    requires !state.FlagsOf(kind).engaged && !state.FlagsOf(kind).engaging
    modifies state
    ensures failures == MAX_RETRIES && waited == 31 * initial
    ensures state.FlagsOf(kind) == Flags(false, false, MAX_RETRIES)
  {
    var go := state.Check(kind);
    failures, waited := 0, 0;
    while true
      invariant failures < MAX_RETRIES && state.FlagsOf(kind) == Flags(false, false, failures)
      invariant waited == TotalDelay(initial, failures)
      decreases MAX_RETRIES - failures
    {
      go := state.Begin(kind);
      var retry := state.Fail(kind);
      failures := failures + 1;
      if !retry { break; }
      var delay := CrdWatchBackoff(initial, failures - 1);
      waited := waited + delay;
    }
    ChainWaits(initial);
  }
}
