/** The evaluation semaphore of internal/eval/semaphore.go and the deadline wrapper of internal/eval/eval.go, one atomic
    operation a step: reservations, evaluation goroutines, the parents that may give up on them, and the drains. */
module EvalSlots {

  /** Noop is a reservation made while the gate was off. */
  datatype Slot =
    | Asking                            // the limit not yet read
    | Gated(limit: int)                 // about to read the counter
    | Loaded(limit: int, cur: int)      // about to compare and swap
    | Noop
    | Held
    | Freed
    | Rejected

  /** Manual slots come from Reserve and have no goroutine of their own. */
  datatype Worker = NotStarted | Manual | Running | Finished | Sent

  datatype Parent = Calling | Waiting | Returned | Expired | Leaked | Received | Drained

  datatype Eval = Eval(slot: Slot, worker: Worker, parent: Parent)

  datatype State = State(limit: int, inFlight: int, rejected: nat, leaked: int, evals: map<nat, Eval>)

  datatype Step =
    | SetLimit(n: int)
    | Ask(e: nat, manual: bool)
    | ReadLimit(e: nat)
    | ReadCount(e: nat)
    | Swap(e: nat)
    | Start(e: nat)
    | Finish(e: nat, panicked: bool)
    | Release(e: nat)
    | Send(e: nat)
    | Receive(e: nat)
    | Expire(e: nat)
    | Leak(e: nat)
    | DrainReceive(e: nat)
    | Unleak(e: nat)

  ghost predicate Enabled(s: State, step: Step) {
    match step
    case SetLimit(_) => true
    case Ask(e, _) => e !in s.evals
    case ReadLimit(e) => e in s.evals && s.evals[e].slot.Asking?
    case ReadCount(e) => e in s.evals && s.evals[e].slot.Gated?
    case Swap(e) => e in s.evals && s.evals[e].slot.Loaded?
    case Start(e) => e in s.evals && s.evals[e].worker.NotStarted? && (s.evals[e].slot.Held? || s.evals[e].slot.Noop?)
    case Finish(e, _) => e in s.evals && s.evals[e].worker.Running?
    case Release(e) =>
      e in s.evals && !s.evals[e].worker.NotStarted? && !s.evals[e].worker.Running? &&
      (s.evals[e].slot.Held? || s.evals[e].slot.Noop? || s.evals[e].slot.Freed?)
    case Send(e) => e in s.evals && s.evals[e].worker.Finished?
    case Receive(e) => e in s.evals && s.evals[e].parent.Waiting? && s.evals[e].worker.Sent?
    case Expire(e) => e in s.evals && s.evals[e].parent.Waiting?
    case Leak(e) => e in s.evals && s.evals[e].parent.Expired?
    case DrainReceive(e) => e in s.evals && s.evals[e].parent.Leaked? && s.evals[e].worker.Sent?
    case Unleak(e) => e in s.evals && s.evals[e].parent.Received?
  }

  function Put(s: State, e: nat, v: Eval): State { s.(evals := s.evals[e := v]) }

  /** The release closure: only the first call of a real slot counts. */
  function Released(s: State, e: nat, v: Eval): State {
    if v.slot.Held? then Put(s.(inFlight := s.inFlight - 1), e, v.(slot := Freed)) else Put(s, e, v)
  }

  ghost function Do(s: State, step: Step): State
    requires Enabled(s, step)
  {
    match step
    case SetLimit(n) => s.(limit := if n < 0 then 0 else n)
    case Ask(e, manual) => Put(s, e, Eval(Asking, if manual then Manual else NotStarted, Calling))
    case ReadLimit(e) => Put(s, e, s.evals[e].(slot := if s.limit <= 0 then Noop else Gated(s.limit)))
    case ReadCount(e) =>
      var limit := s.evals[e].slot.limit;
      if s.inFlight >= limit
          then Put(s.(rejected := s.rejected + 1), e, s.evals[e].(slot := Rejected, parent := Returned))
      else Put(s, e, s.evals[e].(slot := Loaded(limit, s.inFlight)))
    case Swap(e) =>
      var slot := s.evals[e].slot;
      if s.inFlight == slot.cur then Put(s.(inFlight := slot.cur + 1), e, s.evals[e].(slot := Held))
      else Put(s, e, s.evals[e].(slot := Gated(slot.limit)))
    case Start(e) => Put(s, e, s.evals[e].(worker := Running, parent := Waiting))
    case Finish(e, _) => Released(s, e, s.evals[e].(worker := Finished))
    case Release(e) => Released(s, e, s.evals[e])
    case Send(e) => Put(s, e, s.evals[e].(worker := Sent))
    case Receive(e) => Put(s, e, s.evals[e].(parent := Returned))
    case Expire(e) => Put(s, e, s.evals[e].(parent := Expired))
    case Leak(e) => Put(s.(leaked := s.leaked + 1), e, s.evals[e].(parent := Leaked))
    case DrainReceive(e) => Put(s, e, s.evals[e].(parent := Received))
    case Unleak(e) => Put(s.(leaked := s.leaked - 1), e, s.evals[e].(parent := Drained))
  }

  ghost predicate Run(states: seq<State>, steps: seq<Step>) {
    && |states| == |steps| + 1 && states[0] == State(states[0].limit, 0, 0, 0, map[])
    && forall i :: 0 <= i < |steps| ==> Enabled(states[i], steps[i]) && states[i + 1] == Do(states[i], steps[i])
  }

  // -- the counters are exact ---------------------------------------------------------

  ghost function Holding(s: State): set<nat> { set e | e in s.evals && s.evals[e].slot.Held? }

  /** Orphans whose result has not been drained. */
  ghost function Orphans(s: State): set<nat> {
    set e | e in s.evals && (s.evals[e].parent.Leaked? || s.evals[e].parent.Received?)
  }

  ghost function InEvaluation(s: State): set<nat> { set e | e in s.evals && s.evals[e].worker.Running? }

  ghost predicate EvalInv(v: Eval) {
    && (v.worker.NotStarted? || v.worker.Manual? ==> v.parent.Calling? || (v.parent.Returned? && v.slot.Rejected?))
    && (v.worker.Running? ==> v.slot.Held? || v.slot.Noop?)
    && (v.worker.Finished? || v.worker.Sent? ==> v.slot.Freed? || v.slot.Noop?)
    && (v.worker.Running? || v.worker.Finished? ==> v.parent.Waiting? || v.parent.Expired? || v.parent.Leaked?)
    && (v.worker.Sent? ==> !v.parent.Calling?)
  }

  ghost predicate Inv(s: State) {
    && s.inFlight == |Holding(s)| && s.leaked == |Orphans(s)|
    && forall e <- s.evals.Keys :: EvalInv(s.evals[e])
  }

  lemma CountPut(a: set<nat>, b: set<nat>, e: nat)
    requires forall x :: x != e ==> (x in a <==> x in b)
    ensures |b| == |a| + (if e in b then 1 else 0) - (if e in a then 1 else 0)
  {
    assert a - {e} == b - {e};
    assert e in a ==> |a| == |a - {e}| + 1;
    assert e in b ==> |b| == |b - {e}| + 1;
    assert e !in a ==> a - {e} == a;
    assert e !in b ==> b - {e} == b;
  }

  lemma PutCounts(s: State, t: State, e: nat, v: Eval)
    requires t.evals == s.evals[e := v]
    ensures |Holding(t)| == |Holding(s)| + (if v.slot.Held? then 1 else 0)
        - (if e in s.evals && s.evals[e].slot.Held? then 1 else 0)
    ensures |Orphans(t)| == |Orphans(s)| + (if v.parent.Leaked? || v.parent.Received? then 1 else 0)
        - (if e in s.evals && (s.evals[e].parent.Leaked? || s.evals[e].parent.Received?) then 1 else 0)
  {
    CountPut(Holding(s), Holding(t), e);
    CountPut(Orphans(s), Orphans(t), e);
  }

  lemma StepKeepsInv(s: State, step: Step)
    requires Inv(s) && Enabled(s, step)
    ensures Inv(Do(s, step))
  {
    var t := Do(s, step);
    if step.SetLimit? {
      assert Holding(t) == Holding(s) && Orphans(t) == Orphans(s);
    } else {
      PutCounts(s, t, step.e, t.evals[step.e]);
    }
  }

  /** In every state of every run: the in-flight counter is the number of slots held, the leak counter the number of
      undrained orphans; so neither is ever negative. */
  lemma {:induction false} CountersAreExact(states: seq<State>, steps: seq<Step>, n: nat)
    requires Run(states, steps) && n <= |steps|
    ensures Inv(states[n])
  {
    if n == 0 {
      assert Holding(states[0]) == {} && Orphans(states[0]) == {};
    } else {
      CountersAreExact(states, steps, n - 1);
      StepKeepsInv(states[n - 1], steps[n - 1]);
    }
  }

  ghost function Turned(s: State): set<nat> { set e | e in s.evals && s.evals[e].slot.Rejected? }

  /** So is the count of rejections: one for every call turned away. */
  lemma {:induction false} RejectionsAreCounted(states: seq<State>, steps: seq<Step>, n: nat)
    requires Run(states, steps) && n <= |steps|
    ensures states[n].rejected == |Turned(states[n])|
  {
    if n == 0 {
      assert Turned(states[0]) == {};
    } else {
      RejectionsAreCounted(states, steps, n - 1);
      var s, t := states[n - 1], states[n];
      if steps[n - 1].SetLimit? { assert Turned(t) ==
          Turned(s); } else { CountPut(Turned(s), Turned(t), steps[n - 1].e); }
    }
  }

  // -- the cap ------------------------------------------------------------------------

  /** While the limit stays at one positive value, no reservation slips past it. */
  ghost predicate Capped(s: State, limit: int) {
    && s.limit == limit && s.inFlight <= limit
    && forall e <- s.evals.Keys :: !s.evals[e].slot.Noop?
         && (s.evals[e].slot.Gated? ==> s.evals[e].slot.limit == limit)
         && (s.evals[e].slot.Loaded? ==> s.evals[e].slot.limit == limit && s.evals[e].slot.cur < limit)
  }

  lemma StepKeepsCap(s: State, step: Step, limit: int)
    requires Capped(s, limit) && limit > 0 && Enabled(s, step) && !step.SetLimit?
    ensures Capped(Do(s, step), limit)
  {
  }

  lemma {:induction false} RunKeepsCap(states: seq<State>, steps: seq<Step>, n: nat, limit: int)
    requires Run(states, steps) && n <= |steps| && states[0].limit == limit > 0
    requires forall i :: 0 <= i < |steps| ==> !steps[i].SetLimit?
    ensures Capped(states[n], limit)
  {
    if n == 0 {
    } else {
      RunKeepsCap(states, steps, n - 1, limit);
      StepKeepsCap(states[n - 1], steps[n - 1], limit);
    }
  }

  /** With a fixed positive limit never more evaluations run than it allows, however many parents have given up. */
  lemma RunningNeverExceedsLimit(states: seq<State>, steps: seq<Step>, n: nat, limit: int)
    requires Run(states, steps) && n <= |steps| && states[0].limit == limit > 0
    requires forall i :: 0 <= i < |steps| ==> !steps[i].SetLimit?
    ensures |InEvaluation(states[n])| <= states[n].inFlight <= limit
  {
    RunKeepsCap(states, steps, n, limit);
    CountersAreExact(states, steps, n);
    var s := states[n];
    forall e | e in InEvaluation(s) ensures e in Holding(s) { assert EvalInv(s.evals[e]); }
    var rest := Holding(s) - InEvaluation(s);
    assert Holding(s) == InEvaluation(s) + rest;
  }

  /** A timed-out parent frees nothing: the slot is the goroutine's until it finishes, and finishing frees it, panic or
      not. */
  lemma ExpiryKeepsSlot(s: State, e: nat, panicked: bool)
    requires Inv(s) && Enabled(s, Expire(e)) && s.evals[e].worker.Running? && s.evals[e].slot.Held?
    ensures var t := Do(Do(s, Expire(e)), Leak(e));
      t.inFlight == s.inFlight && t.evals[e].slot.Held? && t.leaked == s.leaked + 1 &&
      Do(t, Finish(e, panicked)).inFlight == s.inFlight - 1
  {
  }

  // -- what an evaluation does when it is let alone ----------------------------------------

  /** These steps lead from s to t, with nobody else's in between. */
  ghost predicate Does(s: State, steps: seq<Step>, t: State)
    decreases |steps|
  {
    if steps == [] then s == t else Enabled(s, steps[0]) && Does(Do(s, steps[0]), steps[1..], t)
  }

  lemma First(s: State, step: Step, m: State, rest: seq<Step>, t: State)
    requires Enabled(s, step) && Do(s, step) == m && Does(m, rest, t)
    ensures Does(s, [step] + rest, t)
  {
    assert ([step] + rest)[1..] == rest;
  }

  lemma SameEvals(evals: map<nat, Eval>, e: nat, v: Eval, w: Eval)
    ensures evals[e := v][e := w] == evals[e := w]
  {
  }

  /** From the read of the counter on, against the limit read before. */
  lemma ReadsAlone(s: State, e: nat)
    requires e in s.evals && s.evals[e].slot.Gated?
    ensures var v, limit := s.evals[e], s.evals[e].slot.limit;
      if s.inFlight >= limit then
        Does(s, [ReadCount(e)], Put(s.(rejected := s.rejected + 1), e, v.(slot := Rejected, parent := Returned)))
      else Does(s, [ReadCount(e), Swap(e)], Put(s.(inFlight := s.inFlight + 1), e, v.(slot := Held)))
  {
    var v, limit := s.evals[e], s.evals[e].slot.limit;
    if s.inFlight >= limit {
      var t := Put(s.(rejected := s.rejected + 1), e, v.(slot := Rejected, parent := Returned));
      First(s, ReadCount(e), t, [], t);
      assert [ReadCount(e)] == [ReadCount(e)] + [];
    } else {
      var loaded, t := Put(s, e, v.(slot := Loaded(limit, s.inFlight))),
          Put(s.(inFlight := s.inFlight + 1), e, v.(slot := Held));
      SameEvals(s.evals, e, v.(slot := Loaded(limit, s.inFlight)), v.(slot := Held));
      First(loaded, Swap(e), t, [], t);
      First(s, ReadCount(e), loaded, [Swap(e)] + [], t);
      assert [ReadCount(e), Swap(e)] == [ReadCount(e)] + ([Swap(e)] + []);
    }
  }

  /** A lost race changes nothing but what is known of the counter: it is read again, against the same limit. */
  lemma LostRaceReadsAgain(s: State, e: nat)
    requires e in s.evals && s.evals[e].slot.Loaded? && s.inFlight != s.evals[e].slot.cur
    ensures Do(s, Swap(e)) == Put(s, e, s.evals[e].(slot := Gated(s.evals[e].slot.limit)))
    ensures s.inFlight < s.evals[e].slot.limit ==>
        Does(Do(s, Swap(e)), [ReadCount(e), Swap(e)],
             Put(s.(inFlight := s.inFlight + 1), e, s.evals[e].(slot := Held)))
  {
    var gated := Do(s, Swap(e));
    ReadsAlone(gated, e);
    SameEvals(s.evals, e, gated.evals[e], s.evals[e].(slot := Held));
  }

  lemma RejectedAlone(s: State, e: nat)
    requires e in s.evals && s.evals[e].slot.Asking? && 0 < s.limit <= s.inFlight
    ensures Does(s, [ReadLimit(e)] + [ReadCount(e)],
                 Put(s.(rejected := s.rejected + 1), e, s.evals[e].(slot := Rejected, parent := Returned)))
  {
    var v, gated := s.evals[e], s.evals[e].(slot := Gated(s.limit));
    ReadsAlone(Put(s, e, gated), e);
    SameEvals(s.evals, e, gated, v.(slot := Rejected, parent := Returned));
    First(s, ReadLimit(e), Put(s, e, gated), [ReadCount(e)],
          Put(s.(rejected := s.rejected + 1), e, v.(slot := Rejected, parent := Returned)));
  }

  lemma GrantedAlone(s: State, e: nat)
    requires e in s.evals && s.evals[e].slot.Asking? && s.inFlight < s.limit && 0 < s.limit
    ensures Does(s, [ReadLimit(e)] + [ReadCount(e), Swap(e)],
                 Put(s.(inFlight := s.inFlight + 1), e, s.evals[e].(slot := Held)))
  {
    var v, gated := s.evals[e], s.evals[e].(slot := Gated(s.limit));
    ReadsAlone(Put(s, e, gated), e);
    SameEvals(s.evals, e, gated, v.(slot := Held));
    First(s, ReadLimit(e), Put(s, e, gated), [ReadCount(e), Swap(e)],
          Put(s.(inFlight := s.inFlight + 1), e, v.(slot := Held)));
  }

  /** A reservation: granted without counting when the gate is off, granted and counted below the limit, otherwise
      rejected and counted as such. */
  lemma DecidedAlone(s: State, e: nat)
    requires e in s.evals && s.evals[e].slot.Asking?
    ensures var v := s.evals[e];
      if s.limit <= 0 then Does(s, [ReadLimit(e)], Put(s, e, v.(slot := Noop)))
      else if s.inFlight >= s.limit then
        Does(s, [ReadLimit(e)] + [ReadCount(e)],
             Put(s.(rejected := s.rejected + 1), e, v.(slot := Rejected, parent := Returned)))
      else
        Does(s, [ReadLimit(e)] + [ReadCount(e), Swap(e)],
             Put(s.(inFlight := s.inFlight + 1), e, v.(slot := Held)))
  {
    if s.limit <= 0 {
      var t := Put(s, e, s.evals[e].(slot := Noop));
      First(s, ReadLimit(e), t, [], t);
      assert [ReadLimit(e)] == [ReadLimit(e)] + [];
    } else if s.inFlight >= s.limit {
      RejectedAlone(s, e);
    } else {
      GrantedAlone(s, e);
    }
  }

  function WithoutSlot(slot: Slot): Slot { if slot.Held? then Freed else slot }

  /** An evaluation in time: its parent gets the result, and its slot is free. */
  lemma EvaluatedAlone(s: State, e: nat, panicked: bool)
    requires e in s.evals && s.evals[e].worker.NotStarted? && (s.evals[e].slot.Held? || s.evals[e].slot.Noop?)
    ensures var v := s.evals[e];
      Does(s, [Start(e), Finish(e, panicked), Send(e), Receive(e)],
           Put(s.(inFlight := s.inFlight - if v.slot.Held? then 1 else 0), e,
               Eval(WithoutSlot(v.slot), Sent, Returned)))
  {
    var v, slot := s.evals[e], WithoutSlot(s.evals[e].slot);
    var after := s.(inFlight := s.inFlight - if v.slot.Held? then 1 else 0);
    var started, finished := Put(s, e, Eval(v.slot, Running, Waiting)), Put(after, e, Eval(slot, Finished, Waiting));
    var sent, t := Put(after, e, Eval(slot, Sent, Waiting)), Put(after, e, Eval(slot, Sent, Returned));
    SameEvals(s.evals, e, Eval(v.slot, Running, Waiting), Eval(slot, Finished, Waiting));
    SameEvals(s.evals, e, Eval(slot, Finished, Waiting), Eval(slot, Sent, Waiting));
    SameEvals(s.evals, e, Eval(slot, Sent, Waiting), Eval(slot, Sent, Returned));
    First(sent, Receive(e), t, [], t);
    First(finished, Send(e), sent, [Receive(e)] + [], t);
    First(started, Finish(e, panicked), finished, [Send(e)] + ([Receive(e)] + []), t);
    First(s, Start(e), started, [Finish(e, panicked)] + ([Send(e)] + ([Receive(e)] + [])), t);
    assert [Start(e)] + ([Finish(e, panicked)] + ([Send(e)] + ([Receive(e)] + []))) ==
        [Start(e), Finish(e, panicked), Send(e), Receive(e)];
  }

  lemma LeaksAlone(s: State, e: nat)
    requires e in s.evals && s.evals[e].worker.NotStarted? && (s.evals[e].slot.Held? || s.evals[e].slot.Noop?)
    ensures Does(s, [Start(e), Expire(e), Leak(e)],
                 Put(s.(leaked := s.leaked + 1), e, Eval(s.evals[e].slot, Running, Leaked)))
  {
    var slot := s.evals[e].slot;
    var started, expired := Put(s, e, Eval(slot, Running, Waiting)), Put(s, e, Eval(slot, Running, Expired));
    var t := Put(s.(leaked := s.leaked + 1), e, Eval(slot, Running, Leaked));
    SameEvals(s.evals, e, Eval(slot, Running, Waiting), Eval(slot, Running, Expired));
    SameEvals(s.evals, e, Eval(slot, Running, Expired), Eval(slot, Running, Leaked));
    First(expired, Leak(e), t, [], t);
    First(started, Expire(e), expired, [Leak(e)] + [], t);
    First(s, Start(e), started, [Expire(e)] + ([Leak(e)] + []), t);
    assert [Start(e)] + ([Expire(e)] + ([Leak(e)] + [])) == [Start(e), Expire(e), Leak(e)];
  }

  lemma DrainsAlone(s: State, e: nat, panicked: bool)
    requires e in s.evals && (s.evals[e].slot.Held? || s.evals[e].slot.Noop?)
    ensures var v := s.evals[e];
      Does(Put(s.(leaked := s.leaked + 1), e, Eval(v.slot, Running, Leaked)),
           [Finish(e, panicked), Send(e), DrainReceive(e), Unleak(e)],
           Put(s.(inFlight := s.inFlight - if v.slot.Held? then 1 else 0), e, Eval(WithoutSlot(v.slot), Sent, Drained)))
  {
    var v, slot := s.evals[e], WithoutSlot(s.evals[e].slot);
    var after := s.(inFlight := s.inFlight - if v.slot.Held? then 1 else 0, leaked := s.leaked + 1);
    var running, finished := Put(s.(leaked := s.leaked + 1), e, Eval(v.slot, Running, Leaked)),
                             Put(after, e, Eval(slot, Finished, Leaked));
    var sent, received := Put(after, e, Eval(slot, Sent, Leaked)), Put(after, e, Eval(slot, Sent, Received));
    var t := Put(s.(inFlight := after.inFlight), e, Eval(slot, Sent, Drained));
    SameEvals(s.evals, e, Eval(v.slot, Running, Leaked), Eval(slot, Finished, Leaked));
    SameEvals(s.evals, e, Eval(slot, Finished, Leaked), Eval(slot, Sent, Leaked));
    SameEvals(s.evals, e, Eval(slot, Sent, Leaked), Eval(slot, Sent, Received));
    SameEvals(s.evals, e, Eval(slot, Sent, Received), Eval(slot, Sent, Drained));
    First(received, Unleak(e), t, [], t);
    First(sent, DrainReceive(e), received, [Unleak(e)] + [], t);
    First(finished, Send(e), sent, [DrainReceive(e)] + ([Unleak(e)] + []), t);
    First(running, Finish(e, panicked), finished, [Send(e)] + ([DrainReceive(e)] + ([Unleak(e)] + [])), t);
    assert [Finish(e, panicked)] + ([Send(e)] + ([DrainReceive(e)] + ([Unleak(e)] + []))) ==
        [Finish(e, panicked), Send(e), DrainReceive(e), Unleak(e)];
  }

  /** And one that is given up on: counted as leaked until its result is drained, and no longer. */
  lemma TimedOutAlone(s: State, e: nat, panicked: bool)
    requires e in s.evals && s.evals[e].worker.NotStarted? && (s.evals[e].slot.Held? || s.evals[e].slot.Noop?)
    ensures var v := s.evals[e];
      && Does(s, [Start(e), Expire(e), Leak(e)],
              Put(s.(leaked := s.leaked + 1), e, Eval(v.slot, Running, Leaked)))
      && Does(Put(s.(leaked := s.leaked + 1), e, Eval(v.slot, Running, Leaked)),
              [Finish(e, panicked), Send(e), DrainReceive(e), Unleak(e)],
              Put(s.(inFlight := s.inFlight - if v.slot.Held? then 1 else 0), e,
                  Eval(WithoutSlot(v.slot), Sent, Drained)))
  {
    LeaksAlone(s, e);
    DrainsAlone(s, e, panicked);
  }

  // -- at rest ------------------------------------------------------------------------

  ghost predicate Settled(s: State, e: nat)
    requires e in s.evals
  {
    && !Enabled(s, ReadLimit(e)) && !Enabled(s, ReadCount(e)) && !Enabled(s, Swap(e)) && !Enabled(s, Start(e))
    && !Enabled(s, Finish(e, false)) && !Enabled(s, Send(e)) && !Enabled(s, Receive(e)) && !Enabled(s, Leak(e))
    && !Enabled(s, DrainReceive(e)) && !Enabled(s, Unleak(e))
    && (s.evals[e].worker.Manual? ==> !s.evals[e].slot.Held?)
  }

  /** Nothing left to do by itself: everything asked has been decided, every goroutine, parent and drain is through,
      and manual slots have been released. */
  ghost predicate AtRest(s: State) { forall e <- s.evals.Keys :: Settled(s, e) }

  lemma SettledCountsNowhere(s: State, e: nat)
    requires e in s.evals && EvalInv(s.evals[e]) && Settled(s, e)
    ensures e !in Holding(s) && e !in Orphans(s)
  {
  }

  lemma QuiescentMeansZero(states: seq<State>, steps: seq<Step>, n: nat)
    requires Run(states, steps) && n <= |steps| && AtRest(states[n])
    ensures states[n].inFlight == 0 && states[n].leaked == 0
  {
    CountersAreExact(states, steps, n);
    var s := states[n];
    forall e | e in s.evals ensures e !in Holding(s) && e !in Orphans(s) { SettledCountsNowhere(s, e); }
    assert Holding(s) == {} && Orphans(s) == {};
  }

  // -- the source's own loop ------------------------------------------------------------

  /** A reservation's closure; spent is its sync.Once. */
  class Ticket {
    const counted: bool
    var spent: bool

    constructor (counted: bool)
      ensures this.counted == counted && !spent
    {
      this.counted, spent := counted, false;
    }
  }

  class Semaphore {
    var limit: int
    var inFlight: int
    var rejected: nat

    constructor ()
      ensures limit == 0 && inFlight == 0 && rejected == 0
    {
      limit, inFlight, rejected := 0, 0, 0;
    }

    method SetMaxConcurrentEvals(n: int)
      modifies this`limit
      ensures limit == if n < 0 then 0 else n
    {
      limit := if n < 0 then 0 else n;
    }

    /** reserveEvalSlot. counts holds what other goroutines leave in the counter between a read and its
        compare-and-swap. The last read decides: at the cap it is a rejection, below it the counter goes up by exactly
        one from there. */
    method Reserve(counts: seq<int>) returns (ticket: Ticket?, ghost seen: int)
      modifies this`inFlight, this`rejected
      ensures ticket != null ==> fresh(ticket) && !ticket.spent && ticket.counted == (limit > 0)
      ensures limit <= 0 ==> ticket != null && inFlight == old(inFlight) && rejected == old(rejected)
      ensures limit > 0 ==> seen == old(inFlight) || seen in counts
      ensures limit > 0 && ticket != null ==> seen < limit && inFlight == seen + 1 && rejected == old(rejected)
      ensures limit > 0 && ticket == null ==> seen >= limit && inFlight == seen && rejected == old(rejected) + 1
    {
      seen := inFlight;
      if limit <= 0 {
        ticket := new Ticket(false);
        return;
      }
      var k := 0;
      while true
        invariant k <= |counts| && seen == inFlight && rejected == old(rejected)
        invariant seen == old(inFlight) || seen in counts
        decreases |counts| - k
      {
        var cur := inFlight;
        if cur >= limit {
          rejected := rejected + 1;
          return null, cur;
        }
        if k < |counts| {
          inFlight, seen, k := counts[k], counts[k], k + 1;
        }
        if inFlight == cur {
          inFlight, seen := cur + 1, cur;
          ticket := new Ticket(true);
          return;
        }
      }
    }

    /** However often it is called, a ticket gives back one slot at most. */
    method Release(ticket: Ticket)
      modifies this`inFlight, ticket
      ensures ticket.spent && inFlight == old(inFlight) - (if ticket.counted && !old(ticket.spent) then 1 else 0)
    {
      if ticket.counted && !ticket.spent { inFlight := inFlight - 1; }
      ticket.spent := true;
    }
  }
}
