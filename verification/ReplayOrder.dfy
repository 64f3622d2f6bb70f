/** What the log of a replay says about time, and which dispatch each completed
    step rests on. */
module ReplayOrder {
  import opened Outcomes
  import opened Snapshots
  import opened Capabilities
  import opened Bind
  import opened Replay
  import opened ReplayLaws

  /** The last moment an event speaks of. */
  function When(e: Event): Option<nat> {
    match e
    case RuleApplied(_, _, _, seenAt) => Some(seenAt)
    case Dispatched(_, _, _, tick) => Some(tick)
    case StepDone(_, _, _, _, seenAt, _, settledAt) => Some(settledAt.GetOr(seenAt))
    case CheckpointMet(_, _, _, seenAt) => Some(seenAt)
    case OutcomeSeen(_, _, _, _, seenAt) => Some(seenAt)
    case _ => None
  }

  /** `call` is the dispatch the completed step `e` rests on. */
  ghost predicate OwnCall(call: Event, e: Event) {
    && call.Dispatched? && e.StepDone?
    && call.isRemedy == e.isRemedy && call.origin == OfStep(e.index)
    && e.acted == Some(Acted(call.action, call.tick))
  }

  predicate Within(e: Event, from: nat, to: nat) {
    && (When(e).Some? ==> from <= When(e).value < to)
    && (e.StepDone? ==> from <= e.seenAt <= When(e).value)
  }

  /** `a` was over when `b` ended, and, but for the dispatch a step rests on, when the
      look that chose the step was taken. */
  ghost predicate Before(a: Event, b: Event) {
    && (When(a).Some? && When(b).Some? ==> When(a).value < When(b).value)
    && (When(a).Some? && b.StepDone? && !OwnCall(a, b) ==> When(a).value < b.seenAt)
  }

  /** The log is in order of time, all of it between two ticks: in particular the
      screen a step settled on comes before the look that chose the next one. */
  ghost predicate InTime(log: seq<Event>, from: nat, to: nat) {
    && from <= to
    && (forall i | 0 <= i < |log| :: Within(log[i], from, to))
    && (forall i, j | 0 <= i < j < |log| :: Before(log[i], log[j]))
  }

  /** Right before each completed step that acted stands its own dispatch. */
  ghost predicate Paired(log: seq<Event>) {
    forall j | 0 <= j < |log| && log[j].StepDone? && log[j].acted.Some? :: j > 0 && OwnCall(log[j - 1], log[j])
  }

  /** The steps dispatched, in order, by the run itself or by its remedies. */
  function StepCalls(log: seq<Event>, isRemedy: bool): seq<nat> {
    if log == [] then []
    else
      (if log[0].Dispatched? && log[0].origin.OfStep? && log[0].isRemedy == isRemedy then [log[0].origin.index] else [])
      + StepCalls(log[1..], isRemedy)
  }

  predicate PutsToTheSurface(action: Action) {
    !action.Assert? && !action.WaitFor?
  }

  /** The steps from `from` on that put an action to the surface. */
  function Acting(steps: seq<Step>, from: nat): seq<nat>
    decreases |steps| - from
  {
    if from >= |steps| then []
    else (if PutsToTheSurface(steps[from].action) then [from] else []) + Acting(steps, from + 1)
  }

  function IfActing(capability: Capability, index: nat): seq<nat>
    requires index < |capability.steps|
  {
    if PutsToTheSurface(capability.steps[index].action) then [index] else []
  }

  /** An answer is read from the last look taken. */
  ghost predicate OnTheLastLook(out: Out) {
    out.result.Some? && (out.result.value.ending.Success? || out.result.value.ending.BusinessOutcome?) ==>
      out.log != [] && out.m.tick > 0 && When(out.log[|out.log| - 1]) == Some(out.m.tick - 1)
  }

  /** What a piece of a run that began at `from` tells: times in order, each step with
      its dispatch, and, unless it failed, exactly the dispatches `calls`. */
  ghost predicate Told(from: nat, isRemedy: bool, out: Out, calls: seq<nat>) {
    && InTime(out.log, from, out.m.tick) && Paired(out.log) && OnTheLastLook(out)
    && (out.result.None? || out.result.value.ending.Success? ==> StepCalls(out.log, isRemedy) == calls)
  }

  // ---------------------------------------------------------------- putting pieces together

  lemma {:induction false} StepCallsAdd(a: seq<Event>, b: seq<Event>, who: bool)
    ensures StepCalls(a + b, who) == StepCalls(a, who) + StepCalls(b, who)
  {
    if a == [] {
      assert a + b == b;
    } else {
      assert (a + b)[1..] == a[1..] + b;
      StepCallsAdd(a[1..], b, who);
    }
  }

  lemma {:induction false} TimesCompose(a: seq<Event>, b: seq<Event>, from: nat, between: nat, to: nat)
    requires InTime(a, from, between) && InTime(b, between, to)
    ensures InTime(a + b, from, to)
  {
    var all := a + b;
    forall i, j | 0 <= i < j < |all| ensures Before(all[i], all[j]) {
      if i < |a| <= j {
        assert Within(a[i], from, between) && Within(b[j - |a|], between, to);
      }
    }
    forall i | 0 <= i < |all| ensures Within(all[i], from, to) {
      assert i < |a| ==> Within(a[i], from, between);
      assert i >= |a| ==> Within(b[i - |a|], between, to);
    }
  }

  lemma {:induction false} PairsCompose(a: seq<Event>, b: seq<Event>)
    requires Paired(a) && Paired(b)
    ensures Paired(a + b)
  {
    hide OwnCall;
    var all := a + b;
    forall j | 0 <= j < |all| && all[j].StepDone? && all[j].acted.Some? ensures j > 0 && OwnCall(all[j - 1], all[j]) {
      if j >= |a| { assert OwnCall(b[j - |a| - 1], b[j - |a|]); }
    }
  }

  lemma {:induction false} ToldInTurn(from: nat, who: bool, a: Out, b: Out, callsA: seq<nat>, callsB: seq<nat>)
    requires Told(from, who, a, callsA) && a.result.None?
    requires Told(a.m.tick, who, b, callsB)
    ensures Told(from, who, After(a.log, b), callsA + callsB)
  {
    hide InTime, Paired, StepCalls;
    TimesCompose(a.log, b.log, from, a.m.tick, b.m.tick);
    PairsCompose(a.log, b.log);
    StepCallsAdd(a.log, b.log, who);
    if b.log != [] { assert (a.log + b.log)[|a.log| + |b.log| - 1] == b.log[|b.log| - 1]; }
  }

  lemma {:induction false} ToldFromEarlier(from: nat, later: nat, who: bool, out: Out, calls: seq<nat>)
    requires Told(later, who, out, calls) && from <= later
    ensures Told(from, who, out, calls)
  {
    hide Paired, StepCalls, Before;
  }

  lemma {:induction false} NothingTold(m: Machine, result: Option<RunResult>)
    requires result.Some? ==> !result.value.ending.Success? && !result.value.ending.BusinessOutcome?
    ensures Told(m.tick, m.st.isRemedy, Out(m, [], result), [])
  {
  }

  /** After a piece that put no step to the surface. */
  lemma {:induction false} ToldNext(from: nat, who: bool, a: Out, b: Out, calls: seq<nat>)
    requires Told(from, who, a, []) && a.result.None?
    requires Told(a.m.tick, who, b, calls)
    ensures Told(from, who, After(a.log, b), calls)
  {
    hide Told;
    ToldInTurn(from, who, a, b, [], calls);
    assert [] + calls == calls;
  }

  /** A single event other than a step's dispatch. */
  lemma {:induction false} OneEventTold(from: nat, who: bool, e: Event, out: Out)
    requires out.log == [e] && from <= out.m.tick && Within(e, from, out.m.tick)
    requires (e.StepDone? ==> e.acted.None?) && (e.Dispatched? ==> !e.origin.OfStep?)
    requires out.result.Some? && (out.result.value.ending.Success? || out.result.value.ending.BusinessOutcome?) ==>
               out.m.tick > 0 && When(e) == Some(out.m.tick - 1)
    ensures Told(from, who, out, [])
  {
    assert [e][1..] == [];
    assert StepCalls([e], who) == [] + StepCalls([], who) == [];
  }

  lemma FailLog(env: Env, m: Machine, code: FailureCode)
    ensures var out := Fail(env, m, code);
            && (out.log == [] || out.log == [Escalated]) && out.m.tick == m.tick
            && out.result.Some? && !out.result.value.ending.Success? && !out.result.value.ending.BusinessOutcome?
  {
  }

  lemma {:induction false} FailTold(env: Env, from: nat, m: Machine, code: FailureCode, calls: seq<nat>)
    requires from <= m.tick
    ensures Told(from, m.st.isRemedy, Fail(env, m, code), calls)
  {
    FailLog(env, m, code);
    hide Fail;
  }

  // ---------------------------------------------------------------- one dispatch

  lemma {:induction false} CompletedTold(m: Machine, index: nat, seenAt: nat, settledAt: Option<nat>)
    requires seenAt < m.tick && (settledAt.Some? ==> seenAt <= settledAt.value < m.tick)
    ensures Told(seenAt, m.st.isRemedy, Completed(m, index, seenAt, None, settledAt), [])
  {
    var out := Completed(m, index, seenAt, None, settledAt);
    OneEventTold(seenAt, m.st.isRemedy, out.log[0], out);
  }

  /** A dispatch and the step it completes. */
  lemma {:induction false} ActedTold(call: Event, done: Event, out: Out)
    requires OwnCall(call, done) && done.seenAt < call.tick < When(done).value < out.m.tick
    requires out.log == [call, done] && out.result.None?
    ensures Told(done.seenAt, call.isRemedy, out, [done.index])
  {
    assert out.log[1..] == [done] && [done][1..] == [];
    assert StepCalls([done], call.isRemedy) == [];
  }

  lemma {:induction false} FailedCallTold(env: Env, from: nat, call: Event, later: Machine, code: FailureCode,
                                          calls: seq<nat>)
    requires call.Dispatched? && from <= call.tick < later.tick
    ensures Told(from, later.st.isRemedy, After([call], Fail(env, later, code)), calls)
  {
    FailLog(env, later, code);
    var out := After([call], Fail(env, later, code));
    hide Fail, StepCalls;
    assert out.log == [call] || out.log == [call, Escalated];
  }

  lemma {:induction false} SettleTold(env: Env, m: Machine, index: nat, seenAt: nat, acted: Acted)
    requires index < |m.st.capability.steps| && seenAt < acted.at < m.tick
    ensures Told(seenAt, m.st.isRemedy,
                 After([Dispatched(m.st.isRemedy, OfStep(index), acted.action, acted.at)],
                       Settle(env, m, index, seenAt, acted)), [index])
  {
    hide Told, Fail;
    var step := m.st.capability.steps[index];
    var call := Dispatched(m.st.isRemedy, OfStep(index), acted.action, acted.at);
    var waited := Replay.WaitFor(env, step.wait, m.st.inputs, Some(env.surface.observe(seenAt)), m.tick);
    var m1 := m.(tick := waited.seenAt + 1);
    if !waited.satisfied {
      FailedCallTold(env, seenAt, call, m1, Timeout, [index]);
    } else if step.postcondition.Some? && !step.postcondition.value(env.surface.observe(waited.seenAt), m.st.inputs) {
      FailedCallTold(env, seenAt, call, m1, PreconditionFailed, [index]);
    } else {
      var out := After([call], Settle(env, m, index, seenAt, acted));
      ActedTold(call, out.log[1], out);
    }
  }

  lemma {:induction false} ConcludeTold(env: Env, m: Machine, index: nat, seenAt: nat, acted: Acted,
                                        outcome: DispatchOutcome)
    requires index < |m.st.capability.steps| && seenAt < acted.at < m.tick
    ensures Told(seenAt, m.st.isRemedy,
                 After([Dispatched(m.st.isRemedy, OfStep(index), acted.action, acted.at)],
                       Conclude(env, m, index, seenAt, acted, outcome)), [index])
  {
    hide Told, Fail, Settle;
    var action := acted.action;
    var call := Dispatched(m.st.isRemedy, OfStep(index), action, acted.at);
    if action.Extract? && outcome.node.Some? {
      var text := Extracted(env, action, outcome.node.value);
      if text.None? {
        FailedCallTold(env, seenAt, call, m, ActionFailed, [index]);
      } else {
        SettleTold(env, m.(st := m.st.(outputs := m.st.outputs[action.into := text.value])), index, seenAt, acted);
      }
    } else if outcome.status != DispatchOk {
      FailedCallTold(env, seenAt, call, m, outcome.failureCode.GetOr(ActionFailed), [index]);
    } else {
      SettleTold(env, m, index, seenAt, acted);
    }
  }

  lemma {:induction false} DispatchStepTold(env: Env, m: Machine, index: nat, seenAt: nat)
    requires index < |m.st.capability.steps| && seenAt < m.tick
    ensures Told(seenAt, m.st.isRemedy, DispatchStep(env, m, index, seenAt), IfActing(m.st.capability, index))
  {
    hide Told, Fail, Conclude, Completed;
    var step := m.st.capability.steps[index];
    var calls := IfActing(m.st.capability, index);
    match BindAction(step.action, m.st.inputs, m.st.outputs, env.cfg.secrets)
    case Err(SecretNotFound) =>
      NothingTold(m, Some(ResultOf(m.st, Raised)));
      ToldAtAll(m, Some(ResultOf(m.st, Raised)), seenAt, calls);
    case Err(Unbound) =>
      FailTold(env, seenAt, m, InputValidationFailed, calls);
    case Ok(action) =>
      if action.Assert? {
        if !action.that(env.surface.observe(seenAt), m.st.inputs) {
          FailTold(env, seenAt, m, PreconditionFailed, calls);
        } else {
          CompletedTold(m.(st := m.st.(stepsExecuted := index + 1)), index, seenAt, None);
        }
      } else if action.WaitFor? {
        var waited := Replay.WaitFor(env, WaitPolicy(PredicateHolds, Some(action.until)), m.st.inputs, None, m.tick);
        var m1 := m.(tick := waited.seenAt + 1);
        if !waited.satisfied {
          FailTold(env, seenAt, m1, Timeout, calls);
        } else {
          CompletedTold(m1.(st := m.st.(stepsExecuted := index + 1)), index, seenAt, Some(waited.seenAt));
        }
      } else {
        var outcome := env.surface.execute(m.tick, action);
        ConcludeTold(env, Counted(m, index, outcome), index, seenAt, Acted(action, m.tick), outcome);
      }
  }

  lemma {:induction false} ToldAtAll(m: Machine, result: Option<RunResult>, from: nat, calls: seq<nat>)
    requires result.Some? && !result.value.ending.Success? && !result.value.ending.BusinessOutcome? && from <= m.tick
    ensures Told(from, m.st.isRemedy, Out(m, [], result), calls)
  {
  }

  lemma {:induction false} OutcomeTold(m: Machine, index: nat, seenAt: nat, from: nat, calls: seq<nat>)
    requires from <= seenAt && m.tick == seenAt + 1
    ensures Told(from, m.st.isRemedy, EndWithOutcome(m, index, seenAt), calls)
  {
  }

  // ---------------------------------------------------------------- the whole loop

  lemma {:induction false} RunStepTold(env: Env, m: Machine, index: nat, attempts: nat)
    requires index < |m.st.capability.steps|
    ensures Told(m.tick, m.st.isRemedy, RunStep(env, m, index, attempts), IfActing(m.st.capability, index))
    decreases Left(env, m), 2, 0
  {
    hide Told, Fail, Recover, LookAt, DispatchStep, EndWithOutcome, IfActing;
    var calls := IfActing(m.st.capability, index);
    if env.surface.overrun(m.tick) {
      FailTold(env, m.tick, m.(tick := m.tick + 1), Timeout, calls);
    } else {
      var seenAt := m.tick + 1;
      var m1 := m.(tick := seenAt + 1);
      match LookAt(env, m1, index, seenAt)
      case IsOutcome(k) => OutcomeTold(m1, k, seenAt, m.tick, calls);
      case IsUnexpected => FailTold(env, m.tick, m1, UnexpectedState, calls);
      case IsExpected =>
        DispatchStepTold(env, m1, index, seenAt);
        ToldFromEarlier(m.tick, seenAt, m.st.isRemedy, DispatchStep(env, m1, index, seenAt), calls);
      case IsRecoverable(k) =>
        var recovered := Recover(env, m1, k, attempts + 1, seenAt);
        RecoverTold(env, m1, k, attempts + 1, seenAt);
        ToldFromEarlier(m.tick, seenAt, m.st.isRemedy, recovered, []);
        if recovered.result.None? {
          var rest := RunStep(env, recovered.m, index, attempts + 1);
          RunStepTold(env, recovered.m, index, attempts + 1);
          ToldNext(m.tick, m.st.isRemedy, recovered, rest, calls);
        } else {
          EndedWithoutSuccess(recovered, m.tick, m.st.isRemedy, [], calls);
        }
    }
  }

  /** A piece that ended without success says the same whatever was still to come. */
  lemma EndedWithoutSuccess(out: Out, from: nat, who: bool, calls: seq<nat>, others: seq<nat>)
    requires Told(from, who, out, calls) && out.result.Some? && !out.result.value.ending.Success?
    ensures Told(from, who, out, others)
  {
    hide InTime, Paired, StepCalls;
  }

  lemma {:induction false} RecoverTold(env: Env, m: Machine, k: nat, attempt: nat, seenAt: nat)
    requires k < |m.st.capability.recovery| && seenAt < m.tick
    ensures Told(seenAt, m.st.isRemedy, Recover(env, m, k, attempt, seenAt), [])
    ensures Recover(env, m, k, attempt, seenAt).result.Some? ==>
              !Recover(env, m, k, attempt, seenAt).result.value.ending.Success?
    decreases Left(env, m), 1, 0
  {
    hide Told, Fail, Remedies;
    var rule := m.st.capability.recovery[k];
    var m1 := m.(st := m.st.(recoveryAttempts := m.st.recoveryAttempts + 1));
    if m1.st.recoveryAttempts > env.cfg.maxRecoveryTotal || attempt > rule.maxAttempts {
      FailTold(env, seenAt, m1, RecoveryExhausted, []);
      FailLog(env, m1, RecoveryExhausted);
    } else {
      var applied := Out(m1, [RuleApplied(m.st.isRemedy, rule, attempt, seenAt)], None);
      OneEventTold(seenAt, m.st.isRemedy, applied.log[0], applied);
      RemediesTold(env, m1, rule.remedy);
      ToldNext(seenAt, m.st.isRemedy, applied, Remedies(env, m1, rule.remedy), []);
    }
  }

  lemma {:induction false} UntimedTold(out: Out, from: nat, who: bool)
    requires |out.log| == 1 && out.log[0].RemedyStarted?
    requires out.result.None? && from <= out.m.tick
    ensures Told(from, who, out, [])
  {
    assert out.log[1..] == [];
  }

  lemma {:induction false} RemediesTold(env: Env, m: Machine, remedies: seq<Remedy>)
    ensures Told(m.tick, m.st.isRemedy, Remedies(env, m, remedies), [])
    ensures Remedies(env, m, remedies).result.Some? ==> !Remedies(env, m, remedies).result.value.ending.Success?
    decreases Left(env, m), 5, |remedies| + 1
  {
    hide Told, OneRemedy;
    if remedies == [] {
      NothingTold(m, None);
    } else {
      var first := OneRemedy(env, m, remedies[0]);
      OneRemedyTold(env, m, remedies[0]);
      if first.result.None? {
        RemediesTold(env, first.m, remedies[1..]);
        ToldNext(m.tick, m.st.isRemedy, first, Remedies(env, first.m, remedies[1..]), []);
      }
    }
  }

  lemma {:induction false} OneRemedyTold(env: Env, m: Machine, remedy: Remedy)
    ensures Told(m.tick, m.st.isRemedy, OneRemedy(env, m, remedy), [])
    ensures OneRemedy(env, m, remedy).result.Some? ==> !OneRemedy(env, m, remedy).result.value.ending.Success?
    decreases Left(env, m), 5, 0
  {
    hide Told, RunRemedy, ActRemedy;
    match remedy
    case RunCapability(id, inputs) => RunRemedyTold(env, m, id, inputs);
    case Act(action) => ActRemedyTold(env, m, action);
  }

  lemma {:induction false} ActRemedyTold(env: Env, m: Machine, action: Action)
    ensures Told(m.tick, m.st.isRemedy, ActRemedy(env, m, action), [])
    ensures ActRemedy(env, m, action).result.Some? ==> !ActRemedy(env, m, action).result.value.ending.Success?
  {
    hide Told, Fail;
    var outcome := env.surface.execute(m.tick + 1, action);
    var m1 := m.(tick := m.tick + 2);
    var call := Dispatched(m.st.isRemedy, OfRemedy, action, m.tick + 1);
    if outcome.status == DispatchOk {
      OneEventTold(m.tick, m.st.isRemedy, call, Out(m1, [call], None));
      assert [call] + [] == [call];
    } else {
      FailedCallTold(env, m.tick, call, m1, outcome.failureCode.GetOr(ActionFailed), []);
      FailLog(env, m1, outcome.failureCode.GetOr(ActionFailed));
    }
  }

  lemma {:induction false} RemediesMakeNoStepCall(log: seq<Event>)
    requires forall e | e in log :: OfARemedy(e)
    ensures StepCalls(log, false) == []
  {
    if log != [] {
      assert log[0] in log;
      RemediesMakeNoStepCall(log[1..]);
    }
  }

  /** A remedy's run, seen from the run it serves: none of the run's own steps. */
  lemma {:induction false} RemedyTold(m: Machine, ended: Out, calls: seq<nat>, from: nat, seen: Out)
    requires Told(from, true, ended, calls) && !m.st.isRemedy
    requires forall e | e in ended.log :: OfARemedy(e)
    requires seen.log == ended.log && seen.m.tick == ended.m.tick && seen.result.None?
    ensures Told(from, false, seen, [])
  {
    hide InTime, Paired;
    RemediesMakeNoStepCall(ended.log);
  }

  lemma {:induction false} RunRemedyTold(env: Env, m: Machine, id: string, inputs: map<string, ValueExpr>)
    ensures Told(m.tick, m.st.isRemedy, RunRemedy(env, m, id, inputs), [])
    ensures RunRemedy(env, m, id, inputs).result.Some? ==>
              !RunRemedy(env, m, id, inputs).result.value.ending.Success?
    decreases Left(env, m), 4, 0
  {
    hide Told, Fail, RunThrough, ReportBack;
    match RemedyFor(env, m.st, id, inputs)
    case Err(code) =>
      FailTold(env, m.tick, m, code, []);
      FailLog(env, m, code);
    case Ok((capability, bound)) =>
      var remedial := Remedial(m, capability, bound);
      var ended := RunThrough(env, remedial, 0);
      RunThroughTold(env, remedial, 0);
      RemedyRunLaw(env, remedial, Uncounted);
      var back := HandedBack(m, ended.m);
      var started := Out(m, [RemedyStarted(capability)], None);
      UntimedTold(started, m.tick, m.st.isRemedy);
      var seen := Out(back, ended.log, None);
      RemedyTold(m, ended, Acting(capability.steps, 0), m.tick, seen);
      ToldNext(m.tick, false, started, seen, []);
      var report := ReportBack(env, back, ended.result.value.ending);
      ReportTold(env, back, ended.result.value.ending);
      var both := After(started.log, seen);
      ToldNext(m.tick, false, both, report, []);
      assert RunRemedy(env, m, id, inputs) == After(both.log, report);
  }

  lemma {:induction false} ReportTold(env: Env, m: Machine, ending: Ending)
    ensures Told(m.tick, m.st.isRemedy, ReportBack(env, m, ending), [])
    ensures ReportBack(env, m, ending).result.Some? ==> !ReportBack(env, m, ending).result.value.ending.Success?
  {
    hide Told, Fail;
    match ending
    case Success => NothingTold(m, None);
    case BusinessOutcome(_) =>
      FailTold(env, m.tick, m, RecoveryExhausted, []);
      FailLog(env, m, RecoveryExhausted);
    case NeedsHuman(code) =>
      FailTold(env, m.tick, m, code, []);
      FailLog(env, m, code);
    case Failed(code) =>
      FailTold(env, m.tick, m, code, []);
      FailLog(env, m, code);
    case Raised => NothingTold(m, Some(ResultOf(m.st, Raised)));
  }

  lemma {:induction false} CheckpointTold(env: Env, m: Machine)
    ensures Told(m.tick, m.st.isRemedy, VerifyCheckpoint(env, m), [])
  {
    hide Told, Fail, EndWithOutcome;
    var m1 := m.(tick := m.tick + 1);
    match Classify(env.surface.observe(m.tick), m.st.capability, m.st.inputs, Some(m.st.capability.checkpoint))
    case IsOutcome(k) => OutcomeTold(m1, k, m.tick, m.tick, []);
    case IsExpected =>
      var out := VerifyCheckpoint(env, m);
      OneEventTold(m.tick, m.st.isRemedy, out.log[0], out);
    case _ => FailTold(env, m.tick, m1, CheckpointFailed, []);
  }

  lemma {:induction false} RunThroughTold(env: Env, m: Machine, start: nat)
    ensures Told(m.tick, m.st.isRemedy, RunThrough(env, m, start), Acting(m.st.capability.steps, start))
    decreases Left(env, m), 3, |m.st.capability.steps| + 1
  {
    hide Told, RunSteps, VerifyCheckpoint, Acting;
    RunStepsTold(env, m, start);
    var ran, calls := RunSteps(env, m, start), Acting(m.st.capability.steps, start);
    if ran.result.None? {
      CheckpointTold(env, ran.m);
      ToldInTurn(m.tick, m.st.isRemedy, ran, VerifyCheckpoint(env, ran.m), calls, []);
      assert calls + [] == calls;
    }
  }

  lemma {:induction false} RunStepsTold(env: Env, m: Machine, from: nat)
    ensures Told(m.tick, m.st.isRemedy, RunSteps(env, m, from), Acting(m.st.capability.steps, from))
    decreases Left(env, m), 3, StepsFrom(m, from)
  {
    hide Told, RunStep;
    var calls := Acting(m.st.capability.steps, from);
    if from < |m.st.capability.steps| {
      var m1 := m.(st := m.st.(stepIndex := Some(from)));
      var first := RunStep(env, m1, from, 0);
      RunStepTold(env, m1, from, 0);
      if first.result.None? {
        RunStepsTold(env, first.m, from + 1);
        ToldInTurn(m.tick, m.st.isRemedy, first, RunSteps(env, first.m, from + 1), IfActing(m.st.capability, from),
                   Acting(m.st.capability.steps, from + 1));
      } else {
        NoStepSucceedsTheRun(env, m1, from);
        EndedWithoutSuccess(first, m.tick, m.st.isRemedy, IfActing(m.st.capability, from), calls);
      }
    } else {
      NothingTold(m, None);
    }
  }

  lemma {:induction false} NoStepSucceedsTheRun(env: Env, m: Machine, index: nat)
    requires index < |m.st.capability.steps| && RunStep(env, m, index, 0).result.Some?
    ensures !RunStep(env, m, index, 0).result.value.ending.Success?
  {
    hide RunStep, Tallied;
    RunStepLaw(env, index, m, index, 0, Uncounted);
  }
}
