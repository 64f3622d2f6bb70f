/** Every replay counts what it does and ends for a cause. */
module ReplayCauses {
  import opened Outcomes
  import opened Snapshots
  import opened Capabilities
  import opened Replay
  import opened ReplayLaws
  import opened ReplayStory
  import opened ReplayEndings
  import ReplayReads
  import Bind
  import L = Leases
  import B = Broker

  function TallyOf(st: RunState, streak: nat): Tally {
    Tally(st.stepsExecuted, st.resolutions, st.drifted, st.recoveryAttempts, streak)
  }

  /** A piece of a run begun after `prior` recoveries in a row that goes on after
      `next` of them. */
  ghost predicate Going(env: Env, m: Machine, prior: nat, next: nat, out: Out) {
    && out.result.None? && Escalated !in out.log && out.m.broker == m.broker
    && out.m.st.isRemedy == m.st.isRemedy
    && TallyAlong(env, m.st.isRemedy, TallyOf(m.st, prior), out.log) == TallyOf(out.m.st, next)
  }

  /** A piece that ended the run. */
  ghost predicate Stopped(env: Env, m: Machine, prior: nat, out: Out, cause: Cause) {
    && out.result.Some?
    && var r := out.result.value;
       var t := TallyAlong(env, m.st.isRemedy, TallyOf(m.st, prior), out.log);
       && t.(spent := t.spent + Overdrawn(cause)) == TallyOf(out.m.st, t.streak)
       && Reports(r, out.m.st)
       && WhyEnded(env, out.m.st, m.broker, out.m.tick, t.streak, Body(out.log), r.ending, cause)
  }

  predicate Reports(r: RunResult, st: RunState) {
    && (!r.ending.Raised? ==>
          r.stepsExecuted == st.stepsExecuted && r.resolutions == st.resolutions && r.drifted == st.drifted)
    && (!r.ending.Raised? && !r.ending.BusinessOutcome? ==> r.recoveryAttempts == st.recoveryAttempts)
  }

  ghost predicate Accounted(env: Env, m: Machine, prior: nat, next: nat, out: Out, cause: Cause) {
    if out.result.None? then Going(env, m, prior, next, out) else Stopped(env, m, prior, out, cause)
  }

  // ---------------------------------------------------------------- pieces in sequence

  /** What is a cause at the end of a log is one at the end of a longer log. */
  lemma {:induction false} CausesStay(env: Env, st: RunState, tick: nat, streak: nat, before: seq<Event>,
                                      log: seq<Event>, code: FailureCode, cause: Cause)
    requires Because(env, st, tick, streak, log, code, cause)
    ensures Because(env, st, tick, streak, before + log, code, cause)
    decreases cause
  {
    hide AtAStep, InTheRun, TallyAlong;
    if cause.RemedyFailed? {
      assert RemedyStarted(cause.inner.capability) in log;
      if cause.ending.Failed? {
        StreaksStay(env, before, log);
        CausesStay(env, cause.inner, tick, InnerStreak(env, log), before, log, code, cause.why);
      }
    } else if InTheRun(env, st, tick, streak, log, code, cause) {
      RunsCausesStay(env, st, tick, streak, before, log, code, cause);
    } else {
      AStepsCausesStay(env, st, tick, before, log, code, cause);
    }
  }

  lemma {:induction false} RunsCausesStay(env: Env, st: RunState, tick: nat, streak: nat, before: seq<Event>,
                                          log: seq<Event>, code: FailureCode, cause: Cause)
    requires InTheRun(env, st, tick, streak, log, code, cause)
    ensures InTheRun(env, st, tick, streak, before + log, code, cause)
  {
    hide Eligible, IsFirstToMatch, NoAnswer, NoRule;
    if cause.CannotStart? {
      var e :| e in log && e.RuleApplied? && e.isRemedy == st.isRemedy
               && RunCapability(cause.id, cause.values) in e.rule.remedy;
      assert e in before + log;
    }
  }

  lemma {:induction false} StreaksStay(env: Env, before: seq<Event>, log: seq<Event>)
    requires exists e :: e in log && e.RemedyStarted?
    ensures InnerStreak(env, before + log) == InnerStreak(env, log)
  {
    TalliesInTurn(env, true, Nothing, before, log);
    StreaksStartAfresh(env, TallyAlong(env, true, Nothing, before), Nothing, log);
  }

  lemma {:induction false} AStepsCausesStay(env: Env, st: RunState, tick: nat, before: seq<Event>, log: seq<Event>,
                                            code: FailureCode, cause: Cause)
    requires st.stepIndex.Some? && st.stepIndex.value < |st.capability.steps| && tick > 0
    requires AtAStep(env, st, st.stepIndex.value, tick, log, code, cause)
    ensures AtAStep(env, st, st.stepIndex.value, tick, before + log, code, cause)
  {
  }

  lemma {:induction false} EndsStay(env: Env, st: RunState, broker: Option<B.BrokerValue>, tick: nat, streak: nat,
                                    before: seq<Event>, log: seq<Event>, ending: Ending, cause: Cause)
    requires WhyEnded(env, st, broker, tick, streak, log, ending, cause)
    ensures WhyEnded(env, st, broker, tick, streak, before + log, ending, cause)
  {
    hide Because, SecretMissing, Stops;
    if !ending.Success? && !ending.BusinessOutcome? && !cause.NoSecret?
       && !(cause.RemedyFailed? && cause.ending.Raised?) {
      var code :| Because(env, st, tick, streak, log, code, cause) && Stops(st, broker, code, ending);
      CausesStay(env, st, tick, streak, before, log, code, cause);
    }
  }

  lemma {:induction false} BodyInTurn(a: seq<Event>, b: seq<Event>)
    requires Escalated !in a
    ensures Body(a + b) == a + Body(b)
  {
    if b == [] {
      assert a + b == a && a != [] ==> a[|a| - 1] in a;
    } else if b[|b| - 1].Escalated? {
      assert (a + b)[..|a + b| - 1] == a + b[..|b| - 1];
    }
  }

  lemma {:induction false} CountedInTurn(env: Env, m: Machine, prior: nat, next: nat, last: nat, a: Out, b: Out,
                                         cause: Cause)
    requires Going(env, m, prior, next, a) && Accounted(env, a.m, next, last, b, cause)
    ensures Accounted(env, m, prior, last, After(a.log, b), cause)
  {
    hide WhyEnded, TallyAlong;
    TalliesInTurn(env, m.st.isRemedy, TallyOf(m.st, prior), a.log, b.log);
    if b.result.Some? {
      BodyInTurn(a.log, b.log);
      EndsStay(env, b.m.st, a.m.broker, b.m.tick, TallyAlong(env, a.m.st.isRemedy, TallyOf(a.m.st, next), b.log).streak,
               a.log, Body(b.log), b.result.value.ending, cause);
    }
  }

  lemma NothingYet(env: Env, m: Machine, later: Machine, prior: nat)
    requires later.broker == m.broker && later.st.isRemedy == m.st.isRemedy
    requires TallyOf(later.st, prior) == TallyOf(m.st, prior)
    ensures Going(env, m, prior, prior, Out(later, [], None))
  {
  }

  lemma {:induction false} OneMore(env: Env, m: Machine, prior: nat, next: nat, e: Event, out: Out)
    requires out.log == [e] && out.result.None? && !e.Escalated?
    requires out.m.broker == m.broker && out.m.st.isRemedy == m.st.isRemedy
    requires AfterOne(env, m.st.isRemedy, TallyOf(m.st, prior), e) == TallyOf(out.m.st, next)
    ensures Going(env, m, prior, next, out)
  {
    hide AfterOne;
    var isRemedy, t := m.st.isRemedy, TallyOf(m.st, prior);
    assert [e][1..] == [] && TallyAlong(env, isRemedy, t, [e]) == AfterOne(env, isRemedy, t, e);
    assert forall x | x in [e] :: x == e;
  }

  // ---------------------------------------------------------------- failing

  lemma {:induction false} FailIs(env: Env, m: Machine, code: FailureCode)
    ensures var out := Fail(env, m, code);
            && (out.log == [] || out.log == [Escalated]) && out.m.st == m.st && out.m.tick == m.tick
            && out.result.Some? && Stops(m.st, m.broker, code, out.result.value.ending)
            && Reports(out.result.value, m.st)
            && !out.result.value.ending.Success? && !out.result.value.ending.BusinessOutcome?
  {
    FailStops(env, m, code);
    hide Stops, Carries, B.Escalate;
  }

  lemma {:induction false} FailStops(env: Env, m: Machine, code: FailureCode)
    ensures Stops(m.st, m.broker, code, Fail(env, m, code).result.value.ending)
  {
    hide Carries;
  }

  /** A piece that went on and then failed, for this cause. */
  lemma {:induction false} FailCounts(env: Env, m: Machine, prior: nat, next: nat, sofar: Out, later: Machine,
                                      code: FailureCode, cause: Cause)
    requires Going(env, m, prior, next, sofar) && later.broker == sofar.m.broker
    requires later.st == sofar.m.st.(recoveryAttempts := sofar.m.st.recoveryAttempts + Overdrawn(cause))
    requires Because(env, later.st, later.tick, next, sofar.log, code, cause)
    ensures Stopped(env, m, prior, After(sofar.log, Fail(env, later, code)), cause)
  {
    hide Because;
    var failed := Fail(env, later, code);
    var out := After(sofar.log, failed);
    var t := TallyOf(m.st, prior);
    FailIs(env, later, code);
    hide Fail, Stops;
    TalliesInTurn(env, m.st.isRemedy, t, sofar.log, failed.log);
    assert [Escalated][1..] == [] && TallyAlong(env, m.st.isRemedy, TallyOf(sofar.m.st, next), failed.log)
                                     == TallyOf(sofar.m.st, next);
    BodyInTurn(sofar.log, failed.log);
    assert [Escalated][..0] == [] && Body(failed.log) == [] && sofar.log + [] == sofar.log;
    assert WhyEnded(env, later.st, m.broker, later.tick, next, sofar.log, failed.result.value.ending, cause) by {
      FailedForACode(env, later.st, m.broker, later.tick, next, sofar.log, failed.result.value.ending, code, cause);
    }
  }

  lemma FailedForACode(env: Env, st: RunState, broker: Option<B.BrokerValue>, tick: nat, streak: nat,
                       log: seq<Event>, ending: Ending, code: FailureCode, cause: Cause)
    requires Because(env, st, tick, streak, log, code, cause) && Stops(st, broker, code, ending)
    requires !ending.Success? && !ending.BusinessOutcome?
    ensures WhyEnded(env, st, broker, tick, streak, log, ending, cause)
  {
    NoCauseForRaising(env, st, tick, streak, log, code, cause);
    hide Because, Stops;
  }

  lemma {:induction false} NoCauseForRaising(env: Env, st: RunState, tick: nat, streak: nat, log: seq<Event>,
                                             code: FailureCode, cause: Cause)
    requires Because(env, st, tick, streak, log, code, cause)
    ensures !cause.NoSecret? && !(cause.RemedyFailed? && cause.ending.Raised?)
  {
  }

  /** Nothing was done before the failure. */
  lemma {:induction false} FailsAtOnce(env: Env, m: Machine, prior: nat, next: nat, later: Machine, code: FailureCode,
                                       cause: Cause)
    requires later.broker == m.broker
    requires later.st == m.st.(recoveryAttempts := m.st.recoveryAttempts + Overdrawn(cause))
    requires Because(env, later.st, later.tick, prior, [], code, cause)
    ensures Accounted(env, m, prior, next, Fail(env, later, code), cause)
  {
    hide Because, Fail, Stopped;
    var sofar := Out(m, [], None);
    NothingYet(env, m, m, prior);
    FailCounts(env, m, prior, prior, sofar, later, code, cause);
    assert After([], Fail(env, later, code)) == Fail(env, later, code);
  }

  /** The cause lies with the step at hand. */
  lemma {:induction false} AStepFails(env: Env, m: Machine, prior: nat, next: nat, last: nat, sofar: Out,
                                      later: Machine, code: FailureCode, cause: Cause)
    requires Going(env, m, prior, next, sofar) && later.broker == sofar.m.broker && later.st == sofar.m.st
    requires later.st.stepIndex.Some? && later.st.stepIndex.value < |later.st.capability.steps| && later.tick > 0
    requires AtAStep(env, later.st, later.st.stepIndex.value, later.tick, sofar.log, code, cause)
    ensures Accounted(env, m, prior, last, After(sofar.log, Fail(env, later, code)), cause)
  {
    assert !cause.RemedyFailed? && !cause.OutOfAttempts?;
    hide AtAStep, InTheRun, Going, Fail, Stopped;
    FailCounts(env, m, prior, next, sofar, later, code, cause);
  }

  // ---------------------------------------------------------------- one dispatch

  /** The step at hand has just been put to the surface. */
  ghost predicate JustPut(env: Env, m: Machine, prior: nat, sofar: Out, index: nat, seenAt: nat, acted: Acted) {
    && Going(env, m, prior, 0, sofar) && index < |sofar.m.st.capability.steps|
    && sofar.m.st.stepIndex == Some(index) && sofar.m.st.stepsExecuted == index + 1
    && acted.at == seenAt + 1 && sofar.m.tick == acted.at + 1
    && Last(sofar.log, Dispatched(sofar.m.st.isRemedy, OfStep(index), acted.action, acted.at))
  }

  lemma {:induction false} CompletedCounts(env: Env, m: Machine, prior: nat, later: Machine, index: nat, seenAt: nat,
                                           acted: Option<Acted>, settledAt: Option<nat>)
    requires later.broker == m.broker && later.st == m.st.(stepsExecuted := index + 1, outputs := later.st.outputs)
    ensures Going(env, m, prior, 0, Completed(later, index, seenAt, acted, settledAt))
  {
    hide Going;
    var out := Completed(later, index, seenAt, acted, settledAt);
    OneMore(env, m, prior, 0, out.log[0], out);
  }

  lemma {:induction false} SettleCounts(env: Env, m: Machine, prior: nat, sofar: Out, index: nat, seenAt: nat,
                                        acted: Acted)
    returns (cause: Cause)
    requires JustPut(env, m, prior, sofar, index, seenAt, acted)
    ensures Accounted(env, m, prior, 0, After(sofar.log, Settle(env, sofar.m, index, seenAt, acted)), cause)
    ensures !cause.CheckpointMissed?
  {
    hide Accounted, Going, Fail, Completed, Replay.WaitFor;
    var st := sofar.m.st;
    var step, call := st.capability.steps[index], Dispatched(st.isRemedy, OfStep(index), acted.action, acted.at);
    var waited := Replay.WaitFor(env, step.wait, st.inputs, Some(env.surface.observe(seenAt)), sofar.m.tick);
    var m1 := sofar.m.(tick := waited.seenAt + 1);
    if !waited.satisfied {
      cause := NeverSettled(call);
      AStepFails(env, m, prior, 0, 0, sofar, m1, Timeout, cause);
    } else if step.postcondition.Some? && !step.postcondition.value(env.surface.observe(waited.seenAt), st.inputs) {
      cause := NoEffect(call);
      AStepFails(env, m, prior, 0, 0, sofar, m1, PreconditionFailed, cause);
    } else {
      cause := NoneNeeded;
      CompletedCounts(env, sofar.m, 0, m1, index, seenAt, Some(acted), Some(waited.seenAt));
      WentOn(env, m, prior, 0, 0, sofar, Completed(m1, index, seenAt, Some(acted), Some(waited.seenAt)), cause);
    }
  }

  lemma WentOn(env: Env, m: Machine, prior: nat, next: nat, last: nat, a: Out, b: Out, cause: Cause)
    requires Going(env, m, prior, next, a) && Going(env, a.m, next, last, b)
    ensures Accounted(env, m, prior, last, After(a.log, b), cause)
  {
    CountedInTurn(env, m, prior, next, last, a, b, cause);
  }

  lemma {:induction false} ConcludeCounts(env: Env, m: Machine, prior: nat, sofar: Out, index: nat, seenAt: nat,
                                          acted: Acted)
    returns (cause: Cause)
    requires JustPut(env, m, prior, sofar, index, seenAt, acted)
    ensures Accounted(env, m, prior, 0,
                    After(sofar.log, Conclude(env, sofar.m, index, seenAt, acted,
                                              env.surface.execute(acted.at, acted.action))), cause)
    ensures !cause.CheckpointMissed?
  {
    hide Accounted, Fail, Settle, Extracted, TextOn;
    var outcome, st := env.surface.execute(acted.at, acted.action), sofar.m.st;
    var call := Dispatched(st.isRemedy, OfStep(index), acted.action, acted.at);
    if acted.action.Extract? && outcome.node.Some? {
      ReplayReads.TextIsRead(env, acted.action, outcome.node.value);
      var text := Extracted(env, acted.action, outcome.node.value);
      if text.None? {
        cause := ReadsAsNothing(call);
        AStepFails(env, m, prior, 0, 0, sofar, sofar.m, ActionFailed, cause);
      } else {
        var m1 := sofar.m.(st := st.(outputs := st.outputs[acted.action.into := text.value]));
        cause := SettleCounts(env, m, prior, sofar.(m := m1), index, seenAt, acted);
      }
    } else if outcome.status != DispatchOk {
      cause := Refused(call);
      AStepFails(env, m, prior, 0, 0, sofar, sofar.m, outcome.failureCode.GetOr(ActionFailed), cause);
    } else {
      cause := SettleCounts(env, m, prior, sofar, index, seenAt, acted);
    }
  }

  lemma {:induction false} PutCounts(env: Env, m: Machine, index: nat, seenAt: nat, action: Action, prior: nat)
    returns (cause: Cause)
    requires index < |m.st.capability.steps| && m.st.stepIndex == Some(index) && m.tick == seenAt + 1
    ensures var outcome := env.surface.execute(m.tick, action);
            Accounted(env, m, prior, 0,
                    After([Dispatched(m.st.isRemedy, OfStep(index), action, m.tick)],
                          Conclude(env, Counted(m, index, outcome), index, seenAt, Acted(action, m.tick), outcome)),
                    cause)
    ensures !cause.CheckpointMissed?
  {
    hide Conclude, Accounted, Going;
    var outcome := env.surface.execute(m.tick, action);
    var call := Dispatched(m.st.isRemedy, OfStep(index), action, m.tick);
    var sofar := Out(Counted(m, index, outcome), [call], None);
    OneMore(env, m, prior, 0, call, sofar);
    cause := ConcludeCounts(env, m, prior, sofar, index, seenAt, Acted(action, m.tick));
  }

  lemma {:induction false} DispatchStepCounts(env: Env, m: Machine, index: nat, seenAt: nat, prior: nat)
    returns (cause: Cause)
    requires index < |m.st.capability.steps| && m.st.stepIndex == Some(index) && m.tick == seenAt + 1
    ensures Accounted(env, m, prior, 0, DispatchStep(env, m, index, seenAt), cause)
    ensures !cause.CheckpointMissed?
  {
    hide Accounted, Going, Fail, Conclude, Completed;
    var step := m.st.capability.steps[index];
    match Bind.BindAction(step.action, m.st.inputs, m.st.outputs, env.cfg.secrets)
    case Err(SecretNotFound) =>
      cause := NoSecret;
      RaisedCounts(env, m, prior);
    case Err(Unbound) =>
      cause := NothingToPut;
      StepFailsAtOnce(env, m, prior, m, InputValidationFailed, cause);
    case Ok(action) =>
      if action.Assert? {
        if !action.that(env.surface.observe(seenAt), m.st.inputs) {
          cause := AssertionFails;
          StepFailsAtOnce(env, m, prior, m, PreconditionFailed, cause);
        } else {
          cause := NoneNeeded;
          var later := m.(st := m.st.(stepsExecuted := index + 1));
          CompletedCounts(env, m, prior, later, index, seenAt, None, None);
          ThatIsCounted(env, m, prior, 0, Completed(later, index, seenAt, None, None), cause);
        }
      } else if action.WaitFor? {
        cause := WaitStepCounts(env, m, index, seenAt, prior, action);
      } else {
        cause := PutCounts(env, m, index, seenAt, action, prior);
      }
  }

  lemma {:induction false} StepFailsAtOnce(env: Env, m: Machine, prior: nat, later: Machine, code: FailureCode,
                                           cause: Cause)
    requires later.broker == m.broker && later.st == m.st && later.tick > 0
    requires m.st.stepIndex.Some? && m.st.stepIndex.value < |m.st.capability.steps|
    requires AtAStep(env, m.st, m.st.stepIndex.value, later.tick, [], code, cause)
    ensures Accounted(env, m, prior, 0, Fail(env, later, code), cause)
  {
    hide AtAStep, Fail, Stopped;
    NothingYet(env, m, m, prior);
    AStepFails(env, m, prior, prior, 0, Out(m, [], None), later, code, cause);
    assert After([], Fail(env, later, code)) == Fail(env, later, code);
  }

  lemma RaisedCounts(env: Env, m: Machine, prior: nat)
    requires SecretMissing(env, m.st)
    ensures Accounted(env, m, prior, 0, Out(m, [], Some(ResultOf(m.st, Raised))), NoSecret)
  {
  }

  lemma ThatIsCounted(env: Env, m: Machine, prior: nat, next: nat, out: Out, cause: Cause)
    requires Going(env, m, prior, next, out)
    ensures Accounted(env, m, prior, next, out, cause)
  {
    hide TallyAlong;
  }

  lemma {:induction false} WaitStepCounts(env: Env, m: Machine, index: nat, seenAt: nat, prior: nat, action: Action)
    returns (cause: Cause)
    requires index < |m.st.capability.steps| && m.st.stepIndex == Some(index)
    requires action.WaitFor? && action == m.st.capability.steps[index].action
    ensures var policy := WaitPolicy(PredicateHolds, Some(action.until));
            var waited := Replay.WaitFor(env, policy, m.st.inputs, None, m.tick);
            var m1 := m.(tick := waited.seenAt + 1);
            Accounted(env, m, prior, 0,
                      if !waited.satisfied then Fail(env, m1, Timeout)
                      else Completed(m1.(st := m.st.(stepsExecuted := index + 1)), index, seenAt, None,
                                     Some(waited.seenAt)), cause)
    ensures !cause.CheckpointMissed?
  {
    hide Accounted, Going, Fail, Completed;
    var policy := WaitPolicy(PredicateHolds, Some(action.until));
    var waited := Replay.WaitFor(env, policy, m.st.inputs, None, m.tick);
    var m1 := m.(tick := waited.seenAt + 1);
    if !waited.satisfied {
      cause := NeverHeld(m.tick);
      forall t | m.tick <= t < m1.tick ensures !action.until(env.surface.observe(t), m.st.inputs) {
        assert !Settled(env, policy, m.st.inputs, None, m.tick, t - m.tick);
      }
      StepFailsAtOnce(env, m, prior, m1, Timeout, cause);
    } else {
      cause := NoneNeeded;
      var later := m1.(st := m.st.(stepsExecuted := index + 1));
      CompletedCounts(env, m, prior, later, index, seenAt, None, Some(waited.seenAt));
      ThatIsCounted(env, m, prior, 0, Completed(later, index, seenAt, None, Some(waited.seenAt)), cause);
    }
  }

  // ---------------------------------------------------------------- the whole loop

  /** The clock does not matter to a count. */
  lemma Sooner(env: Env, m: Machine, later: Machine, prior: nat, next: nat, out: Out, cause: Cause)
    requires later.st == m.st && later.broker == m.broker && Accounted(env, later, prior, next, out, cause)
    ensures Accounted(env, m, prior, next, out, cause)
  {
    hide TallyAlong, WhyEnded;
  }

  lemma EndedCounts(env: Env, m: Machine, prior: nat, next: nat, other: nat, out: Out, cause: Cause)
    requires Accounted(env, m, prior, next, out, cause) && out.result.Some?
    ensures Accounted(env, m, prior, other, out, cause)
  {
    hide Stopped;
  }

  lemma {:induction false} OutcomeCounts(env: Env, m: Machine, later: Machine, prior: nat, next: nat, index: nat,
                                         seenAt: nat)
    requires later.st == m.st && later.broker == m.broker
    ensures Accounted(env, m, prior, next, EndWithOutcome(later, index, seenAt), NoneNeeded)
  {
    var out := EndWithOutcome(later, index, seenAt);
    assert out.log[1..] == [];
  }

  lemma {:induction false} RunFailsAtOnce(env: Env, m: Machine, prior: nat, next: nat, later: Machine,
                                          code: FailureCode, cause: Cause)
    requires later.broker == m.broker && !cause.RemedyFailed?
    requires later.st == m.st.(recoveryAttempts := m.st.recoveryAttempts + Overdrawn(cause))
    requires InTheRun(env, later.st, later.tick, prior, [], code, cause)
    ensures Accounted(env, m, prior, next, Fail(env, later, code), cause)
  {
    hide InTheRun, Fail, Accounted, AtAStep;
    FailsAtOnce(env, m, prior, next, later, code, cause);
  }

  lemma {:induction false} RunStepCounts(env: Env, m: Machine, index: nat, attempts: nat) returns (cause: Cause)
    requires index < |m.st.capability.steps| && m.st.stepIndex == Some(index)
    ensures Accounted(env, m, attempts, 0, RunStep(env, m, index, attempts), cause)
    ensures !cause.CheckpointMissed?
    decreases Left(env, m), 2, 0
  {
    hide Accounted, Fail, Recover, DispatchStep, EndWithOutcome;
    if env.surface.overrun(m.tick) {
      cause := OverTime;
      RunFailsAtOnce(env, m, attempts, 0, m.(tick := m.tick + 1), Timeout, cause);
    } else {
      var seenAt := m.tick + 1;
      var m1 := m.(tick := seenAt + 1);
      match LookAt(env, m1, index, seenAt)
      case IsOutcome(k) =>
        cause := NoneNeeded;
        OutcomeCounts(env, m, m1, attempts, 0, k, seenAt);
      case IsUnexpected =>
        cause := Unexpected;
        StepFailsAtOnce(env, m, attempts, m1, UnexpectedState, cause);
      case IsExpected =>
        cause := DispatchStepCounts(env, m1, index, seenAt, attempts);
        Sooner(env, m, m1, attempts, 0, DispatchStep(env, m1, index, seenAt), cause);
      case IsRecoverable(k) => cause := LookAgainCounts(env, m, index, attempts);
    }
  }

  lemma {:induction false} RecoverableMeans(env: Env, m: Machine, index: nat, seenAt: nat) returns (k: nat)
    requires index < |m.st.capability.steps| && LookAt(env, m, index, seenAt).IsRecoverable?
    ensures k == LookAt(env, m, index, seenAt).index && k < |m.st.capability.recovery|
    ensures NoAnswer(m.st, env.surface.observe(seenAt))
    ensures IsFirstToMatch(Who(m.st.capability, m.st.isRemedy, m.st.inputs), env.surface.observe(seenAt),
                           m.st.capability.recovery[k], k)
  {
    k := FirstRule(m.st.capability.recovery, env.surface.observe(seenAt), m.st.inputs, 0);
  }

  lemma LooksAgain(env: Env, m: Machine, index: nat, attempts: nat)
    requires index < |m.st.capability.steps| && !env.surface.overrun(m.tick)
    requires LookAt(env, m.(tick := m.tick + 2), index, m.tick + 1).IsRecoverable?
    ensures var m1 := m.(tick := m.tick + 2);
            var recovered := Recover(env, m1, LookAt(env, m1, index, m.tick + 1).index, attempts + 1, m.tick + 1);
            RunStep(env, m, index, attempts)
            == if recovered.result.Some? then recovered
               else After(recovered.log, RunStep(env, recovered.m, index, attempts + 1))
  {
    hide Recover, LookAt, Fail, DispatchStep, EndWithOutcome;
  }

  lemma {:induction false} LookAgainCounts(env: Env, m: Machine, index: nat, attempts: nat) returns (cause: Cause)
    requires index < |m.st.capability.steps| && m.st.stepIndex == Some(index) && !env.surface.overrun(m.tick)
    requires LookAt(env, m.(tick := m.tick + 2), index, m.tick + 1).IsRecoverable?
    ensures Accounted(env, m, attempts, 0, RunStep(env, m, index, attempts), cause)
    ensures !cause.CheckpointMissed?
    decreases Left(env, m), 1, 1
  {
    hide Accounted, Recover, RunStep, LookAt, NoAnswer, IsFirstToMatch;
    var m1 := m.(tick := m.tick + 2);
    var k := RecoverableMeans(env, m1, index, m.tick + 1);
    LooksAgain(env, m, index, attempts);
    var recovered := Recover(env, m1, k, attempts + 1, m.tick + 1);
    cause := RecoverCounts(env, m1, k, attempts + 1, m.tick + 1);
    Sooner(env, m, m1, attempts, attempts + 1, recovered, cause);
    if recovered.result.None? {
      ThenGoing(env, m, attempts, attempts + 1, recovered, cause);
      cause := RunStepCounts(env, recovered.m, index, attempts + 1);
      CountedInTurn(env, m, attempts, attempts + 1, 0, recovered, RunStep(env, recovered.m, index, attempts + 1),
                    cause);
    } else {
      EndedCounts(env, m, attempts, attempts + 1, 0, recovered, cause);
    }
  }

  lemma ThenGoing(env: Env, m: Machine, prior: nat, next: nat, out: Out, cause: Cause)
    requires Accounted(env, m, prior, next, out, cause) && out.result.None?
    ensures Going(env, m, prior, next, out)
  {
    hide TallyAlong;
  }

  lemma ThenStopped(env: Env, m: Machine, out: Out, cause: Cause)
    requires Accounted(env, m, 0, 0, out, cause) && out.result.Some?
    ensures Stopped(env, m, 0, out, cause)
  {
    hide Stopped;
  }

  lemma {:induction false} RecoverCounts(env: Env, m: Machine, k: nat, attempt: nat, seenAt: nat)
    returns (cause: Cause)
    requires k < |m.st.capability.recovery| && attempt > 0 && m.tick == seenAt + 1
    requires NoAnswer(m.st, env.surface.observe(seenAt))
    requires IsFirstToMatch(Who(m.st.capability, m.st.isRemedy, m.st.inputs), env.surface.observe(seenAt),
                            m.st.capability.recovery[k], k)
    requires m.st.stepIndex.Some? && m.st.stepIndex.value < |m.st.capability.steps|
    ensures Accounted(env, m, attempt - 1, attempt, Recover(env, m, k, attempt, seenAt), cause)
    ensures !cause.CheckpointMissed?
    decreases Left(env, m), 1, 0
  {
    hide Accounted, Fail, Remedies, Going, IsFirstToMatch;
    var rule := m.st.capability.recovery[k];
    var m1 := m.(st := m.st.(recoveryAttempts := m.st.recoveryAttempts + 1));
    if m1.st.recoveryAttempts > env.cfg.maxRecoveryTotal || attempt > rule.maxAttempts {
      cause := OutOfAttempts(k);
      RunFailsAtOnce(env, m, attempt - 1, attempt, m1, RecoveryExhausted, cause);
    } else {
      var applied := RuleApplied(m.st.isRemedy, rule, attempt, seenAt);
      var sofar := Out(m1, [applied], None);
      OneMore(env, m, attempt - 1, attempt, applied, sofar);
      cause := RemediesCount(env, m, attempt - 1, attempt, sofar, rule.remedy, applied);
    }
  }

  /** The rule these remedies belong to has been applied, and so have those before. */
  ghost predicate Remedying(env: Env, m: Machine, prior: nat, next: nat, sofar: Out, remedies: seq<Remedy>,
                            applied: Event)
  {
    && Going(env, m, prior, next, sofar) && sofar.result.None?
    && sofar.m.st.capability == m.st.capability && sofar.m.st.isRemedy == m.st.isRemedy
    && sofar.m.st.stepIndex.Some? && sofar.m.st.stepIndex.value < |sofar.m.st.capability.steps|
    && sofar.m.tick > 0 && applied in sofar.log && applied.RuleApplied? && applied.isRemedy == m.st.isRemedy
    && forall r | r in remedies :: r in applied.rule.remedy
  }

  lemma {:induction false} RemediesCount(env: Env, m: Machine, prior: nat, next: nat, sofar: Out,
                                         remedies: seq<Remedy>, applied: Event)
    returns (cause: Cause)
    requires Remedying(env, m, prior, next, sofar, remedies, applied)
    ensures Accounted(env, m, prior, next, After(sofar.log, Remedies(env, sofar.m, remedies)), cause)
    ensures !cause.CheckpointMissed?
    decreases Left(env, sofar.m), 5, |remedies| + 1
  {
    hide Accounted, OneRemedy, Going;
    if remedies == [] {
      cause := NoneNeeded;
      assert sofar.log + [] == sofar.log;
      ThatIsCounted(env, m, prior, next, sofar, cause);
    } else {
      var first := OneRemedy(env, sofar.m, remedies[0]);
      cause := OneRemedyCounts(env, m, prior, next, sofar, remedies[0], applied);
      if first.result.None? {
        var more := After(sofar.log, first);
        ThenGoing(env, m, prior, next, more, cause);
        cause := RemediesCount(env, m, prior, next, more, remedies[1..], applied);
        var rest := Remedies(env, first.m, remedies[1..]);
        assert sofar.log + (first.log + rest.log) == (sofar.log + first.log) + rest.log;
      }
    }
  }

  lemma {:induction false} OneRemedyCounts(env: Env, m: Machine, prior: nat, next: nat, sofar: Out, remedy: Remedy,
                                           applied: Event)
    returns (cause: Cause)
    requires Remedying(env, m, prior, next, sofar, [remedy], applied)
    ensures Accounted(env, m, prior, next, After(sofar.log, OneRemedy(env, sofar.m, remedy)), cause)
    ensures !cause.CheckpointMissed?
    decreases Left(env, sofar.m), 5, 0
  {
    hide Accounted, RunRemedy, ActRemedy, Going;
    assert remedy in [remedy];
    match remedy
    case RunCapability(id, inputs) => cause := RunRemedyCounts(env, m, prior, next, sofar, id, inputs, applied);
    case Act(action) => cause := ActRemedyCounts(env, m, prior, next, sofar, action, applied);
  }

  lemma {:induction false} ActRemedyCounts(env: Env, m: Machine, prior: nat, next: nat, sofar: Out, action: Action,
                                           applied: Event)
    returns (cause: Cause)
    requires Remedying(env, m, prior, next, sofar, [], applied)
    ensures Accounted(env, m, prior, next, After(sofar.log, ActRemedy(env, sofar.m, action)), cause)
    ensures !cause.CheckpointMissed?
  {
    hide Accounted, Fail, Going;
    var outcome := env.surface.execute(sofar.m.tick + 1, action);
    var m1 := sofar.m.(tick := sofar.m.tick + 2);
    var call := Dispatched(sofar.m.st.isRemedy, OfRemedy, action, sofar.m.tick + 1);
    var done := Out(m1, [call], None);
    OneMore(env, sofar.m, next, next, call, done);
    WentOn(env, m, prior, next, next, sofar, done, NoneNeeded);
    var more := After(sofar.log, done);
    ThenGoing(env, m, prior, next, more, NoneNeeded);
    if outcome.status == DispatchOk {
      cause := NoneNeeded;
      assert [call] + [] == [call];
    } else {
      cause := Refused(call);
      var code := outcome.failureCode.GetOr(ActionFailed);
      AStepFails(env, m, prior, next, next, more, m1, code, cause);
      var failed := Fail(env, m1, code);
      assert sofar.log + ([call] + failed.log) == (sofar.log + [call]) + failed.log;
    }
  }

  // ---------------------------------------------------------------- a capability run as a remedy

  /** What a remedy passes on can be resolved in one way only. */
  lemma {:induction false} SuppliesOneWay(env: Env, found: Capability, values: map<string, ValueExpr>,
                                          inputs: Bindings, outputs: Bindings, bound: Bindings)
    requires Supplies(env, found, values, inputs, outputs, bound)
    ensures BindAll(values, inputs, outputs).Some?
    ensures env.cfg.validate(found, BindAll(values, inputs, outputs).value) == Some(bound)
  {
    var supplied: Bindings :|
      && supplied.Keys == values.Keys
      && (forall name | name in values :: StandsFor(values[name], inputs, outputs, None, supplied[name]))
      && env.cfg.validate(found, supplied) == Some(bound);
    hide StandsFor, Bind.ResolveValue;
    forall name | name in values ensures Bind.ResolveValue(values[name], inputs, outputs, None) == Ok(supplied[name]) {
      OneMeaning(values[name], inputs, outputs, supplied[name]);
    }
    assert BindAll(values, inputs, outputs).value == supplied;
  }

  lemma OneMeaning(value: ValueExpr, inputs: Bindings, outputs: Bindings, text: string)
    requires StandsFor(value, inputs, outputs, None, text)
    ensures Bind.ResolveValue(value, inputs, outputs, None) == Ok(text)
  {
  }

  /** A remedy is refused for a reason, and for the gate only when nothing else stands
      in its way. */
  lemma {:induction false} RefusedForAReason(env: Env, st: RunState, id: string, values: map<string, ValueExpr>,
                                             code: FailureCode)
    requires RemedyFor(env, st, id, values) == Err(code)
    ensures if exists found, bound :: Eligible(env, st, id, values, found, bound)
            then code == PolicyDenied
                 && forall found, bound :: Eligible(env, st, id, values, found, bound) ==> env.cfg.gateRefuses(found)
            else code == RecoveryExhausted
  {
    hide BindAll, Supplies;
    forall found, bound | Eligible(env, st, id, values, found, bound)
      ensures code == PolicyDenied && env.cfg.gateRefuses(found)
    {
      SuppliesOneWay(env, found, values, st.inputs, st.outputs, bound);
    }
    if code == PolicyDenied {
      var found := (env.cfg.capabilities.value)(id).value;
      var bound := env.cfg.validate(found, BindAll(values, st.inputs, st.outputs).value).value;
      ReplayReads.BoundSupplies(env, found, values, st.inputs, st.outputs, bound);
      assert Eligible(env, st, id, values, found, bound);
    }
  }

  /** A remedy's events are counted by the run it serves as attempts and nothing else. */
  lemma {:induction false} RemediesSpend(env: Env, t: Tally, u: Tally, log: seq<Event>)
    requires forall i | 0 <= i < |log| :: OfARemedy(log[i])
    requires t.spent == u.spent
    ensures TallyAlong(env, false, t, log) == t.(spent := TallyAlong(env, true, u, log).spent)
    decreases |log|
  {
    if log != [] {
      assert OfARemedy(log[0]);
      RemediesSpend(env, AfterOne(env, false, t, log[0]), AfterOne(env, true, u, log[0]), log[1..]);
    }
  }

  lemma {:induction false} RunRemedyCounts(env: Env, m: Machine, prior: nat, next: nat, sofar: Out, id: string,
                                           values: map<string, ValueExpr>, applied: Event)
    returns (cause: Cause)
    requires Remedying(env, m, prior, next, sofar, [], applied) && RunCapability(id, values) in applied.rule.remedy
    ensures Accounted(env, m, prior, next, After(sofar.log, RunRemedy(env, sofar.m, id, values)), cause)
    ensures !cause.CheckpointMissed?
    decreases Left(env, sofar.m), 4, 0
  {
    hide Accounted, Fail, Going, RemedyFor, RunThrough, ReportBack;
    match RemedyFor(env, sofar.m.st, id, values)
    case Err(code) =>
      cause := CannotStart(id, values);
      StartRefused(env, m, prior, next, sofar, id, values, applied, code);
    case Ok((capability, bound)) =>
      ReplayReads.FoundMayRun(env, sofar.m.st, id, values);
      var remedial := Remedial(sofar.m, capability, bound);
      var ended := RunThrough(env, remedial, 0);
      var why := RunThroughCounts(env, remedial, 0);
      RemedyRunLaw(env, remedial, Uncounted);
      ThenStopped(env, remedial, ended, why);
      cause := RanCounts(env, m, prior, next, sofar, remedial, ended, why);
      var rest := ReportBack(env, HandedBack(sofar.m, ended.m), ended.result.value.ending);
      assert sofar.log + (([RemedyStarted(capability)] + ended.log) + rest.log)
             == (sofar.log + ([RemedyStarted(capability)] + ended.log)) + rest.log;
  }

  lemma {:induction false} StartRefused(env: Env, m: Machine, prior: nat, next: nat, sofar: Out, id: string,
                                        values: map<string, ValueExpr>, applied: Event, code: FailureCode)
    requires Remedying(env, m, prior, next, sofar, [], applied) && RunCapability(id, values) in applied.rule.remedy
    requires RemedyFor(env, sofar.m.st, id, values) == Err(code) && sofar.m.tick > 0
    ensures Accounted(env, m, prior, next, After(sofar.log, Fail(env, sofar.m, code)), CannotStart(id, values))
  {
    var cause := CannotStart(id, values);
    RefusedForAReason(env, sofar.m.st, id, values, code);
    hide RemedyFor, Eligible, Fail, Going, Stopped;
    assert InTheRun(env, sofar.m.st, sofar.m.tick, next, sofar.log, code, cause);
    FailCounts(env, m, prior, next, sofar, sofar.m, code, cause);
  }

  /** A remedy capability's run, counted by the run it serves, and what that makes of
      its ending. */
  lemma {:induction false} RanCounts(env: Env, m: Machine, prior: nat, next: nat, sofar: Out, remedial: Machine,
                                     ended: Out, why: Cause)
    returns (cause: Cause)
    requires Going(env, m, prior, next, sofar) && sofar.result.None? && !m.st.isRemedy && !sofar.m.st.isRemedy
    requires remedial == Remedial(sofar.m, remedial.st.capability, remedial.st.inputs)
    requires Stopped(env, remedial, 0, ended, why) && ended.m.broker == sofar.m.broker
    requires ended.m.st.isRemedy && ended.m.st.capability == remedial.st.capability
    requires (forall e | e in ended.log :: OfARemedy(e)) && !ended.result.value.ending.NeedsHuman?
    ensures Accounted(env, m, prior, next,
                      After(sofar.log + ([RemedyStarted(remedial.st.capability)] + ended.log),
                            ReportBack(env, HandedBack(sofar.m, ended.m), ended.result.value.ending)), cause)
    ensures !cause.CheckpointMissed?
  {
    hide Accounted, Fail, Going, WhyEnded;
    var ending, back := ended.result.value.ending, HandedBack(sofar.m, ended.m);
    var log := [RemedyStarted(remedial.st.capability)] + ended.log;
    var done := Out(back.(st := back.st.(recoveryAttempts := back.st.recoveryAttempts - Overdrawn(why))), log, None);
    RemedySpent(env, sofar.m, remedial, next, ended, why, done);
    WentOn(env, m, prior, next, next, sofar, done, NoneNeeded);
    var more := After(sofar.log, done);
    ThenGoing(env, m, prior, next, more, NoneNeeded);
    if ending.Success? {
      cause := NoneNeeded;
      SucceededForNothing(env, remedial, ended, why);
      assert done.m == back;
      assert more.log + [] == more.log;
    } else if ending.Raised? {
      cause := RemedyFailed(ended.m.st, ending, why);
      assert RemedyStarted(remedial.st.capability) in log;
      assert back.st == more.m.st.(recoveryAttempts := more.m.st.recoveryAttempts + Overdrawn(why));
      RaisedInside(env, m, prior, next, more, back, remedial, ended, why);
      assert more.log + [] == more.log;
    } else {
      cause := RemedyFailed(ended.m.st, ending, why);
      var code := if ending.BusinessOutcome? then RecoveryExhausted else ending.code;
      FailedInside(env, back, next, sofar.log, remedial, ended, why, code);
      FailCounts(env, m, prior, next, more, back, code, cause);
      ThatStopped(env, m, prior, next, After(more.log, Fail(env, back, code)), cause);
    }
  }

  lemma ThatStopped(env: Env, m: Machine, prior: nat, next: nat, out: Out, cause: Cause)
    requires Stopped(env, m, prior, out, cause)
    ensures Accounted(env, m, prior, next, out, cause)
  {
    hide TallyAlong, WhyEnded;
  }

  lemma {:induction false} RemedySpent(env: Env, m: Machine, remedial: Machine, next: nat, ended: Out, why: Cause,
                                       done: Out)
    requires !m.st.isRemedy && remedial == Remedial(m, remedial.st.capability, remedial.st.inputs)
    requires Stopped(env, remedial, 0, ended, why) && ended.m.broker == m.broker
    requires forall e | e in ended.log :: OfARemedy(e)
    requires done.log == [RemedyStarted(remedial.st.capability)] + ended.log && done.result.None?
    requires done.m.broker == m.broker
    requires done.m.st == m.st.(recoveryAttempts := ended.m.st.recoveryAttempts - Overdrawn(why))
    ensures Going(env, m, next, next, done)
  {
    hide WhyEnded;
    var t := TallyOf(m.st, next);
    assert done.log[0] == RemedyStarted(remedial.st.capability) && done.log[1..] == ended.log;
    assert TallyAlong(env, false, t, done.log) == TallyAlong(env, false, t, ended.log);
    RemediesSpend(env, t, TallyOf(remedial.st, 0), ended.log);
  }

  lemma SucceededForNothing(env: Env, m: Machine, out: Out, cause: Cause)
    requires Stopped(env, m, 0, out, cause) && out.result.value.ending.Success?
    ensures cause == NoneNeeded
  {
    hide TallyAlong;
  }

  lemma {:induction false} RaisedForASecret(env: Env, m: Machine, out: Out, cause: Cause)
    requires Stopped(env, m, 0, out, cause) && out.result.value.ending.Raised? && out.m.st.isRemedy
    ensures cause.NoSecret? && SecretMissing(env, out.m.st)
  {
    hide TallyAlong, Because;
  }

  lemma {:induction false} RaisedInside(env: Env, m: Machine, prior: nat, next: nat, more: Out, back: Machine,
                                        remedial: Machine, ended: Out, why: Cause)
    requires Going(env, m, prior, next, more) && !m.st.isRemedy
    requires Stopped(env, remedial, 0, ended, why) && ended.result.value.ending.Raised? && ended.m.st.isRemedy
    requires RemedyStarted(ended.m.st.capability) in more.log
    requires back.st == more.m.st.(recoveryAttempts := more.m.st.recoveryAttempts + Overdrawn(why))
    requires !back.st.isRemedy
    ensures Accounted(env, m, prior, next, After(more.log, Out(back, [], Some(ResultOf(back.st, Raised)))),
                      RemedyFailed(ended.m.st, Raised, why))
  {
    RaisedForASecret(env, remedial, ended, why);
    hide TallyAlong, SecretMissing, Stopped;
    assert more.log + [] == more.log;
    BodyInTurn(more.log, []);
    assert Body(more.log) == more.log;
  }

  /** Why the remedy's run failed, told where the run it serves stands. */
  lemma {:induction false} FailedInside(env: Env, back: Machine, next: nat, before: seq<Event>, remedial: Machine,
                                        ended: Out, why: Cause, code: FailureCode)
    requires !back.st.isRemedy && back.tick == ended.m.tick
    requires Stopped(env, remedial, 0, ended, why) && ended.m.st.isRemedy && remedial.st.isRemedy
    requires ended.m.st.capability == remedial.st.capability && forall e | e in ended.log :: OfARemedy(e)
    requires var ending := ended.result.value.ending;
             ending == Failed(code) || (ending.BusinessOutcome? && code == RecoveryExhausted)
    ensures Because(env, back.st, back.tick, next,
                    before + ([RemedyStarted(remedial.st.capability)] + ended.log), code,
                    RemedyFailed(ended.m.st, ended.result.value.ending, why))
  {
    var started := [RemedyStarted(remedial.st.capability)];
    var log := before + (started + ended.log);
    assert log == (before + started) + ended.log && RemedyStarted(remedial.st.capability) in log;
    assert Body(ended.log) == ended.log by {
      if ended.log != [] { assert OfARemedy(ended.log[|ended.log| - 1]); }
    }
    var ending, inner := ended.result.value.ending, ended.m.st;
    var streak := TallyAlong(env, true, TallyOf(remedial.st, 0), ended.log).streak;
    hide TallyAlong;
    if ending.BusinessOutcome? {
      assert EndsOnAnswer(inner, ended.log, ending.index);
      assert log[|log| - 1] == ended.log[|ended.log| - 1];
    } else {
      FailedForItsCode(env, remedial, ended, why, code, streak);
      CausesStay(env, inner, ended.m.tick, streak, before + started, ended.log, code, why);
      StreakFromTheStart(env, before, remedial.st.capability, TallyOf(remedial.st, 0), ended.log);
    }
  }

  lemma {:induction false} FailedForItsCode(env: Env, m: Machine, out: Out, cause: Cause, code: FailureCode,
                                            streak: nat)
    requires Stopped(env, m, 0, out, cause) && out.result.value.ending == Failed(code) && out.m.st.isRemedy
    requires m.st.isRemedy && Body(out.log) == out.log
    requires streak == TallyAlong(env, true, TallyOf(m.st, 0), out.log).streak
    ensures Because(env, out.m.st, out.m.tick, streak, out.log, code, cause)
  {
    hide TallyAlong, Because, SecretMissing;
  }

  lemma {:induction false} StreakFromTheStart(env: Env, before: seq<Event>, capability: Capability, t: Tally,
                                              log: seq<Event>)
    requires t.streak == 0
    ensures InnerStreak(env, before + ([RemedyStarted(capability)] + log)) == TallyAlong(env, true, t, log).streak
  {
    var started := [RemedyStarted(capability)];
    var first := TallyAlong(env, true, Nothing, before);
    assert (started + log)[0] == started[0] && (started + log)[1..] == log;
    TalliesInTurn(env, true, Nothing, before, started + log);
    assert TallyAlong(env, true, first, started + log) == TallyAlong(env, true, first.(streak := 0), log);
    StreaksStartAfresh(env, first.(streak := 0), t, log);
  }

  // ---------------------------------------------------------------- every step and the checkpoint

  lemma {:induction false} CheckpointCounts(env: Env, m: Machine) returns (cause: Cause)
    ensures Accounted(env, m, 0, 0, VerifyCheckpoint(env, m), cause)
    ensures cause.CheckpointMissed? || cause.NoneNeeded?
  {
    hide Accounted, Fail, EndWithOutcome, Stopped;
    var m1 := m.(tick := m.tick + 1);
    match Classify(env.surface.observe(m.tick), m.st.capability, m.st.inputs, Some(m.st.capability.checkpoint))
    case IsOutcome(k) =>
      cause := NoneNeeded;
      OutcomeCounts(env, m, m1, 0, 0, k, m.tick);
    case IsExpected =>
      cause := NoneNeeded;
      CheckpointMetCounts(env, m, VerifyCheckpoint(env, m));
    case _ =>
      cause := CheckpointMissed;
      RunFailsAtOnce(env, m, 0, 0, m1, CheckpointFailed, cause);
  }

  lemma {:induction false} CheckpointMetCounts(env: Env, m: Machine, out: Out)
    requires out.log == [CheckpointMet(m.st.isRemedy, m.st.capability, m.st.inputs, m.tick)] && out.m.st == m.st
    requires out.result == Some(ResultOf(m.st, Success))
    ensures Accounted(env, m, 0, 0, out, NoneNeeded)
  {
    assert out.log[1..] == [];
  }

  lemma {:induction false} RunThroughCounts(env: Env, m: Machine, start: nat) returns (cause: Cause)
    ensures Accounted(env, m, 0, 0, RunThrough(env, m, start), cause)
    ensures RunSteps(env, m, start).result.Some? ==> !cause.CheckpointMissed?
    ensures RunSteps(env, m, start).result.None? ==> cause.CheckpointMissed? || cause.NoneNeeded?
    decreases Left(env, m), 3, |m.st.capability.steps| + 1
  {
    hide Accounted, RunSteps, VerifyCheckpoint;
    cause := RunStepsCounts(env, m, start);
    var ran := RunSteps(env, m, start);
    if ran.result.None? {
      ThenGoing(env, m, 0, 0, ran, cause);
      cause := CheckpointCounts(env, ran.m);
      CountedInTurn(env, m, 0, 0, 0, ran, VerifyCheckpoint(env, ran.m), cause);
    }
  }

  lemma {:induction false} RunStepsCounts(env: Env, m: Machine, from: nat) returns (cause: Cause)
    ensures Accounted(env, m, 0, 0, RunSteps(env, m, from), cause)
    ensures !cause.CheckpointMissed?
    decreases Left(env, m), 3, StepsFrom(m, from)
  {
    hide Accounted, RunStep;
    if from < |m.st.capability.steps| {
      var m1 := m.(st := m.st.(stepIndex := Some(from)));
      var first := RunStep(env, m1, from, 0);
      cause := RunStepCounts(env, m1, from, 0);
      FromTheStep(env, m, m1, first, cause);
      if first.result.None? {
        ThenGoing(env, m, 0, 0, first, cause);
        cause := RunStepsCounts(env, first.m, from + 1);
        CountedInTurn(env, m, 0, 0, 0, first, RunSteps(env, first.m, from + 1), cause);
      }
    } else {
      cause := NoneNeeded;
      NothingYet(env, m, m, 0);
      ThatIsCounted(env, m, 0, 0, Out(m, [], None), cause);
    }
  }

  lemma FromTheStep(env: Env, m: Machine, m1: Machine, out: Out, cause: Cause)
    requires m1 == m.(st := m.st.(stepIndex := m1.st.stepIndex)) && Accounted(env, m1, 0, 0, out, cause)
    ensures Accounted(env, m, 0, 0, out, cause)
  {
    hide TallyAlong, WhyEnded;
  }
}
