/** `replay/executor.py` in its own form: a run state updated in place, an executor
    that consults the surface tick by tick, appends to its journal and escalates
    through the session broker. Each method is proved to do what `Replay` says. */
module Executor {
  import opened Outcomes
  import opened Snapshots
  import opened Capabilities
  import opened Bind
  import R = Replay
  import Story = ReplayStory
  import Reads = ReplayReads
  import Reanchor
  import L = Leases
  import B = Broker

  class State {
    const capability: Capability
    /** Set when this capability runs as another run's recovery remedy. */
    const parent: State?
    var inputs: Bindings
    var outputs: Bindings
    var stepsExecuted: nat
    var stepIndex: Option<nat>
    var resolutions: nat
    var drifted: nat
    var recoveryAttempts: int

    function Value(): R.RunState
      reads this
    {
      R.RunState(capability, parent != null, inputs, outputs, stepsExecuted, stepIndex, resolutions, drifted,
                 recoveryAttempts)
    }

    constructor (capability: Capability, parent: State?, inputs: Bindings, outputs: Bindings, recoveryAttempts: int)
      ensures Value() == R.RunState(capability, parent != null, inputs, outputs, 0, None, 0, 0, recoveryAttempts)
    {
      this.capability, this.parent := capability, parent;
      this.inputs, this.outputs := inputs, outputs;
      stepsExecuted, stepIndex, resolutions, drifted := 0, None, 0, 0;
      this.recoveryAttempts := recoveryAttempts;
    }
  }

  lemma NothingBefore(out: R.Out)
    ensures R.After([], out) == out
  {
    assert [] + out.log == out.log;
  }

  lemma AfterAfter(before: seq<R.Event>, first: seq<R.Event>, second: seq<R.Event>, out: R.Out)
    ensures R.After(first, R.After(second, out)) == R.After(first + second, out)
    ensures before + first + second == before + (first + second)
  {
    assert first + (second + out.log) == (first + second) + out.log;
  }

  /** The state, the clock and the session are where `out` says, its events are what
      the journal gained, and its result is the one returned. */
  ghost predicate Did(out: R.Out, m: R.Machine, before: seq<R.Event>, journal: seq<R.Event>, r: Option<R.RunResult>) {
    m == out.m && journal == before + out.log && r == out.result
  }

  /** What a whole run leaves behind, its own state gone. */
  ghost predicate Leaves(out: R.Out, tick: nat, control: Option<B.BrokerValue>, before: seq<R.Event>,
                       journal: seq<R.Event>, r: R.RunResult)
  {
    tick == out.m.tick && control == out.m.broker && journal == before + out.log && Some(r) == out.result
  }

  /** One turn of the step loop. */
  lemma {:induction false} OneLook(env: R.Env, m: R.Machine, index: nat, attempts: nat)
    requires index < |m.st.capability.steps|
    ensures var out := R.RunStep(env, m, index, attempts);
            var m1 := m.(tick := m.tick + 2);
            if env.surface.overrun(m.tick) then out == R.Fail(env, m.(tick := m.tick + 1), Timeout)
            else match R.LookAt(env, m1, index, m.tick + 1)
                 case IsOutcome(k) => out == R.EndWithOutcome(m1, k, m.tick + 1)
                 case IsUnexpected => out == R.Fail(env, m1, UnexpectedState)
                 case IsExpected => out == R.DispatchStep(env, m1, index, m.tick + 1)
                 case IsRecoverable(k) =>
                   var recovered := R.Recover(env, m1, k, attempts + 1, m.tick + 1);
                   if recovered.result.Some? then out == recovered
                   else
                     && out == R.After(recovered.log, R.RunStep(env, recovered.m, index, attempts + 1))
                     && R.Left(env, recovered.m) < R.Left(env, m) && recovered.m.st.capability == m.st.capability
  {
    hide R.Fail, R.Recover, R.DispatchStep, R.EndWithOutcome, R.LookAt;
  }

  /** One turn of the remedy loop. */
  lemma {:induction false} OneRemedyMore(env: R.Env, m: R.Machine, remedies: seq<Remedy>, i: nat)
    requires i < |remedies|
    ensures var out := R.Remedies(env, m, remedies[i..]);
            var first := R.OneRemedy(env, m, remedies[i]);
            && first == (match remedies[i]
                         case RunCapability(id, inputs) => R.RunRemedy(env, m, id, inputs)
                         case Act(action) => R.ActRemedy(env, m, action))
            && (if first.result.Some? then out == first
                else out == R.After(first.log, R.Remedies(env, first.m, remedies[i + 1..])))
            && R.Left(env, first.m) <= R.Left(env, m)
  {
    hide R.RunRemedy, R.ActRemedy;
    assert remedies[i..][1..] == remedies[i + 1..];
  }

  lemma {:induction false} NoRemedyLeft(env: R.Env, m: R.Machine, log: seq<R.Event>)
    ensures R.After(log, R.Remedies(env, m, [])) == R.Out(m, log, None)
  {
    assert log + [] == log;
  }

  /** One turn of the loop over the steps. */
  lemma {:induction false} OneStepMore(env: R.Env, m: R.Machine, index: nat)
    requires index < |m.st.capability.steps|
    ensures var out := R.RunSteps(env, m, index);
            var first := R.RunStep(env, m.(st := m.st.(stepIndex := Some(index))), index, 0);
            if first.result.Some? then out == first
            else
              && out == R.After(first.log, R.RunSteps(env, first.m, index + 1))
              && R.Left(env, first.m) <= R.Left(env, m) && first.m.st.capability == m.st.capability
  {
    hide R.RunStep;
  }

  lemma {:induction false} Stopped(env: R.Env, m: R.Machine, start: nat)
    requires R.RunSteps(env, m, start).result.Some?
    ensures R.RunThrough(env, m, start) == R.RunSteps(env, m, start)
  {
    hide R.RunSteps;
  }

  lemma {:induction false} NoStepLeft(env: R.Env, m: R.Machine, start: nat, end: R.Machine, index: nat,
                                      log: seq<R.Event>)
    requires index >= |end.st.capability.steps|
    requires R.RunSteps(env, m, start) == R.After(log, R.RunSteps(env, end, index))
    ensures R.RunThrough(env, m, start) == R.After(log, R.VerifyCheckpoint(env, end))
  {
    hide R.VerifyCheckpoint;
    assert log + [] == log;
  }

  /** What the last turn did, after what the turns before it had done. */
  lemma Closes(spec: R.Out, log: seq<R.Event>, out: R.Out, m: R.Machine, before: seq<R.Event>, between: seq<R.Event>,
               journal: seq<R.Event>, r: Option<R.RunResult>)
    requires spec == R.After(log, out) && between == before + log && Did(out, m, between, journal, r)
    ensures Did(spec, m, before, journal, r)
  {
  }

  lemma Landed(out: R.Out, m: R.Machine, before: seq<R.Event>, journal: seq<R.Event>, r: Option<R.RunResult>)
    requires Did(out, m, before, journal, r)
    ensures m == out.m && r == out.result
  {
  }

  /** The turns so far and one that did not end the run. */
  lemma Continues(spec: R.Out, log: seq<R.Event>, turn: R.Out, m: R.Machine, before: seq<R.Event>,
                  between: seq<R.Event>, journal: seq<R.Event>, rest: R.Out)
    requires spec == R.After(log, R.After(turn.log, rest)) && between == before + log
    requires Did(turn, m, between, journal, None)
    ensures spec == R.After(log + turn.log, rest) && journal == before + (log + turn.log)
  {
    AfterAfter(before, log, turn.log, rest);
  }

  lemma SettlingReadsNothing(env: R.Env, m: R.Machine, index: nat, seenAt: nat, acted: R.Acted)
    requires index < |m.st.capability.steps|
    ensures R.Settle(env, m, index, seenAt, acted).m.st.outputs == m.st.outputs
  {
    hide R.Fail, R.WaitFor;
  }

  /** These parts are what the journal gained besides the application of the rule: its
      remedies, in order, each carried out. */
  ghost predicate CarriedOut(env: R.Env, st: R.RunState, rule: RecoveryRule, applied: R.Event, before: seq<R.Event>,
                             journal: seq<R.Event>, parts: seq<Story.Part>)
  {
    && journal == before + [applied] + Story.PartsLog(parts) && |parts| == |rule.remedy|
    && forall i | 0 <= i < |parts| ::
         && Story.Begins(env, Reads.WhoOf(st), st.outputs, rule.remedy[i], parts[i])
         && Story.CarriedOut(env, parts[i])
  }

  ghost predicate RanInFull(env: R.Env, st: R.RunState, rule: RecoveryRule, applied: R.Event, before: seq<R.Event>,
                            journal: seq<R.Event>)
  {
    exists parts :: CarriedOut(env, st, rule, applied, before, journal, parts)
  }

  lemma InFull(env: R.Env, m: R.Machine, rule: RecoveryRule, applied: R.Event, before: seq<R.Event>,
               journal: seq<R.Event>)
    requires R.Remedies(env, m, rule.remedy).result.None?
    requires journal == before + [applied] + R.Remedies(env, m, rule.remedy).log
    ensures RanInFull(env, m.st, rule, applied, before, journal)
  {
    hide R.Remedies, Story.Begins, Story.CarriedOut, Story.PartsLog;
    var parts, tail := Reads.RemediesTell(env, m, rule.remedy);
    assert tail == [] && Story.Written(tail) == [];
    assert Story.PartsLog(parts) + [] == Story.PartsLog(parts);
    assert CarriedOut(env, m.st, rule, applied, before, journal, parts);
  }

  lemma TheCountIsNoMatter(env: R.Env, before: R.RunState, st: R.RunState, rule: RecoveryRule, applied: R.Event,
                           past: seq<R.Event>, journal: seq<R.Event>)
    requires st == before.(recoveryAttempts := st.recoveryAttempts)
    requires RanInFull(env, st, rule, applied, past, journal)
    ensures RanInFull(env, before, rule, applied, past, journal)
  {
    hide Story.Begins, Story.CarriedOut, Story.PartsLog;
    var parts :| CarriedOut(env, st, rule, applied, past, journal, parts);
    assert CarriedOut(env, before, rule, applied, past, journal, parts);
  }

  class Executor {
    const env: R.Env
    const broker: B.SessionBroker?
    var tick: nat
    var journal: seq<R.Event>

    constructor (env: R.Env, broker: B.SessionBroker?)
      ensures this.env == env && this.broker == broker && tick == 0 && journal == []
    {
      this.env, this.broker, tick, journal := env, broker, 0, [];
    }

    ghost function Session(): set<object> {
      if broker == null then {} else {broker, broker.lease, broker.queue}
    }

    ghost function Footprint(): set<object> {
      {this} + Session()
    }

    function Control(): Option<B.BrokerValue>
      reads Session()
    {
      if broker == null then None else Some(broker.Value())
    }

    function View(st: State): R.Machine
      reads Footprint(), st
    {
      R.Machine(st.Value(), tick, Control())
    }

    method Observe() returns (snapshot: UiSnapshot)
      modifies this`tick
      ensures snapshot == env.surface.observe(old(tick)) && tick == old(tick) + 1
    {
      snapshot := env.surface.observe(tick);
      tick := tick + 1;
    }

    method Dispatch(st: State, origin: R.Origin, action: Action) returns (outcome: R.DispatchOutcome)
      modifies this`tick, this`journal
      ensures outcome == env.surface.execute(old(tick), action) && tick == old(tick) + 1
      ensures journal == old(journal) + [R.Dispatched(st.parent != null, origin, action, old(tick))]
    {
      outcome := env.surface.execute(tick, action);
      journal := journal + [R.Dispatched(st.parent != null, origin, action, tick)];
      tick := tick + 1;
    }

    /** `wait_for`: poll until the condition holds or the deadline has passed. */
    method WaitFor(policy: WaitPolicy, inputs: Bindings, before: Option<UiSnapshot>)
      returns (satisfied: bool, snapshot: UiSnapshot)
      modifies this`tick
      ensures tick > old(tick) && snapshot == env.surface.observe(tick - 1)
      ensures R.WaitFor(env, policy, inputs, before, old(tick)) == R.WaitOutcome(satisfied, tick - 1)
    {
      hide R.Meets, R.Polls;
      var started := tick;
      var polls := 0;
      var previous := None;
      ghost var stop := R.Polls(env, policy, inputs, before, started, 0);
      snapshot := Observe();
      while true
        invariant 0 <= polls <= stop && tick == started + polls + 1
        invariant snapshot == env.surface.observe(started + polls)
        invariant previous == if polls == 0 then None else Some(env.surface.observe(started + polls - 1))
        decreases stop - polls
      {
        satisfied := R.Meets(policy, inputs, before, previous, snapshot);
        assert satisfied == R.Settled(env, policy, inputs, before, started, polls);
        if satisfied || polls == env.surface.patience(started) {
          assert polls == stop;
          return;
        }
        previous := Some(snapshot);
        polls := polls + 1;
        snapshot := Observe();
      }
    }

    method Fail(st: State, code: FailureCode) returns (r: R.RunResult)
      modifies Footprint()
      ensures Did(R.Fail(env, old(View(st)), code), View(st), old(journal), journal, Some(r))
    {
      var escalates := st.parent == null && code in st.capability.escalation.triggers
                       && st.capability.escalation.pauseAndRequestHuman;
      if !escalates {
        return R.ResultOf(st.Value(), R.Failed(code));
      }
      if broker != null {
        var reply := broker.EscalateSession(env.surface.newId(tick), "", "", None);
        if reply.Err? {
          return R.ResultOf(st.Value(), R.Raised);
        }
      }
      journal := journal + [R.Escalated];
      return R.ResultOf(st.Value(), R.NeedsHuman(code));
    }

    method EndWithOutcome(st: State, index: nat, seenAt: nat) returns (r: R.RunResult)
      modifies this`journal
      ensures Did(R.EndWithOutcome(old(View(st)), index, seenAt), View(st), old(journal), journal, Some(r))
    {
      journal := journal + [R.OutcomeSeen(st.parent != null, st.capability, st.inputs, index, seenAt)];
      return R.ResultOf(st.Value(), R.BusinessOutcome(index));
    }

    method VerifyCheckpoint(st: State) returns (r: R.RunResult)
      modifies Footprint()
      ensures Did(R.VerifyCheckpoint(env, old(View(st))), View(st), old(journal), journal, Some(r))
    {
      hide R.Fail, R.EndWithOutcome, R.Classify;
      var seenAt := tick;
      var snapshot := Observe();
      match R.Classify(snapshot, st.capability, st.inputs, Some(st.capability.checkpoint)) {
        case IsOutcome(k) =>
          r := EndWithOutcome(st, k, seenAt);
        case IsExpected =>
          journal := journal + [R.CheckpointMet(st.parent != null, st.capability, st.inputs, seenAt)];
          r := R.ResultOf(st.Value(), R.Success);
        case _ =>
          r := Fail(st, CheckpointFailed);
      }
    }

    // -------------------------------------------------------------- one step

    method DispatchStep(st: State, index: nat, seenAt: nat, snapshot: UiSnapshot) returns (r: Option<R.RunResult>)
      requires index < |st.capability.steps| && snapshot == env.surface.observe(seenAt)
      modifies Footprint(), st
      ensures Did(R.DispatchStep(env, old(View(st)), index, seenAt), View(st), old(journal), journal, r)
    {
      hide Control, R.Carries, R.Fail, R.Conclude, R.Counted, R.Polls, R.Completed;
      var bound := BindAction(st.capability.steps[index].action, st.inputs, st.outputs, env.cfg.secrets);
      match bound {
        case Err(SecretNotFound) =>
          return Some(R.ResultOf(st.Value(), R.Raised));
        case Err(Unbound) =>
          var failed := Fail(st, InputValidationFailed);
          return Some(failed);
        case Ok(action) =>
          if action.Assert? {
            if !action.that(snapshot, st.inputs) {
              var failed := Fail(st, PreconditionFailed);
              return Some(failed);
            }
            Complete(st, index, seenAt, index + 1, None, None);
            return None;
          }
          if action.WaitFor? {
            var satisfied, seen := WaitFor(WaitPolicy(PredicateHolds, Some(action.until)), st.inputs, None);
            if !satisfied {
              var failed := Fail(st, Timeout);
              return Some(failed);
            }
            Complete(st, index, seenAt, index + 1, None, Some(tick - 1));
            return None;
          }
          r := DispatchBound(st, index, seenAt, snapshot, action);
      }
    }

    method DispatchBound(st: State, index: nat, seenAt: nat, snapshot: UiSnapshot, action: Action)
      returns (r: Option<R.RunResult>)
      requires index < |st.capability.steps| && snapshot == env.surface.observe(seenAt)
      modifies Footprint(), st
      ensures var at := old(tick);
              var outcome := env.surface.execute(at, action);
              Did(R.After([R.Dispatched(st.parent != null, R.OfStep(index), action, at)],
                          R.Conclude(env, R.Counted(old(View(st)), index, outcome), index, seenAt,
                                     R.Acted(action, at), outcome)),
                  View(st), old(journal), journal, r)
    {
      hide Control, R.Carries, R.Conclude;
      ghost var m := View(st);
      var at := tick;
      var outcome := Dispatch(st, R.OfStep(index), action);
      st.stepsExecuted := index + 1;
      if outcome.node.Some? {
        st.resolutions := st.resolutions + 1;
        if outcome.drifted {
          st.drifted := st.drifted + 1;
        }
      }
      assert View(st) == R.Counted(m, index, outcome);
      r := Conclude(st, index, seenAt, snapshot, R.Acted(action, at), outcome);
    }

    method Complete(st: State, index: nat, seenAt: nat, executed: nat, acted: Option<R.Acted>, settledAt: Option<nat>)
      modifies this`journal, st`stepsExecuted
      ensures var m := old(View(st));
              Did(R.Completed(m.(st := m.st.(stepsExecuted := executed)), index, seenAt, acted, settledAt),
                  View(st), old(journal), journal, None)
    {
      st.stepsExecuted := executed;
      journal := journal
                 + [R.StepDone(st.parent != null, st.capability, st.inputs, index, seenAt, acted, settledAt)];
    }

    method Conclude(st: State, index: nat, seenAt: nat, snapshot: UiSnapshot, acted: R.Acted,
                    outcome: R.DispatchOutcome)
      returns (r: Option<R.RunResult>)
      requires index < |st.capability.steps| && snapshot == env.surface.observe(seenAt)
      modifies Footprint(), st
      ensures Did(R.Conclude(env, old(View(st)), index, seenAt, acted, outcome), View(st), old(journal), journal, r)
      ensures var text := if acted.action.Extract? && outcome.node.Some?
                          then Story.TextOn(env, outcome.node.value, acted.action.transform) else None;
              st.outputs == if text.Some? then old(st.outputs)[acted.action.into := text.value] else old(st.outputs)
    {
      hide Control, R.Carries, R.Fail, R.Settle, R.Extracted, Story.TextOn;
      var action := acted.action;
      if action.Extract? && outcome.node.Some? {
        Reads.TextIsRead(env, action, outcome.node.value);
        var text := R.Extracted(env, action, outcome.node.value);
        if text.None? {
          var failed := Fail(st, ActionFailed);
          return Some(failed);
        }
        st.outputs := st.outputs[action.into := text.value];
      } else if outcome.status != R.DispatchOk {
        var failed := Fail(st, outcome.failureCode.GetOr(ActionFailed));
        return Some(failed);
      }
      SettlingReadsNothing(env, View(st), index, seenAt, acted);
      r := Settle(st, index, seenAt, snapshot, acted);
    }

    method Settle(st: State, index: nat, seenAt: nat, snapshot: UiSnapshot, acted: R.Acted)
      returns (r: Option<R.RunResult>)
      requires index < |st.capability.steps| && snapshot == env.surface.observe(seenAt)
      modifies Footprint(), st
      ensures Did(R.Settle(env, old(View(st)), index, seenAt, acted), View(st), old(journal), journal, r)
    {
      hide Control, R.Carries, R.Fail, R.Polls, R.Completed;
      var step := st.capability.steps[index];
      var satisfied, settled := WaitFor(step.wait, st.inputs, Some(snapshot));
      if !satisfied {
        var failed := Fail(st, Timeout);
        return Some(failed);
      }
      if step.postcondition.Some? && !step.postcondition.value(settled, st.inputs) {
        var failed := Fail(st, PreconditionFailed);
        return Some(failed);
      }
      Complete(st, index, seenAt, st.stepsExecuted, Some(acted), Some(tick - 1));
      return None;
    }

    // -------------------------------------------------------------- the bounded loop

    method RunStep(st: State, index: nat) returns (r: Option<R.RunResult>)
      requires index < |st.capability.steps|
      modifies Footprint(), st
      ensures Did(R.RunStep(env, old(View(st)).(st := old(st.Value()).(stepIndex := Some(index))), index, 0),
             View(st), old(journal), journal, r)
      decreases R.Left(env, View(st)), 2, 0
    {
      hide Control, Did, R.After, R.Carries, R.RunStep, R.Fail, R.Recover, R.DispatchStep, R.EndWithOutcome, R.LookAt;
      hide RanInFull;
      st.stepIndex := Some(index);
      assert st.Value() == old(st.Value()).(stepIndex := Some(index)) && st.Value().capability == st.capability;
      hide State.Value;
      var attempts := 0;
      ghost var spec := R.RunStep(env, View(st), index, 0);
      ghost var log := [];
      NothingBefore(spec);
      while true
        invariant journal == old(journal) + log
        invariant spec == R.After(log, R.RunStep(env, View(st), index, attempts))
        invariant R.Left(env, View(st)) <= R.Left(env, old(View(st)))
        decreases R.Left(env, View(st))
      {
        ghost var m, between := View(st), journal;
        ghost var rest := R.RunStep(env, m, index, attempts);
        OneLook(env, m, index, attempts);
        tick := tick + 1;
        if env.surface.overrun(tick - 1) {
          assert View(st) == m.(tick := m.tick + 1);
          var failed := Fail(st, Timeout);
          Closes(spec, log, rest, View(st), old(journal), between, journal, Some(failed));
          return Some(failed);
        }
        var seenAt := tick;
        var snapshot := Observe();
        assert View(st) == m.(tick := m.tick + 2);
        match R.LookAt(env, View(st), index, seenAt) {
          case IsOutcome(k) =>
            var ended := EndWithOutcome(st, k, seenAt);
            r := Some(ended);
          case IsUnexpected =>
            var failed := Fail(st, UnexpectedState);
            r := Some(failed);
          case IsExpected =>
            r := DispatchStep(st, index, seenAt, snapshot);
            Closes(spec, log, rest, View(st), old(journal), between, journal, r);
            return;
          case IsRecoverable(k) =>
            attempts := attempts + 1;
            ghost var recovered := R.Recover(env, View(st), k, attempts, seenAt);
            r := Recover(st, k, attempts, seenAt);
            Landed(recovered, View(st), between, journal, r);
            if r.None? {
              Continues(spec, log, recovered, View(st), old(journal), between, journal,
                        R.RunStep(env, View(st), index, attempts));
              log := log + recovered.log;
            }
        }
        if r.Some? {
          Closes(spec, log, rest, View(st), old(journal), between, journal, r);
          return;
        }
      }
    }

    method Recover(st: State, k: nat, attempt: nat, seenAt: nat) returns (r: Option<R.RunResult>)
      requires k < |st.capability.recovery|
      modifies Footprint(), st
      ensures Did(R.Recover(env, old(View(st)), k, attempt, seenAt), View(st), old(journal), journal, r)
      ensures r.None? ==>
                var rule := st.capability.recovery[k];
                RanInFull(env, old(st.Value()), rule, R.RuleApplied(st.parent != null, rule, attempt, seenAt),
                          old(journal), journal)
      decreases R.Left(env, View(st)), 1, 1
    {
      hide Control, R.Fail, R.Remedies, R.Carries;
      var rule := st.capability.recovery[k];
      st.recoveryAttempts := st.recoveryAttempts + 1;
      if st.recoveryAttempts > env.cfg.maxRecoveryTotal || attempt > rule.maxAttempts {
        var failed := Fail(st, RecoveryExhausted);
        return Some(failed);
      }
      ghost var m, applied := View(st), R.RuleApplied(st.parent != null, rule, attempt, seenAt);
      journal := journal + [R.RuleApplied(st.parent != null, rule, attempt, seenAt)];
      r := ApplyRemedies(st, rule.remedy);
      if r.None? {
        InFull(env, m, rule, applied, old(journal), journal);
        TheCountIsNoMatter(env, old(st.Value()), m.st, rule, applied, old(journal), journal);
      }
    }

    method ApplyRemedies(st: State, remedies: seq<Remedy>) returns (r: Option<R.RunResult>)
      modifies Footprint(), st
      ensures Did(R.Remedies(env, old(View(st)), remedies), View(st), old(journal), journal, r)
      decreases R.Left(env, View(st)), 5, 1
    {
      hide Control, R.After, R.Carries, R.Remedies, R.OneRemedy;
      ghost var spec := R.Remedies(env, View(st), remedies);
      ghost var log := [];
      var i := 0;
      NothingBefore(spec);
      assert remedies[0..] == remedies;
      while i < |remedies|
        invariant 0 <= i <= |remedies| && journal == old(journal) + log
        invariant spec == R.After(log, R.Remedies(env, View(st), remedies[i..]))
        invariant R.Left(env, View(st)) <= R.Left(env, old(View(st)))
      {
        ghost var m, between := View(st), journal;
        ghost var first := R.OneRemedy(env, m, remedies[i]);
        OneRemedyMore(env, m, remedies, i);
        match remedies[i] {
          case RunCapability(id, inputs) =>
            r := RunRemedy(st, id, inputs);
          case Act(action) =>
            r := ActRemedy(st, action);
        }
        if r.Some? {
          Closes(spec, log, first, View(st), old(journal), between, journal, r);
          return;
        }
        i := i + 1;
        AfterAfter(old(journal), log, first.log, R.Remedies(env, View(st), remedies[i..]));
        log := log + first.log;
      }
      assert remedies[|remedies|..] == [];
      NoRemedyLeft(env, View(st), log);
      return None;
    }

    method ActRemedy(st: State, action: Action) returns (r: Option<R.RunResult>)
      modifies Footprint()
      ensures Did(R.ActRemedy(env, old(View(st)), action), View(st), old(journal), journal, r)
    {
      hide R.Fail;
      var snapshot := Observe();
      var outcome := Dispatch(st, R.OfRemedy, action);
      if outcome.status != R.DispatchOk {
        var failed := Fail(st, outcome.failureCode.GetOr(ActionFailed));
        return Some(failed);
      }
      return None;
    }

    method RunRemedy(st: State, id: string, inputs: map<string, ValueExpr>) returns (r: Option<R.RunResult>)
      modifies Footprint(), st
      ensures Did(R.RunRemedy(env, old(View(st)), id, inputs), View(st), old(journal), journal, r)
      decreases R.Left(env, View(st)), 4, 1
    {
      hide Control, R.Fail, R.ReportBack, R.RunThrough, R.RemedyFor, R.Carries;
      match R.RemedyFor(env, st.Value(), id, inputs) {
        case Err(code) =>
          var failed := Fail(st, code);
          r := Some(failed);
        case Ok((capability, bound)) =>
          ghost var m := View(st);
          journal := journal + [R.RemedyStarted(capability)];
          var remedial := new State(capability, st, bound, map[], st.recoveryAttempts);
          assert View(remedial) == R.Remedial(m, capability, bound);
          var ended := RunThrough(remedial, 0);
          st.recoveryAttempts := remedial.recoveryAttempts;
          assert View(st) == R.HandedBack(m, View(remedial));
          r := ReportBack(st, ended.ending);
      }
    }

    method ReportBack(st: State, ending: R.Ending) returns (r: Option<R.RunResult>)
      modifies Footprint()
      ensures Did(R.ReportBack(env, old(View(st)), ending), View(st), old(journal), journal, r)
    {
      hide Control, R.Fail, R.Carries;
      match ending {
        case Success =>
          return None;
        case BusinessOutcome(_) =>
          var failed := Fail(st, RecoveryExhausted);
          return Some(failed);
        case NeedsHuman(code) =>
          var failed := Fail(st, code);
          return Some(failed);
        case Failed(code) =>
          var failed := Fail(st, code);
          return Some(failed);
        case Raised =>
          return Some(R.ResultOf(st.Value(), R.Raised));
      }
    }

    method RunThrough(st: State, start: nat) returns (r: R.RunResult)
      modifies Footprint(), st
      ensures Did(R.RunThrough(env, old(View(st)), start), View(st), old(journal), journal, Some(r))
      decreases R.Left(env, View(st)), 3, 0
    {
      hide Control, R.After, R.Carries, R.RunSteps, R.RunStep, R.VerifyCheckpoint;
      ghost var spec := R.RunSteps(env, View(st), start);
      ghost var log := [];
      var index := start;
      NothingBefore(spec);
      while index < |st.capability.steps|
        invariant start <= index && journal == old(journal) + log
        invariant spec == R.After(log, R.RunSteps(env, View(st), index))
        invariant R.Left(env, View(st)) <= R.Left(env, old(View(st)))
      {
        ghost var m, between := View(st), journal;
        OneStepMore(env, m, index);
        ghost var first := R.RunStep(env, m.(st := m.st.(stepIndex := Some(index))), index, 0);
        var ended := RunStep(st, index);
        if ended.Some? {
          Closes(spec, log, first, View(st), old(journal), between, journal, ended);
          Stopped(env, old(View(st)), start);
          return ended.value;
        }
        index := index + 1;
        AfterAfter(old(journal), log, first.log, R.RunSteps(env, View(st), index));
        log := log + first.log;
      }
      NoStepLeft(env, old(View(st)), start, View(st), index, log);
      ghost var between := journal;
      ghost var check := R.VerifyCheckpoint(env, View(st));
      r := VerifyCheckpoint(st);
      Closes(R.After(log, check), log, check, View(st), old(journal), between, journal, Some(r));
    }

    // -------------------------------------------------------------- whole runs

    predicate LeaseAvailable()
      reads Footprint()
    {
      broker == null || (broker.lease.holder == L.Automation
                         && !L.Expired(broker.lease.Value(), env.surface.now(tick)))
    }

    /** `_execute`. The run's own state is new, so only the clock, the session and the
        journal outlive it. */
    method Execute(capability: Capability, supplied: Bindings, start: nat, priorOutputs: Bindings, priorAttempts: int)
      returns (r: R.RunResult)
      modifies Footprint()
      ensures Leaves(R.Execute(env, capability, supplied, old(tick), old(Control()), start, priorOutputs,
             priorAttempts),
                   tick, Control(), old(journal), journal, r)
    {
      hide R.Carries, R.Fail, R.Enter;
      var st := new State(capability, null, map[], priorOutputs, priorAttempts);
      var available := LeaseAvailable();
      assert available == R.LeaseAvailable(env, View(st));
      hide Control, R.LeaseAvailable;
      if !available {
        r := Fail(st, LeaseLost);
        return;
      }
      if |capability.steps| > R.StepBudget(env, capability) {
        r := Fail(st, PolicyDenied);
        return;
      }
      var bound := env.cfg.validate(capability, supplied);
      if bound.None? {
        r := Fail(st, InputValidationFailed);
        return;
      }
      st.inputs := bound.value;
      if env.cfg.gateRefuses(capability) {
        r := Fail(st, PolicyDenied);
        return;
      }
      r := Enter(st, start);
    }

    method Enter(st: State, start: nat) returns (r: R.RunResult)
      modifies Footprint(), st
      ensures Did(R.Enter(env, old(View(st)), start), View(st), old(journal), journal, Some(r))
    {
      hide Control, R.Carries, R.Fail, R.RunThrough;
      if start == 0 && R.IsHttp(st.capability.entrypoint) {
        var snapshot := Observe();
        var outcome := Dispatch(st, R.Entry, Capabilities.Navigate(st.capability.entrypoint));
        if outcome.status != R.DispatchOk {
          r := Fail(st, outcome.failureCode.GetOr(SurfaceUnavailable));
          return;
        }
      }
      r := RunThrough(st, start);
    }

    method Resume(capability: Capability, supplied: Bindings, from: nat, priorOutputs: Bindings, priorAttempts: int)
      returns (r: R.RunResult)
      modifies Footprint()
      ensures Leaves(R.Resume(env, capability, supplied, old(tick), old(Control()), from, priorOutputs, priorAttempts),
                   tick, Control(), old(journal), journal, r)
    {
      hide R.Fail, R.Execute;
      var st := new State(capability, null, map[], map[], 0);
      var bound := env.cfg.validate(capability, supplied);
      if bound.None? {
        r := Fail(st, InputValidationFailed);
        return;
      }
      var snapshot := Observe();
      var plan := Reanchor.Reconcile(capability, snapshot, bound.value, from);
      if plan.resumeIndex.None? {
        r := Fail(st, UnexpectedState);
        return;
      }
      r := Execute(capability, supplied, plan.resumeIndex.value, priorOutputs, priorAttempts);
    }
  }
}
