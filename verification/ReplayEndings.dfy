/** What a replay counts, and why it ended as it did: every ending that is neither
    success nor an answer has a cause that can be read off the log, the surface's
    answers and the capability. */
module ReplayEndings {
  import opened Outcomes
  import opened Snapshots
  import opened Capabilities
  import opened Replay
  import opened ReplayLaws
  import opened ReplayStory
  import L = Leases
  import B = Broker

  // ---------------------------------------------------------------- what is counted

  /** What a run counts as it goes: steps executed, controls resolved and how many of
      them not by their first strategy, recovery attempts spent, and how many rules in
      a row have been applied since it last did anything else. */
  datatype Tally = Tally(executed: nat, resolved: nat, drifted: nat, spent: int, streak: nat)

  function AfterOne(env: Env, isRemedy: bool, t: Tally, e: Event): Tally {
    match e
    case RuleApplied(whose, _, attempt, _) =>
      t.(spent := t.spent + 1, streak := if whose == isRemedy then attempt else t.streak)
    case Dispatched(whose, origin, action, at) =>
      if whose != isRemedy || !origin.OfStep? then t
      else
        var outcome := env.surface.execute(at, action);
        t.(executed := origin.index + 1, streak := 0,
           resolved := t.resolved + if outcome.node.Some? then 1 else 0,
           drifted := t.drifted + if outcome.node.Some? && outcome.drifted then 1 else 0)
    case StepDone(whose, _, _, index, _, _, _) =>
      if whose == isRemedy then t.(executed := index + 1, streak := 0) else t
    case RemedyStarted(_) => if isRemedy then t.(streak := 0) else t
    case _ => t
  }

  function TallyAlong(env: Env, isRemedy: bool, t: Tally, log: seq<Event>): Tally
    decreases |log|
  {
    if log == [] then t else TallyAlong(env, isRemedy, AfterOne(env, isRemedy, t, log[0]), log[1..])
  }

  lemma {:induction false} TalliesInTurn(env: Env, isRemedy: bool, t: Tally, a: seq<Event>, b: seq<Event>)
    ensures TallyAlong(env, isRemedy, t, a + b) == TallyAlong(env, isRemedy, TallyAlong(env, isRemedy, t, a), b)
    decreases |a|
  {
    hide AfterOne;
    if a == [] {
      assert a + b == b;
    } else {
      assert (a + b)[1..] == a[1..] + b;
      TalliesInTurn(env, isRemedy, AfterOne(env, isRemedy, t, a[0]), a[1..], b);
    }
  }

  const Nothing := Tally(0, 0, 0, 0, 0)

  /** How many rules in a row the remedy that started last in this log has applied. */
  function InnerStreak(env: Env, log: seq<Event>): nat {
    TallyAlong(env, true, Nothing, log).streak
  }

  lemma {:induction false} StreaksStartAfresh(env: Env, t: Tally, u: Tally, log: seq<Event>)
    requires (exists e :: e in log && e.RemedyStarted?) || t.streak == u.streak
    ensures TallyAlong(env, true, t, log).streak == TallyAlong(env, true, u, log).streak
    decreases |log|
  {
    if log != [] {
      assert log == [log[0]] + log[1..];
      StreaksStartAfresh(env, AfterOne(env, true, t, log[0]), AfterOne(env, true, u, log[0]), log[1..]);
    }
  }

  // ---------------------------------------------------------------- why it ended

  datatype Cause =
    | NoneNeeded
    | OverTime
    | Unexpected
    | NothingToPut
    | NoSecret
    | AssertionFails
    | NeverHeld(from: nat)
    | ReadsAsNothing(call: Event)
    | Refused(call: Event)
    | NeverSettled(call: Event)
    | NoEffect(call: Event)
    | OutOfAttempts(k: nat)
    | CannotStart(id: string, values: map<string, ValueExpr>)
    | RemedyFailed(inner: RunState, ending: Ending, why: Cause)
    | CheckpointMissed

  /** The log up to the call for a person, if that ends it. */
  function Body(log: seq<Event>): seq<Event> {
    if log != [] && log[|log| - 1].Escalated? then log[..|log| - 1] else log
  }

  /** The last thing done, at the instant before `tick` or, if a wait followed, earlier. */
  ghost predicate Last(log: seq<Event>, call: Event) {
    log != [] && log[|log| - 1] == call && call.Dispatched?
  }

  ghost predicate EndsOnAnswer(st: RunState, log: seq<Event>, j: nat) {
    && log != []
    && var e := log[|log| - 1];
       e.OutcomeSeen? && e.isRemedy == st.isRemedy && e.capability == st.capability && e.inputs == st.inputs
       && e.index == j
  }

  predicate NoAnswer(st: RunState, screen: UiSnapshot) {
    forall j | 0 <= j < |st.capability.outcomes| :: !st.capability.outcomes[j].detect(screen, st.inputs)
  }

  predicate NoRule(st: RunState, screen: UiSnapshot) {
    forall j | 0 <= j < |st.capability.recovery| :: !st.capability.recovery[j].detect(screen, st.inputs)
  }

  /** The capability a remedy names can be run by this run, but for the gate. */
  ghost predicate Eligible(env: Env, st: RunState, id: string, values: map<string, ValueExpr>, found: Capability,
                           bound: Bindings)
  {
    && !st.isRemedy && id != st.capability.id
    && env.cfg.capabilities.Some? && (env.cfg.capabilities.value)(id) == Some(found)
    && env.cfg.hashIsValid(found)
    && |found.steps| <= env.cfg.maxSteps && |found.steps| <= found.maxSteps
    && Supplies(env, found, values, st.inputs, st.outputs, bound)
  }

  /** What makes a run in state `st`, at this instant and after these events, fail with
      `code`. `streak` is how many rules in a row it had applied. */
  ghost predicate Because(env: Env, st: RunState, tick: nat, streak: nat, log: seq<Event>, code: FailureCode,
                          cause: Cause)
    decreases cause
  {
    if cause.RemedyFailed? then
      var inner := cause.inner;
      && !st.isRemedy && inner.isRemedy && RemedyStarted(inner.capability) in log
      && match cause.ending
         case BusinessOutcome(j) => code == RecoveryExhausted && EndsOnAnswer(inner, log, j)
         case Failed(own) => code == own && Because(env, inner, tick, InnerStreak(env, log), log, own, cause.why)
         case _ => false
    else if st.stepIndex.Some? && st.stepIndex.value < |st.capability.steps| && tick > 0 then
      || InTheRun(env, st, tick, streak, log, code, cause)
      || AtAStep(env, st, st.stepIndex.value, tick, log, code, cause)
    else InTheRun(env, st, tick, streak, log, code, cause)
  }

  /** The causes that lie with the run as a whole. */
  ghost predicate InTheRun(env: Env, st: RunState, tick: nat, streak: nat, log: seq<Event>, code: FailureCode,
                           cause: Cause)
  {
    && tick > 0
    && var seen := env.surface.observe(tick - 1);
    match cause
    case OverTime => code == Timeout && env.surface.overrun(tick - 1)
    case CheckpointMissed =>
      code == CheckpointFailed && NoAnswer(st, seen)
      && (NoRule(st, seen) ==> !st.capability.checkpoint(seen, st.inputs))
    case OutOfAttempts(k) =>
      && code == RecoveryExhausted && NoAnswer(st, seen) && k < |st.capability.recovery|
      && IsFirstToMatch(Who(st.capability, st.isRemedy, st.inputs), seen, st.capability.recovery[k], k)
      && (st.recoveryAttempts > env.cfg.maxRecoveryTotal || streak + 1 > st.capability.recovery[k].maxAttempts)
    case CannotStart(id, values) =>
      && (exists e :: e in log && e.RuleApplied? && e.isRemedy == st.isRemedy
                      && RunCapability(id, values) in e.rule.remedy)
      && if exists found, bound :: Eligible(env, st, id, values, found, bound)
         then code == PolicyDenied
              && forall found, bound :: Eligible(env, st, id, values, found, bound) ==> env.cfg.gateRefuses(found)
         else code == RecoveryExhausted
    case _ => false
  }

  /** The causes that lie with the step the run is at. */
  ghost predicate AtAStep(env: Env, st: RunState, index: nat, tick: nat, log: seq<Event>, code: FailureCode,
                          cause: Cause)
    requires index < |st.capability.steps| && tick > 0
  {
    var step := st.capability.steps[index];
    var seen := env.surface.observe(tick - 1);
    match cause
    case Unexpected =>
      && code == UnexpectedState && NoAnswer(st, seen) && NoRule(st, seen)
      && step.precondition.Some? && !step.precondition.value(seen, st.inputs)
    case NothingToPut =>
      && code == InputValidationFailed && (step.action.Type? || step.action.Select?)
      && (match step.action.value
          case Literal(_) => false
          case InputRef(name) => name !in st.inputs
          case OutputRef(name) => name !in st.outputs
          case SecretRef(_) => env.cfg.secrets.None?)
    case AssertionFails =>
      code == PreconditionFailed && step.action.Assert? && !step.action.that(seen, st.inputs)
    case NeverHeld(from) =>
      && code == Timeout && step.action.WaitFor? && tick == from + env.surface.patience(from) + 1
      && forall t | from <= t < tick :: !step.action.until(env.surface.observe(t), st.inputs)
    case ReadsAsNothing(call) =>
      && code == ActionFailed && Last(log, call) && OwnCall(st, index, call) && tick == call.tick + 1
      && call.action.Extract?
      && var node := env.surface.execute(call.tick, call.action).node;
         node.Some? && TextOn(env, node.value, call.action.transform).None?
    case Refused(call) =>
      && Last(log, call) && call.isRemedy == st.isRemedy && tick == call.tick + 1
      && var outcome := env.surface.execute(call.tick, call.action);
         && outcome.status != DispatchOk
         && code == (if outcome.failureCode.Some? then outcome.failureCode.value else ActionFailed)
         && (call.origin.OfRemedy?
             || (call.origin == OfStep(index) && !(call.action.Extract? && outcome.node.Some?)))
    case NeverSettled(call) =>
      && code == Timeout && Last(log, call) && OwnCall(st, index, call) && 0 < call.tick
      && var waited := Replay.WaitFor(env, step.wait, st.inputs, Some(env.surface.observe(call.tick - 1)),
             call.tick + 1);
         !waited.satisfied && tick == waited.seenAt + 1
    case NoEffect(call) =>
      && code == PreconditionFailed && Last(log, call) && OwnCall(st, index, call) && 0 < call.tick
      && var waited := Replay.WaitFor(env, step.wait, st.inputs, Some(env.surface.observe(call.tick - 1)),
             call.tick + 1);
         && waited.satisfied && tick == waited.seenAt + 1
         && step.postcondition.Some? && !step.postcondition.value(seen, st.inputs)
    case _ => false
  }

  predicate OwnCall(st: RunState, index: nat, call: Event) {
    call.Dispatched? && call.isRemedy == st.isRemedy && call.origin == OfStep(index)
  }

  /** The step needs a secret the resolver does not know. */
  ghost predicate SecretMissing(env: Env, st: RunState) {
    && st.stepIndex.Some? && st.stepIndex.value < |st.capability.steps|
    && var action := st.capability.steps[st.stepIndex.value].action;
       && (action.Type? || action.Select?) && action.value.SecretRef?
       && env.cfg.secrets.Some? && (env.cfg.secrets.value)(action.value.secretName).None?
  }

  /** A failure goes to a person exactly when the run's capability lists its code and
      asks for one; it raises when the session is not automation's to hand over. */
  predicate Stops(st: RunState, broker: Option<B.BrokerValue>, code: FailureCode, ending: Ending) {
    if st.isRemedy || code !in st.capability.escalation.triggers || !st.capability.escalation.pauseAndRequestHuman
    then ending == Failed(code)
    else if broker.Some? && broker.value.lease.state != L.Running then ending == Raised
    else ending == NeedsHuman(code)
  }

  ghost predicate WhyEnded(env: Env, st: RunState, broker: Option<B.BrokerValue>, tick: nat, streak: nat,
                           log: seq<Event>, ending: Ending, cause: Cause)
  {
    match ending
    case Success => cause == NoneNeeded
    case BusinessOutcome(j) => cause == NoneNeeded && EndsOnAnswer(st, log, j)
    case _ =>
      if cause.NoSecret? then ending.Raised? && SecretMissing(env, st)
      else if cause.RemedyFailed? && cause.ending.Raised? then
        && ending.Raised? && !st.isRemedy && cause.inner.isRemedy && RemedyStarted(cause.inner.capability) in log
        && cause.why.NoSecret? && SecretMissing(env, cause.inner)
      else exists code :: Because(env, st, tick, streak, log, code, cause) && Stops(st, broker, code, ending)
  }

  /** The attempt a run was refused is counted, though no rule was applied. */
  function Overdrawn(cause: Cause): nat {
    match cause
    case OutOfAttempts(_) => 1
    case RemedyFailed(_, _, why) => Overdrawn(why)
    case _ => 0
  }
}
