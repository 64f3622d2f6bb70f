/** The deterministic replay engine of `replay/executor.py`, `replay/classify.py`
    and `replay/wait.py`, as functions on values: what a run does to its state, the
    events it leaves, and how it ends. The live surface is an oracle consulted at
    successive ticks, so every adaptive surface is covered. */
module Replay {
  import opened Outcomes
  import opened Snapshots
  import opened Capabilities
  import opened Bind
  import Names
  import Reanchor
  import L = Leases
  import B = Broker

  // ---------------------------------------------------------------- the world around a run

  datatype DispatchStatus = DispatchOk | Unresolved | Denied | NeedsConfirmation | DispatchFailed | LeaseWasLost

  datatype DispatchOutcome = DispatchOutcome(
    status: DispatchStatus,
    failureCode: Option<FailureCode>,
    node: Option<UiNode>,
    drifted: bool)

  datatype Surface = Surface(
    observe: nat -> UiSnapshot,
    execute: (nat, Action) -> DispatchOutcome,
    patience: nat -> nat,       // polls a wait may make before its deadline has passed
    overrun: nat -> bool,       // whether the duration budget is found exceeded
    now: nat -> int,
    newId: nat -> string)

  datatype Config = Config(
    maxRecoveryTotal: int,
    maxSteps: int,
    hashIsValid: Capability -> bool,
    gateRefuses: Capability -> bool,
    validate: (Capability, Bindings) -> Option<Bindings>,
    capabilities: Option<string -> Option<Capability>>,
    transform: (string, string) -> Option<string>,
    secrets: Secrets)

  datatype Env = Env(cfg: Config, surface: Surface)

  // ---------------------------------------------------------------- what a run carries and leaves

  datatype RunState = RunState(
    capability: Capability,
    isRemedy: bool,
    inputs: Bindings,
    outputs: Bindings,
    stepsExecuted: nat,
    stepIndex: Option<nat>,
    resolutions: nat,
    drifted: nat,
    recoveryAttempts: int)

  /** Everything one run can change: its state, the clock of the surface, the lease. */
  datatype Machine = Machine(st: RunState, tick: nat, broker: Option<B.BrokerValue>)

  datatype Ending =
    | Success
    | BusinessOutcome(index: nat)
    | NeedsHuman(code: FailureCode)
    | Failed(code: FailureCode)
    | Raised

  /** `drift_score` is the share of `drifted` among `resolutions`. */
  datatype RunResult = RunResult(
    ending: Ending,
    outputs: Bindings,
    stepIndex: Option<nat>,
    recoveryAttempts: int,
    stepsExecuted: nat,
    resolutions: nat,
    drifted: nat)

  datatype Origin = Entry | OfStep(index: nat) | OfRemedy

  /** The action a step put to the surface, bound, and the tick of its dispatch. */
  datatype Acted = Acted(action: Action, at: nat)

  datatype Event =
    | RuleApplied(isRemedy: bool, rule: RecoveryRule, attempt: nat, seenAt: nat)
    | Dispatched(isRemedy: bool, origin: Origin, action: Action, tick: nat)
    | StepDone(isRemedy: bool, capability: Capability, inputs: Bindings, index: nat, seenAt: nat,
               acted: Option<Acted>, settledAt: Option<nat>)
    | CheckpointMet(isRemedy: bool, capability: Capability, inputs: Bindings, seenAt: nat)
    | OutcomeSeen(isRemedy: bool, capability: Capability, inputs: Bindings, index: nat, seenAt: nat)
    | RemedyStarted(capability: Capability)
    | Escalated

  /** The result of a piece of a run: the machine after it, the events it added,
      and how the run ended if it did. */
  datatype Out = Out(m: Machine, log: seq<Event>, result: Option<RunResult>)

  function After(log: seq<Event>, out: Out): Out {
    out.(log := log + out.log)
  }

  // ---------------------------------------------------------------- classify

  datatype Verdict = IsOutcome(index: nat) | IsRecoverable(index: nat) | IsUnexpected | IsExpected

  function FirstOutcome(outcomes: seq<Outcome>, snapshot: UiSnapshot, inputs: Bindings, from: nat): (k: nat)
    requires from <= |outcomes|
    ensures from <= k <= |outcomes|
    ensures forall j :: from <= j < k ==> !outcomes[j].detect(snapshot, inputs)
    ensures k < |outcomes| ==> outcomes[k].detect(snapshot, inputs)
    decreases |outcomes| - from
  {
    if from == |outcomes| || outcomes[from].detect(snapshot, inputs) then from
    else FirstOutcome(outcomes, snapshot, inputs, from + 1)
  }

  function FirstRule(rules: seq<RecoveryRule>, snapshot: UiSnapshot, inputs: Bindings, from: nat): (k: nat)
    requires from <= |rules|
    ensures from <= k <= |rules|
    ensures forall j :: from <= j < k ==> !rules[j].detect(snapshot, inputs)
    ensures k < |rules| ==> rules[k].detect(snapshot, inputs)
    decreases |rules| - from
  {
    if from == |rules| || rules[from].detect(snapshot, inputs) then from
    else FirstRule(rules, snapshot, inputs, from + 1)
  }

  /** A declared outcome is an answer and is looked for first; then a declared
      transient condition; then the expectation at this point, if one is declared. */
  function Classify(snapshot: UiSnapshot, capability: Capability, inputs: Bindings, expectation: Option<Predicate>)
    : (v: Verdict)
    ensures v.IsOutcome? ==>
              && v.index < |capability.outcomes| && capability.outcomes[v.index].detect(snapshot, inputs)
              && forall j :: 0 <= j < v.index ==> !capability.outcomes[j].detect(snapshot, inputs)
    ensures v.IsRecoverable? ==>
              && v.index < |capability.recovery| && capability.recovery[v.index].detect(snapshot, inputs)
              && forall j :: 0 <= j < |capability.outcomes| ==> !capability.outcomes[j].detect(snapshot, inputs)
    ensures v.IsExpected? || v.IsUnexpected? <==> Unexplained(snapshot, capability, inputs)
    ensures v.IsUnexpected? ==> expectation.Some? && !expectation.value(snapshot, inputs)
    ensures v.IsExpected? ==> expectation.None? || expectation.value(snapshot, inputs)
  {
    var k := FirstOutcome(capability.outcomes, snapshot, inputs, 0);
    if k < |capability.outcomes| then IsOutcome(k)
    else
      var r := FirstRule(capability.recovery, snapshot, inputs, 0);
      if r < |capability.recovery| then IsRecoverable(r)
      else if expectation.Some? && !expectation.value(snapshot, inputs) then IsUnexpected
      else IsExpected
  }

  /** Nothing the capability declares explains this screen away. */
  predicate Unexplained(snapshot: UiSnapshot, capability: Capability, inputs: Bindings) {
    && (forall j :: 0 <= j < |capability.outcomes| ==> !capability.outcomes[j].detect(snapshot, inputs))
    && (forall j :: 0 <= j < |capability.recovery| ==> !capability.recovery[j].detect(snapshot, inputs))
  }

  // ---------------------------------------------------------------- waiting

  predicate Same(left: UiSnapshot, right: UiSnapshot) {
    && left.url == right.url
    && |left.nodes| == |right.nodes|
    && forall i :: 0 <= i < |left.nodes| ==>
         && left.nodes[i].nodeId == right.nodes[i].nodeId
         && left.nodes[i].name == right.nodes[i].name
         && left.nodes[i].value == right.nodes[i].value
  }

  /** Whether the policy's condition is met by this observation and the one before. */
  predicate Meets(policy: WaitPolicy, inputs: Bindings, before: Option<UiSnapshot>, previous: Option<UiSnapshot>,
                  snapshot: UiSnapshot)
  {
    if policy.kind == PredicateHolds && policy.until.Some? then policy.until.value(snapshot, inputs)
    else if policy.kind == Navigation then
      before.Some? && (snapshot.url != before.value.url || |snapshot.nodes| != |before.value.nodes|)
    else previous.Some? && Same(previous.value, snapshot)
  }

  /** Whether the wait that started at `tick` may end on its `k`-th observation. */
  predicate Settled(env: Env, policy: WaitPolicy, inputs: Bindings, before: Option<UiSnapshot>, tick: nat, k: nat) {
    Meets(policy, inputs, before, if k == 0 then None else Some(env.surface.observe(tick + k - 1)),
          env.surface.observe(tick + k))
  }

  /** The poll at which a wait stops: the first that settles, or the one at which
      the deadline is found to have passed. */
  function Polls(env: Env, policy: WaitPolicy, inputs: Bindings, before: Option<UiSnapshot>, tick: nat,
                 k: nat): (n: nat)
    requires k <= env.surface.patience(tick)
    ensures k <= n <= env.surface.patience(tick)
    ensures n < env.surface.patience(tick) ==> Settled(env, policy, inputs, before, tick, n)
    ensures forall j :: k <= j < n ==> !Settled(env, policy, inputs, before, tick, j)
    decreases env.surface.patience(tick) - k
  {
    if Settled(env, policy, inputs, before, tick, k) || k == env.surface.patience(tick) then k
    else Polls(env, policy, inputs, before, tick, k + 1)
  }

  datatype WaitOutcome = WaitOutcome(satisfied: bool, seenAt: nat)

  function WaitFor(env: Env, policy: WaitPolicy, inputs: Bindings, before: Option<UiSnapshot>, tick: nat): WaitOutcome {
    var n := Polls(env, policy, inputs, before, tick, 0);
    WaitOutcome(Settled(env, policy, inputs, before, tick, n), tick + n)
  }

  // ---------------------------------------------------------------- endings

  function ResultOf(st: RunState, ending: Ending): RunResult {
    var r := RunResult(ending, map[], None, 0, st.stepsExecuted, st.resolutions, st.drifted);
    match ending
    case Success => r.(outputs := st.outputs, recoveryAttempts := st.recoveryAttempts)
    case BusinessOutcome(_) => r
    case NeedsHuman(_) =>
      r.(outputs := st.outputs, stepIndex := st.stepIndex, recoveryAttempts := st.recoveryAttempts)
    case Failed(_) => r.(recoveryAttempts := st.recoveryAttempts)
    case Raised => RunResult(ending, map[], None, 0, 0, 0, 0)
  }

  predicate Escalates(st: RunState, code: FailureCode) {
    && !st.isRemedy
    && code in st.capability.escalation.triggers
    && st.capability.escalation.pauseAndRequestHuman
  }

  /** Terminate: escalate to a person when the capability says so, else fail. A
      remedy never escalates on its own. */
  function Fail(env: Env, m: Machine, code: FailureCode): (out: Out)
    ensures Carries(m, out) && out.m.st.stepIndex == m.st.stepIndex && out.m.st == m.st && out.result.Some?
  {
    if !Escalates(m.st, code) then Out(m, [], Some(ResultOf(m.st, Failed(code))))
    else if m.broker.None? then Out(m, [Escalated], Some(ResultOf(m.st, NeedsHuman(code))))
    else
      var (b, reply) := B.Escalate(m.broker.value, env.surface.newId(m.tick), "", "", None);
      if reply.Err? then Out(m.(broker := Some(b)), [], Some(ResultOf(m.st, Raised)))
      else Out(m.(broker := Some(b)), [Escalated], Some(ResultOf(m.st, NeedsHuman(code))))
  }

  function EndWithOutcome(m: Machine, index: nat, seenAt: nat): (out: Out)
    ensures Carries(m, out) && out.m.st.stepIndex == m.st.stepIndex && out.result.Some?
  {
    Out(m, [OutcomeSeen(m.st.isRemedy, m.st.capability, m.st.inputs, index, seenAt)],
        Some(ResultOf(m.st, BusinessOutcome(index))))
  }

  function VerifyCheckpoint(env: Env, m: Machine): (out: Out)
    ensures Carries(m, out) && out.m.st.stepIndex == m.st.stepIndex && out.result.Some?
  {
    var seenAt := m.tick;
    var m1 := m.(tick := seenAt + 1);
    match Classify(env.surface.observe(seenAt), m.st.capability, m.st.inputs, Some(m.st.capability.checkpoint))
    case IsOutcome(k) => EndWithOutcome(m1, k, seenAt)
    case IsExpected =>
      Out(m1, [CheckpointMet(m.st.isRemedy, m.st.capability, m.st.inputs, seenAt)], Some(ResultOf(m.st, Success)))
    case _ => Fail(env, m1, CheckpointFailed)
  }

  // ---------------------------------------------------------------- one step

  /** `node.value or node.name or ""` */
  function Readable(node: UiNode): string {
    if node.value.Some? && node.value.value != "" then node.value.value else node.name.GetOr("")
  }

  /** What an `extract` stores, if the node it resolved reads as something. */
  function Extracted(env: Env, action: Action, node: UiNode): Option<string>
    requires action.Extract?
  {
    var text := Readable(node);
    if Names.Blank(text) then None
    else if action.transform.Some? && action.transform.value != "" then env.cfg.transform(action.transform.value, text)
    else Some(text)
  }

  function Completed(m: Machine, index: nat, seenAt: nat, acted: Option<Acted>, settledAt: Option<nat>): (out: Out)
    ensures Carries(m, out) && out.m.st.stepIndex == m.st.stepIndex
  {
    Out(m, [StepDone(m.st.isRemedy, m.st.capability, m.st.inputs, index, seenAt, acted, settledAt)], None)
  }

  function DispatchStep(env: Env, m: Machine, index: nat, seenAt: nat): (out: Out)
    requires index < |m.st.capability.steps|
    ensures Carries(m, out) && out.m.st.stepIndex == m.st.stepIndex
  {
    var step := m.st.capability.steps[index];
    match BindAction(step.action, m.st.inputs, m.st.outputs, env.cfg.secrets)
    case Err(SecretNotFound) => Out(m, [], Some(ResultOf(m.st, Raised)))
    case Err(Unbound) => Fail(env, m, InputValidationFailed)
    case Ok(action) =>
      if action.Assert? then
        if !action.that(env.surface.observe(seenAt), m.st.inputs) then Fail(env, m, PreconditionFailed)
        else Completed(m.(st := m.st.(stepsExecuted := index + 1)), index, seenAt, None, None)
      else if action.WaitFor? then
        var waited := WaitFor(env, WaitPolicy(PredicateHolds, Some(action.until)), m.st.inputs, None, m.tick);
        var m1 := m.(tick := waited.seenAt + 1);
        if !waited.satisfied then Fail(env, m1, Timeout)
        else Completed(m1.(st := m.st.(stepsExecuted := index + 1)), index, seenAt, None, Some(waited.seenAt))
      else
        var outcome := env.surface.execute(m.tick, action);
        After([Dispatched(m.st.isRemedy, OfStep(index), action, m.tick)],
              Conclude(env, Counted(m, index, outcome), index, seenAt, Acted(action, m.tick), outcome))
  }

  function Counted(m: Machine, index: nat, outcome: DispatchOutcome): Machine {
    m.(tick := m.tick + 1,
       st := m.st.(stepsExecuted := index + 1,
                   resolutions := m.st.resolutions + if outcome.node.Some? then 1 else 0,
                   drifted := m.st.drifted + if outcome.node.Some? && outcome.drifted then 1 else 0))
  }

  /** What follows the dispatch: read the output, check the status unless a read
      resolved, wait, and hold the screen to the step's postcondition. */
  function Conclude(env: Env, m: Machine, index: nat, seenAt: nat, acted: Acted, outcome: DispatchOutcome): (out: Out)
    requires index < |m.st.capability.steps|
    ensures Carries(m, out) && out.m.st.stepIndex == m.st.stepIndex
  {
    var action := acted.action;
    if action.Extract? && outcome.node.Some? then
      var text := Extracted(env, action, outcome.node.value);
      if text.None? then Fail(env, m, ActionFailed)
      else Settle(env, m.(st := m.st.(outputs := m.st.outputs[action.into := text.value])), index, seenAt, acted)
    else if outcome.status != DispatchOk then Fail(env, m, outcome.failureCode.GetOr(ActionFailed))
    else Settle(env, m, index, seenAt, acted)
  }

  function Settle(env: Env, m: Machine, index: nat, seenAt: nat, acted: Acted): (out: Out)
    requires index < |m.st.capability.steps|
    ensures Carries(m, out) && out.m.st.stepIndex == m.st.stepIndex
  {
    var step := m.st.capability.steps[index];
    var waited := WaitFor(env, step.wait, m.st.inputs, Some(env.surface.observe(seenAt)), m.tick);
    var m1 := m.(tick := waited.seenAt + 1);
    if !waited.satisfied then Fail(env, m1, Timeout)
    else if step.postcondition.Some? && !step.postcondition.value(env.surface.observe(waited.seenAt), m.st.inputs)
    then Fail(env, m1, PreconditionFailed)
    else Completed(m1, index, seenAt, Some(acted), Some(waited.seenAt))
  }

  // ---------------------------------------------------------------- the bounded loop
  // The only measure is the recovery budget left: a remedy draws on the budget of
  // the run it serves, so neither the clock nor the nesting is needed.

  function Left(env: Env, m: Machine): nat {
    if env.cfg.maxRecoveryTotal > m.st.recoveryAttempts then env.cfg.maxRecoveryTotal - m.st.recoveryAttempts else 0
  }

  /** What the screen seen at `seenAt` means for a step. */
  function LookAt(env: Env, m: Machine, index: nat, seenAt: nat): (v: Verdict)
    requires index < |m.st.capability.steps|
    ensures v.IsRecoverable? ==> v.index < |m.st.capability.recovery|
  {
    Classify(env.surface.observe(seenAt), m.st.capability, m.st.inputs, m.st.capability.steps[index].precondition)
  }

  /** `_run_step`: look, classify, then recover and look again, dispatch, or end. */
  function RunStep(env: Env, m: Machine, index: nat, attempts: nat): (out: Out)
    requires index < |m.st.capability.steps|
    ensures Carries(m, out) && out.m.st.stepIndex == m.st.stepIndex
    decreases Left(env, m), 2, 0
  {
    if env.surface.overrun(m.tick) then Fail(env, m.(tick := m.tick + 1), Timeout)
    else
      var seenAt := m.tick + 1;
      var m1 := m.(tick := seenAt + 1);
      match LookAt(env, m1, index, seenAt)
      case IsOutcome(k) => EndWithOutcome(m1, k, seenAt)
      case IsUnexpected => Fail(env, m1, UnexpectedState)
      case IsExpected => DispatchStep(env, m1, index, seenAt)
      case IsRecoverable(k) =>
        var recovered := Recover(env, m1, k, attempts + 1, seenAt);
        if recovered.result.Some? then recovered
        else
          After(recovered.log, RunStep(env, recovered.m, index, attempts + 1))
  }

  function Recover(env: Env, m: Machine, k: nat, attempt: nat, seenAt: nat): (out: Out)
    requires k < |m.st.capability.recovery|
    ensures Carries(m, out) && out.m.st.stepIndex == m.st.stepIndex
    ensures out.result.None? ==> m.st.recoveryAttempts < out.m.st.recoveryAttempts && Left(env, m) > 0
    decreases Left(env, m), 1, 0
  {
    var rule := m.st.capability.recovery[k];
    var m1 := m.(st := m.st.(recoveryAttempts := m.st.recoveryAttempts + 1));
    if m1.st.recoveryAttempts > env.cfg.maxRecoveryTotal then Fail(env, m1, RecoveryExhausted)
    else if attempt > rule.maxAttempts then Fail(env, m1, RecoveryExhausted)
    else After([RuleApplied(m.st.isRemedy, rule, attempt, seenAt)], Remedies(env, m1, rule.remedy))
  }

  function Remedies(env: Env, m: Machine, remedies: seq<Remedy>): (out: Out)
    ensures Carries(m, out) && out.m.st.stepIndex == m.st.stepIndex
    decreases Left(env, m), 5, |remedies| + 1
  {
    if remedies == [] then Out(m, [], None)
    else
      var first := OneRemedy(env, m, remedies[0]);
      if first.result.Some? then first
      else After(first.log, Remedies(env, first.m, remedies[1..]))
  }

  function OneRemedy(env: Env, m: Machine, remedy: Remedy): (out: Out)
    ensures Carries(m, out) && out.m.st.stepIndex == m.st.stepIndex
    decreases Left(env, m), 5, 0
  {
    match remedy
    case RunCapability(id, inputs) => RunRemedy(env, m, id, inputs)
    case Act(action) => ActRemedy(env, m, action)
  }

  function ActRemedy(env: Env, m: Machine, action: Action): (out: Out)
    ensures Carries(m, out) && out.m.st.stepIndex == m.st.stepIndex
  {
    // one observation for the dispatcher, then the dispatch itself
    var outcome := env.surface.execute(m.tick + 1, action);
    var m1 := m.(tick := m.tick + 2);
    After([Dispatched(m.st.isRemedy, OfRemedy, action, m.tick + 1)],
          if outcome.status == DispatchOk then Out(m1, [], None)
          else Fail(env, m1, outcome.failureCode.GetOr(ActionFailed)))
  }

  function StepBudget(env: Env, capability: Capability): int {
    if env.cfg.maxSteps < capability.maxSteps then env.cfg.maxSteps else capability.maxSteps
  }

  function BindAll(values: map<string, ValueExpr>, inputs: Bindings, outputs: Bindings): Option<Bindings> {
    if forall name | name in values :: ResolveValue(values[name], inputs, outputs, None).Ok?
    then Some(map name | name in values :: ResolveValue(values[name], inputs, outputs, None).value)
    else None
  }

  /** The capability a remedy names, if this run may run it. */
  function RemedyFor(env: Env, st: RunState, id: string, inputs: map<string, ValueExpr>)
    : Result<(Capability, Bindings), FailureCode>
  {
    if st.isRemedy || id == st.capability.id || env.cfg.capabilities.None? then Err(RecoveryExhausted)
    else
      var found := (env.cfg.capabilities.value)(id);
      if found.None? || !env.cfg.hashIsValid(found.value)
         || |found.value.steps| > StepBudget(env, found.value) then Err(RecoveryExhausted)
      else
        var supplied := BindAll(inputs, st.inputs, st.outputs);
        var bound := if supplied.None? then None else env.cfg.validate(found.value, supplied.value);
        if bound.None? then Err(RecoveryExhausted)
        else if env.cfg.gateRefuses(found.value) then Err(PolicyDenied)
        else Ok((found.value, bound.value))
  }

  /** `_run_capability`: the remedy runs on a state of its own that starts from,
      and hands back, this run's recovery count. */
  function RunRemedy(env: Env, m: Machine, id: string, inputs: map<string, ValueExpr>): (out: Out)
    ensures Carries(m, out) && out.m.st.stepIndex == m.st.stepIndex
    decreases Left(env, m), 4, 0
  {
    match RemedyFor(env, m.st, id, inputs)
    case Err(code) => Fail(env, m, code)
    case Ok((capability, bound)) =>
      var ended := RunThrough(env, Remedial(m, capability, bound), 0);
      After([RemedyStarted(capability)] + ended.log,
            ReportBack(env, HandedBack(m, ended.m), ended.result.value.ending))
  }

  /** The state a remedy runs on: its own capability and inputs, this run's count. */
  function Remedial(m: Machine, capability: Capability, inputs: Bindings): Machine {
    m.(st := RunState(capability, true, inputs, map[], 0, None, 0, 0, m.st.recoveryAttempts))
  }

  function HandedBack(m: Machine, remedial: Machine): Machine {
    remedial.(st := m.st.(recoveryAttempts := remedial.st.recoveryAttempts))
  }

  /** Every step from `start` on, then the checkpoint. */
  function RunThrough(env: Env, m: Machine, start: nat): (out: Out)
    ensures Carries(m, out) && out.result.Some?
    decreases Left(env, m), 3, |m.st.capability.steps| + 1
  {
    var ran := RunSteps(env, m, start);
    if ran.result.Some? then ran else After(ran.log, VerifyCheckpoint(env, ran.m))
  }

  function ReportBack(env: Env, m: Machine, ending: Ending): Out {
    match ending
    case Success => Out(m, [], None)
    case BusinessOutcome(_) => Fail(env, m, RecoveryExhausted)
    case NeedsHuman(code) => Fail(env, m, code)
    case Failed(code) => Fail(env, m, code)
    case Raised => Out(m, [], Some(ResultOf(m.st, Raised)))
  }

  function RunSteps(env: Env, m: Machine, from: nat): (out: Out)
    ensures Carries(m, out)
    decreases Left(env, m), 3, if from < |m.st.capability.steps| then |m.st.capability.steps| - from else 0
  {
    if from >= |m.st.capability.steps| then Out(m, [], None)
    else
      var first := RunStep(env, m.(st := m.st.(stepIndex := Some(from))), from, 0);
      if first.result.Some? then first
      else After(first.log, RunSteps(env, first.m, from + 1))
  }

  /** A run keeps its capability, its role and its inputs, and never gets recovery
      attempts back. */
  ghost predicate Carries(m: Machine, out: Out) {
    && out.m.st.capability == m.st.capability
    && out.m.st.isRemedy == m.st.isRemedy
    && out.m.st.inputs == m.st.inputs
    && out.m.st.recoveryAttempts >= m.st.recoveryAttempts
    && out.m.tick >= m.tick
    && out.m.st.outputs.Keys >= m.st.outputs.Keys
  }

  // ---------------------------------------------------------------- whole runs

  predicate LeaseAvailable(env: Env, m: Machine) {
    m.broker.Some? ==>
      && m.broker.value.lease.holder == L.Automation
      && !L.Expired(m.broker.value.lease, env.surface.now(m.tick))
  }

  predicate IsHttp(url: string) {
    "http://" <= url || "https://" <= url
  }

  function Fresh(capability: Capability, outputs: Bindings, recoveryAttempts: int): RunState {
    RunState(capability, false, map[], outputs, 0, None, 0, 0, recoveryAttempts)
  }

  /** Open the entrypoint unless this is a resume that skipped something, then run. */
  function Enter(env: Env, m: Machine, start: nat): Out {
    var entrypoint := m.st.capability.entrypoint;
    if start == 0 && IsHttp(entrypoint) then
      var outcome := env.surface.execute(m.tick + 1, Capabilities.Navigate(entrypoint));
      var m1 := m.(tick := m.tick + 2);
      After([Dispatched(m.st.isRemedy, Entry, Capabilities.Navigate(entrypoint), m.tick + 1)],
            if outcome.status != DispatchOk then Fail(env, m1, outcome.failureCode.GetOr(SurfaceUnavailable))
            else RunThrough(env, m1, start))
    else RunThrough(env, m, start)
  }

  function Execute(env: Env, capability: Capability, supplied: Bindings, tick: nat, broker: Option<B.BrokerValue>,
                   start: nat, priorOutputs: Bindings, priorAttempts: int): Out
  {
    var m := Machine(Fresh(capability, priorOutputs, priorAttempts), tick, broker);
    if !LeaseAvailable(env, m) then Fail(env, m, LeaseLost)
    else if |capability.steps| > StepBudget(env, capability) then Fail(env, m, PolicyDenied)
    else
      var bound := env.cfg.validate(capability, supplied);
      if bound.None? then Fail(env, m, InputValidationFailed)
      else
        var m1 := m.(st := m.st.(inputs := bound.value));
        if env.cfg.gateRefuses(capability) then Fail(env, m1, PolicyDenied)
        else Enter(env, m1, start)
  }

  function Resume(env: Env, capability: Capability, supplied: Bindings, tick: nat, broker: Option<B.BrokerValue>,
                  from: nat, priorOutputs: Bindings, priorAttempts: int): Out
  {
    var m := Machine(Fresh(capability, map[], 0), tick, broker);
    var bound := env.cfg.validate(capability, supplied);
    if bound.None? then Fail(env, m, InputValidationFailed)
    else
      var plan := Reanchor.Reconciled(capability.steps, env.surface.observe(tick), bound.value, from);
      if plan.resumeIndex.None? then Fail(env, m.(tick := tick + 1), UnexpectedState)
      else Execute(env, capability, supplied, tick + 1, broker, plan.resumeIndex.value, priorOutputs, priorAttempts)
  }
}
