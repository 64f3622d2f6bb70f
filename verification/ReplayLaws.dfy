/** What every replay keeps, on every surface: bounded recovery, evidence for each
    completed step, honest endings, one escalation, bounded dispatching. */
module ReplayLaws {
  import opened Outcomes
  import opened Snapshots
  import opened Capabilities
  import opened Bind
  import opened Replay
  import Reanchor
  import L = Leases
  import I = Interventions
  import B = Broker

  // ---------------------------------------------------------------- what an event stands for

  /** The step's action met the surface and the read or the dispatch succeeded. */
  ghost predicate Accepted(env: Env, action: Action, outcome: DispatchOutcome) {
    if action.Extract? && outcome.node.Some? then Extracted(env, action, outcome.node.value).Some?
    else outcome.status == DispatchOk
  }

  ghost predicate BoundFrom(env: Env, declared: Action, inputs: Bindings, action: Action) {
    exists outputs :: BindAction(declared, inputs, outputs, env.cfg.secrets) == Ok(action)
  }

  /** A completed step: begun within the duration budget, seen on a screen nothing
      declared explains away and that met its precondition, acted once, settled, and
      held to its postcondition. */
  ghost predicate StepEvidence(env: Env, e: Event)
    requires e.StepDone?
  {
    && e.index < |e.capability.steps|
    && var step := e.capability.steps[e.index];
       var seen := env.surface.observe(e.seenAt);
       && e.seenAt > 0 && !env.surface.overrun(e.seenAt - 1)
       && Unexplained(seen, e.capability, e.inputs)
       && (step.precondition.Some? ==> step.precondition.value(seen, e.inputs))
       && if step.action.Assert? then e.acted.None? && step.action.that(seen, e.inputs)
          else if step.action.WaitFor? then
            && e.acted.None? && e.settledAt.Some? && e.seenAt < e.settledAt.value
            && step.action.until(env.surface.observe(e.settledAt.value), e.inputs)
          else
            && e.acted.Some? && e.settledAt.Some?
            && ActedAndSettled(env, step, e.inputs, e.seenAt, e.acted.value, e.settledAt.value)
  }

  /** The step's own action was dispatched after the look and accepted, its wait was
      satisfied by a later screen, and that screen shows the declared effect. */
  ghost predicate ActedAndSettled(env: Env, step: Step, inputs: Bindings, seenAt: nat, acted: Acted, settledAt: nat) {
    && seenAt < acted.at < settledAt
    && BoundFrom(env, step.action, inputs, acted.action)
    && Accepted(env, acted.action, env.surface.execute(acted.at, acted.action))
    && Replay.WaitFor(env, step.wait, inputs, Some(env.surface.observe(seenAt)), acted.at + 1) == WaitOutcome(true,
           settledAt)
    && (step.postcondition.Some? ==> step.postcondition.value(env.surface.observe(settledAt), inputs))
  }

  ghost predicate Sound(env: Env, e: Event) {
    match e
    case RuleApplied(_, rule, attempt, _) => 1 <= attempt <= rule.maxAttempts
    case StepDone(_, _, _, _, _, _, _) => StepEvidence(env, e)
    case CheckpointMet(_, capability, inputs, seenAt) =>
      var seen := env.surface.observe(seenAt);
      Unexplained(seen, capability, inputs) && capability.checkpoint(seen, inputs)
    case OutcomeSeen(_, capability, inputs, index, seenAt) =>
      var seen := env.surface.observe(seenAt);
      && index < |capability.outcomes|
      && capability.outcomes[index].detect(seen, inputs)
      && forall j :: 0 <= j < index ==> !capability.outcomes[j].detect(seen, inputs)
    case _ => true
  }

  predicate OfARemedy(e: Event) {
    !e.RemedyStarted? && !e.Escalated? && e.isRemedy
  }

  /** An event a run may leave: a remedy starts no remedy and escalates nothing;
      the run's own events are about its capability, and dispatch no step before `lo`. */
  ghost predicate Belongs(st: RunState, lo: nat, e: Event) {
    if st.isRemedy then OfARemedy(e)
    else
      OfARemedy(e) ||
      match e
      case Dispatched(_, OfStep(index), _, _) => lo <= index < |st.capability.steps|
      case Dispatched(_, Entry, _, _) => false
      case StepDone(_, capability, inputs, _, _, _, _) => capability == st.capability && inputs == st.inputs
      case CheckpointMet(_, capability, inputs, _) => capability == st.capability && inputs == st.inputs
      case OutcomeSeen(_, capability, inputs, _, _) => capability == st.capability && inputs == st.inputs
      case RuleApplied(_, rule, _, _) => rule in st.capability.recovery
      case _ => true
  }

  ghost predicate Events(env: Env, lo: nat, m: Machine, log: seq<Event>) {
    forall e | e in log :: Sound(env, e) && Belongs(m.st, lo, e)
  }

  // ---------------------------------------------------------------- endings

  /** The run itself, not a remedy, failed in a way its capability names as one for a
      person to look at. */
  predicate MustEscalate(m: Machine, code: FailureCode) {
    && !m.st.isRemedy
    && code in m.st.capability.escalation.triggers && m.st.capability.escalation.pauseAndRequestHuman
  }

  /** How a piece of a run may end: never with success, and with a declared outcome
      only on the event that saw it. */
  ghost predicate EndsHonestly(env: Env, m: Machine, out: Out) {
    match out.result
    case None => out.m.broker == m.broker && Escalated !in out.log
    case Some(r) =>
      match r.ending
      case Success => false
      case BusinessOutcome(k) =>
        && out.m.broker == m.broker && Escalated !in out.log
        && out.log != []
        && var e := out.log[|out.log| - 1];
           e.OutcomeSeen? && e.isRemedy == m.st.isRemedy && e.capability == m.st.capability
           && e.inputs == m.st.inputs && e.index == k
      case Failed(code) =>
        && !MustEscalate(m, code)
        && out.m.broker == m.broker && Escalated !in out.log
        && r.recoveryAttempts == out.m.st.recoveryAttempts
      case NeedsHuman(code) =>
        && MustEscalate(m, code)
        && r.recoveryAttempts == out.m.st.recoveryAttempts && r.stepIndex == out.m.st.stepIndex
        && r.outputs == out.m.st.outputs
        && out.log != [] && out.log[|out.log| - 1] == Escalated && Escalated !in out.log[..|out.log| - 1]
        && (m.broker.None? ==> out.m.broker.None?)
        && (m.broker.Some? ==> Paused(env, m.broker.value, out.m.broker))
      case Raised => Escalated !in out.log && (out.m.broker == m.broker)
  }

  /** The session was paused and exactly one request opened for it. */
  ghost predicate Paused(env: Env, before: B.BrokerValue, after: Option<B.BrokerValue>) {
    && after.Some?
    && exists t: nat ::
         && after.value == B.Escalate(before, env.surface.newId(t), "", "", None).0
         && B.Escalate(before, env.surface.newId(t), "", "", None).1.Ok?
  }

  // ---------------------------------------------------------------- counting

  function Apps(log: seq<Event>): nat {
    if log == [] then 0 else (if log[0].RuleApplied? then 1 else 0) + Apps(log[1..])
  }

  function Calls(log: seq<Event>): nat {
    if log == [] then 0 else (if log[0].Dispatched? then 1 else 0) + Calls(log[1..])
  }

  /** The steps completed, in order, by the run itself or by its remedies. */
  function Done(log: seq<Event>, isRemedy: bool): seq<nat> {
    if log == [] then []
    else (if log[0].StepDone? && log[0].isRemedy == isRemedy then [log[0].index] else []) + Done(log[1..], isRemedy)
  }

  lemma {:induction false} CountsAdd(a: seq<Event>, b: seq<Event>)
    ensures Apps(a + b) == Apps(a) + Apps(b)
    ensures Calls(a + b) == Calls(a) + Calls(b)
    ensures forall who :: Done(a + b, who) == Done(a, who) + Done(b, who)
  {
    if a == [] {
      assert a + b == b;
    } else {
      assert (a + b)[1..] == a[1..] + b;
      CountsAdd(a[1..], b);
    }
  }

  lemma {:induction false} RemediesCompleteNoStepOfTheRun(log: seq<Event>)
    requires forall e | e in log :: OfARemedy(e)
    ensures Done(log, false) == []
  {
    if log != [] {
      assert log[0] in log;
      RemediesCompleteNoStepOfTheRun(log[1..]);
    }
  }

  function Range(a: nat, b: nat): seq<nat>
    decreases b - a
  {
    if a >= b then [] else [a] + Range(a + 1, b)
  }

  /** The rule applications of a piece fit in what it adds to the count and in what
      was left of the budget. */
  ghost predicate WithinBudget(env: Env, m: Machine, out: Out) {
    && Apps(out.log) <= out.m.st.recoveryAttempts - m.st.recoveryAttempts
    && Apps(out.log) <= Left(env, m)
  }

  /** Two machines of the same run, the second later than the first. */
  ghost predicate SameRun(m: Machine, later: Machine) {
    && later.st.capability == m.st.capability && later.st.isRemedy == m.st.isRemedy && later.st.inputs == m.st.inputs
    && later.broker == m.broker
    && m.st.recoveryAttempts <= later.st.recoveryAttempts
  }

  /** The whole story of a piece that dispatches nothing and applies no rule. */
  ghost predicate Quiet(env: Env, m: Machine, out: Out, done: seq<nat>) {
    match out.result
    case None => Silent(env, m, out) && EndsHonestly(env, m, out) && Done(out.log, m.st.isRemedy) == done
    case Some(_) => Silent(env, m, out) && EndsHonestly(env, m, out) && Done(out.log, m.st.isRemedy) == []
  }

  ghost predicate Silent(env: Env, m: Machine, out: Out) {
    && (forall lo: nat :: Events(env, lo, m, out.log))
    && WithinBudget(env, m, out)
    && Apps(out.log) == 0 && Calls(out.log) == 0
  }

  lemma {:induction false} FailEndsHonestly(env: Env, m: Machine, later: Machine, code: FailureCode)
    requires SameRun(m, later)
    ensures EndsHonestly(env, m, Fail(env, later, code))
  {
    var out := Fail(env, later, code);
    if out.log != [] {
      assert out.log[..0] == [];
      if m.broker.Some? {
        assert out.m.broker.value == B.Escalate(m.broker.value, env.surface.newId(later.tick), "", "", None).0;
      }
    }
  }

  lemma {:induction false} FailIsSilent(env: Env, m: Machine, later: Machine, code: FailureCode)
    requires SameRun(m, later)
    ensures Silent(env, m, Fail(env, later, code)) && Done(Fail(env, later, code).log, m.st.isRemedy) == []
  {
    var out := Fail(env, later, code);
    if out.log != [] { assert out.log[1..] == []; }
  }

  lemma {:induction false} FailIsQuiet(env: Env, m: Machine, later: Machine, code: FailureCode, done: seq<nat>)
    requires SameRun(m, later)
    ensures Quiet(env, m, Fail(env, later, code), done)
  {
    FailEndsHonestly(env, m, later, code);
    FailIsSilent(env, m, later, code);
  }

  // ---------------------------------------------------------------- one step's dispatch

  /** The screen a step is about to act on: unexplained by anything declared, and
      as the step expects it. */
  ghost predicate Ready(env: Env, m: Machine, index: nat, seenAt: nat) {
    && index < |m.st.capability.steps| && 0 < seenAt < m.tick && !env.surface.overrun(seenAt - 1)
    && Unexplained(env.surface.observe(seenAt), m.st.capability, m.st.inputs)
    && (m.st.capability.steps[index].precondition.Some? ==>
          m.st.capability.steps[index].precondition.value(env.surface.observe(seenAt), m.st.inputs))
  }

  lemma {:induction false} OneStepDone(env: Env, m: Machine, e: Event, out: Out)
    requires e.StepDone? && StepEvidence(env, e)
    requires e.isRemedy == m.st.isRemedy && e.capability == m.st.capability && e.inputs == m.st.inputs
    requires SameRun(m, out.m) && out.log == [e] && out.result.None?
    ensures Quiet(env, m, out, [e.index])
  {
    assert out.log[1..] == [];
  }

  lemma {:induction false} SettleIsSound(env: Env, m: Machine, later: Machine, index: nat, seenAt: nat, acted: Acted)
    requires Ready(env, m, index, seenAt) && SameRun(m, later)
    requires acted.at + 1 == later.tick && m.tick <= acted.at
    requires var step := m.st.capability.steps[index];
             && BoundFrom(env, step.action, m.st.inputs, acted.action)
             && !step.action.Assert? && !step.action.WaitFor?
             && Accepted(env, acted.action, env.surface.execute(acted.at, acted.action))
    ensures Quiet(env, m, Settle(env, later, index, seenAt, acted), [index])
  {
    hide Quiet;
    var step := m.st.capability.steps[index];
    var waited := Replay.WaitFor(env, step.wait, m.st.inputs, Some(env.surface.observe(seenAt)), later.tick);
    var m1 := later.(tick := waited.seenAt + 1);
    var settled := env.surface.observe(waited.seenAt);
    if !waited.satisfied {
      FailIsQuiet(env, m, m1, Timeout, [index]);
    } else if step.postcondition.Some? && !step.postcondition.value(settled, m.st.inputs) {
      FailIsQuiet(env, m, m1, PreconditionFailed, [index]);
    } else {
      var e := StepDone(m.st.isRemedy, m.st.capability, m.st.inputs, index, seenAt, Some(acted), Some(waited.seenAt));
      assert StepEvidence(env, e);
      OneStepDone(env, m, e, Completed(m1, index, seenAt, Some(acted), Some(waited.seenAt)));
    }
  }

  lemma {:induction false} ConcludeIsSound(env: Env, m: Machine, later: Machine, index: nat, seenAt: nat, acted: Acted)
    requires Ready(env, m, index, seenAt) && SameRun(m, later)
    requires acted.at + 1 == later.tick && m.tick <= acted.at
    requires var step := m.st.capability.steps[index];
             && BoundFrom(env, step.action, m.st.inputs, acted.action)
             && !step.action.Assert? && !step.action.WaitFor?
    ensures Quiet(env, m, Conclude(env, later, index, seenAt, acted, env.surface.execute(acted.at, acted.action)),
           [index])
  {
    hide Quiet;
    var outcome := env.surface.execute(acted.at, acted.action);
    if acted.action.Extract? && outcome.node.Some? {
      var text := Extracted(env, acted.action, outcome.node.value);
      if text.None? {
        FailIsQuiet(env, m, later, ActionFailed, [index]);
      } else {
        SettleIsSound(env, m, later.(st := later.st.(outputs := later.st.outputs[acted.action.into := text.value])),
                      index, seenAt, acted);
      }
    } else if outcome.status != DispatchOk {
      FailIsQuiet(env, m, later, outcome.failureCode.GetOr(ActionFailed), [index]);
    } else {
      SettleIsSound(env, m, later, index, seenAt, acted);
    }
  }

  /** A piece of a run that starts at `m`: its events, its ending, its share of the
      recovery budget, at most `own` dispatches besides `k` for each rule applied,
      and the steps it completed. */
  ghost predicate Piece(env: Env, lo: nat, m: Machine, out: Out, own: nat, k: Option<nat>, done: seq<nat>) {
    match out.result
    case None => Tallied(env, lo, m, out, own, k) && EndsHonestly(env, m, out) && Done(out.log, m.st.isRemedy) == done
    case Some(_) =>
      Tallied(env, lo, m, out, own, k) && EndsHonestly(env, m, out) && Done(out.log, m.st.isRemedy) == done
  }

  ghost predicate Tallied(env: Env, lo: nat, m: Machine, out: Out, own: nat, k: Option<nat>) {
    && Events(env, lo, m, out.log)
    && WithinBudget(env, m, out)
    && (k.Some? ==> Calls(out.log) <= own + Apps(out.log) * k.value)
  }

  lemma {:induction false} QuietIsAPiece(env: Env, lo: nat, m: Machine, out: Out, own: nat, k: Option<nat>,
                                         done: seq<nat>)
    requires Quiet(env, m, out, done)
    ensures Piece(env, lo, m, out, own, k, if out.result.None? then done else [])
  {
  }

  lemma {:induction false} NothingIsAPiece(env: Env, lo: nat, m: Machine, own: nat, k: Option<nat>)
    ensures Piece(env, lo, m, Out(m, [], None), own, k, [])
  {
  }

  lemma {:induction false} RaisingIsAPiece(env: Env, lo: nat, m: Machine, own: nat, k: Option<nat>)
    ensures Piece(env, lo, m, Out(m, [], Some(ResultOf(m.st, Raised))), own, k, [])
  {
  }

  lemma {:induction false} Distribute(a: nat, b: nat, k: nat)
    ensures (a + b) * k == a * k + b * k
  {
  }

  /** Pieces in sequence are a piece. */
  lemma {:induction false} PiecesCompose(env: Env, lo: nat, m: Machine, a: Out, b: Out, ownA: nat, ownB: nat,
                                         k: Option<nat>,
                      doneA: seq<nat>, doneB: seq<nat>)
    requires Piece(env, lo, m, a, ownA, k, doneA) && a.result.None? && Carries(m, a)
    requires Piece(env, lo, a.m, b, ownB, k, doneB) && Carries(a.m, b)
    ensures Piece(env, lo, m, After(a.log, b), ownA + ownB, k, doneA + doneB)
  {
    CountsAdd(a.log, b.log);
    if k.Some? { Distribute(Apps(a.log), Apps(b.log), k.value); }
    var out := After(a.log, b);
    EndingsCompose(env, m, a, b);
    forall e | e in out.log ensures Sound(env, e) && Belongs(m.st, lo, e) {
      assert e in a.log || e in b.log;
    }
  }

  lemma {:induction false} EndingsCompose(env: Env, m: Machine, a: Out, b: Out)
    requires EndsHonestly(env, m, a) && a.result.None? && SameRun(m, a.m)
    requires EndsHonestly(env, a.m, b)
    ensures EndsHonestly(env, m, After(a.log, b))
  {
    var out := After(a.log, b);
    if b.log != [] {
      assert out.log[|out.log| - 1] == b.log[|b.log| - 1];
      assert out.log[..|out.log| - 1] == a.log + b.log[..|b.log| - 1];
    }
  }

  lemma {:induction false} EndsAfterEvent(env: Env, m: Machine, e: Event, later: Machine, b: Out)
    requires SameRun(m, later) && !e.Escalated? && EndsHonestly(env, later, b)
    ensures EndsHonestly(env, m, After([e], b))
  {
    var out := After([e], b);
    if b.log != [] {
      assert out.log[|out.log| - 1] == b.log[|b.log| - 1];
      assert out.log[..|out.log| - 1] == [e] + b.log[..|b.log| - 1];
    }
  }

  /** What one event in front of a piece adds to its own dispatches: a dispatch adds
      one, a rule application pays for the piece if `k` covers it. */
  function WithEvent(e: Event, own: nat, k: Option<nat>): nat {
    if e.Dispatched? then own + 1
    else if e.RuleApplied? && (k.Some? ==> own <= k.value) then 0
    else own
  }

  lemma {:induction false} TalliedAfterEvent(env: Env, lo: nat, m: Machine, e: Event, later: Machine, b: Out,
                                             own: nat, k: Option<nat>)
    requires SameRun(m, later) && Carries(later, b)
    requires Sound(env, e) && Belongs(m.st, lo, e)
    requires e.RuleApplied? ==> m.st.recoveryAttempts < later.st.recoveryAttempts <= env.cfg.maxRecoveryTotal
    requires Tallied(env, lo, later, b, own, k)
    ensures Tallied(env, lo, m, After([e], b), WithEvent(e, own, k), k)
  {
    CountsAdd([e], b.log);
    assert [e][1..] == [];
    if k.Some? { Distribute(1, Apps(b.log), k.value); }
  }

  /** One more event in front of a piece. */
  lemma {:induction false} PieceAfterEvent(env: Env, lo: nat, m: Machine, e: Event, later: Machine, b: Out,
                                           own: nat, k: Option<nat>, done: seq<nat>)
    requires SameRun(m, later) && Carries(later, b)
    requires Sound(env, e) && Belongs(m.st, lo, e) && !e.Escalated? && !e.StepDone?
    requires e.RuleApplied? ==> m.st.recoveryAttempts < later.st.recoveryAttempts <= env.cfg.maxRecoveryTotal
    requires Piece(env, lo, later, b, own, k, done)
    ensures Piece(env, lo, m, After([e], b), WithEvent(e, own, k), k, done)
  {
    hide EndsHonestly, Tallied;
    TalliedAfterEvent(env, lo, m, e, later, b, own, k);
    EndsAfterEvent(env, m, e, later, b);
    CountsAdd([e], b.log);
    assert [e][1..] == [] && Done([e], m.st.isRemedy) == [];
    assert [] + done == done;
  }

  lemma {:induction false} QuietFromLater(env: Env, m: Machine, later: Machine, out: Out, done: seq<nat>)
    requires Quiet(env, m, out, done) && SameRun(m, later) && Carries(later, out)
    ensures Quiet(env, later, out, done)
  {
    forall lo: nat ensures Events(env, lo, later, out.log) {
      assert Events(env, lo, m, out.log);
    }
  }

  lemma {:induction false} AssertIsSound(env: Env, m: Machine, index: nat, seenAt: nat)
    requires Ready(env, m, index, seenAt) && m.st.capability.steps[index].action.Assert?
    ensures Quiet(env, m, DispatchStep(env, m, index, seenAt), [index])
  {
    hide Quiet;
    var out := DispatchStep(env, m, index, seenAt);
    if out.result.Some? {
      FailIsQuiet(env, m, m, PreconditionFailed, [index]);
    } else {
      OneStepDone(env, m, out.log[0], out);
    }
  }

  lemma {:induction false} WaitStepIsSound(env: Env, m: Machine, index: nat, seenAt: nat)
    requires Ready(env, m, index, seenAt) && m.st.capability.steps[index].action.WaitFor?
    ensures Quiet(env, m, DispatchStep(env, m, index, seenAt), [index])
  {
    hide Quiet;
    var until := m.st.capability.steps[index].action.until;
    var waited := Replay.WaitFor(env, WaitPolicy(PredicateHolds, Some(until)), m.st.inputs, None, m.tick);
    var out := DispatchStep(env, m, index, seenAt);
    if !waited.satisfied {
      FailIsQuiet(env, m, m.(tick := waited.seenAt + 1), Timeout, [index]);
    } else {
      OneStepDone(env, m, out.log[0], out);
    }
  }

  lemma {:induction false} DispatchStepIsSound(env: Env, m: Machine, index: nat, seenAt: nat, k: Option<nat>)
    requires Ready(env, m, index, seenAt)
    ensures var out := DispatchStep(env, m, index, seenAt);
            Piece(env, index, m, out, 1, k, StepIfDone(out, index))
  {
    hide Piece, Quiet;
    var step := m.st.capability.steps[index];
    var out := DispatchStep(env, m, index, seenAt);
    match BindAction(step.action, m.st.inputs, m.st.outputs, env.cfg.secrets)
    case Err(SecretNotFound) =>
      RaisingIsAPiece(env, index, m, 1, k);
    case Err(Unbound) =>
      FailingIsAPiece(env, index, m, m, InputValidationFailed, 1, k);
    case Ok(action) =>
      if action.Assert? {
        AssertIsSound(env, m, index, seenAt);
        QuietIsAPiece(env, index, m, out, 1, k, [index]);
      } else if action.WaitFor? {
        WaitStepIsSound(env, m, index, seenAt);
        QuietIsAPiece(env, index, m, out, 1, k, [index]);
      } else {
        PutToTheSurface(env, m, index, seenAt, action, k);
      }
  }

  lemma {:induction false} PutToTheSurface(env: Env, m: Machine, index: nat, seenAt: nat, action: Action,
                                           k: Option<nat>)
    requires Ready(env, m, index, seenAt)
    requires BindAction(m.st.capability.steps[index].action, m.st.inputs, m.st.outputs, env.cfg.secrets) == Ok(action)
    requires !action.Assert? && !action.WaitFor?
    ensures var out := DispatchStep(env, m, index, seenAt);
            Piece(env, index, m, out, 1, k, StepIfDone(out, index))
  {
    hide Piece, Quiet;
    var outcome := env.surface.execute(m.tick, action);
    var later := Counted(m, index, outcome);
    var rest := Conclude(env, later, index, seenAt, Acted(action, m.tick), outcome);
    ConcludeIsSound(env, m, later, index, seenAt, Acted(action, m.tick));
    QuietFromLater(env, m, later, rest, [index]);
    QuietIsAPiece(env, index, later, rest, 0, k, [index]);
    PieceAfterEvent(env, index, m, Dispatched(m.st.isRemedy, OfStep(index), action, m.tick), later, rest, 0, k,
                    StepIfDone(rest, index));
  }

  // ---------------------------------------------------------------- the whole loop

  function Max(a: nat, b: nat): nat {
    if a < b then b else a
  }

  /** What the dispatches of a run are counted against, if they are counted: the
      longest remedy list and the longest remedy capability. */
  datatype Limits = Uncounted | AtMost(remedies: nat, steps: nat)

  /** The capability's rules, and those of every capability a remedy may run, stay
      inside the limits, and so do the steps of those capabilities. */
  ghost predicate Bounded(env: Env, capability: Capability, lim: Limits) {
    lim.AtMost? ==>
      && (forall rule | rule in capability.recovery :: |rule.remedy| <= lim.remedies)
      && (env.cfg.capabilities.Some? ==>
            forall id :: (env.cfg.capabilities.value)(id).Some? ==>
              var c := (env.cfg.capabilities.value)(id).value;
              |c.steps| <= StepBudget(env, c) ==>
                |c.steps| <= lim.steps && forall rule | rule in c.recovery :: |rule.remedy| <= lim.remedies)
  }

  /** Dispatches one remedy may need besides its own recoveries. */
  function PerRemedy(isRemedy: bool, lim: Limits): nat {
    if isRemedy || lim.Uncounted? then 1 else Max(1, lim.steps)
  }

  /** Dispatches one rule application may need besides its remedies' own recoveries. */
  function PerRule(isRemedy: bool, lim: Limits): Option<nat> {
    if lim.Uncounted? then None else Some(lim.remedies * PerRemedy(isRemedy, lim))
  }

  lemma {:induction false} Shorter(a: nat, b: nat, c: nat)
    requires a <= b
    ensures a * c <= b * c
  {
  }

  lemma {:induction false} RunStepLaw(env: Env, lo: nat, m: Machine, index: nat, attempts: nat, lim: Limits)
    requires index < |m.st.capability.steps| && lo <= index && Bounded(env, m.st.capability, lim)
    ensures var out := RunStep(env, m, index, attempts);
            Piece(env, lo, m, out, 1, PerRule(m.st.isRemedy, lim), StepIfDone(out, index))
    decreases Left(env, m), 2, 0
  {
    hide Piece, Bounded, RunStep, Recover, LookAt;
    var k := PerRule(m.st.isRemedy, lim);
    var m1 := m.(tick := m.tick + 2);
    var verdict := LookAt(env, m1, index, m.tick + 1);
    if !env.surface.overrun(m.tick) && verdict.IsRecoverable? {
      var recovered := Recover(env, m1, verdict.index, attempts + 1, m.tick + 1);
      RecoverLaw(env, lo, m1, verdict.index, attempts + 1, m.tick + 1, lim);
      if recovered.result.None? {
        RunStepLaw(env, lo, recovered.m, index, attempts + 1, lim);
      }
      LookAgain(env, lo, m, index, attempts, k);
    } else {
      StraightStep(env, lo, m, index, attempts, k);
    }
  }

  /** A pass through the step that applies no rule. */
  lemma {:induction false} StraightStep(env: Env, lo: nat, m: Machine, index: nat, attempts: nat, k: Option<nat>)
    requires index < |m.st.capability.steps| && lo <= index
    requires env.surface.overrun(m.tick)
             || !LookAt(env, m.(tick := m.tick + 2), index, m.tick + 1).IsRecoverable?
    ensures var out := RunStep(env, m, index, attempts);
            Piece(env, lo, m, out, 1, k, StepIfDone(out, index))
  {
    hide Piece;
    var seenAt := m.tick + 1;
    var m1 := m.(tick := seenAt + 1);
    var out := RunStep(env, m, index, attempts);
    if env.surface.overrun(m.tick) {
      FailingIsAPiece(env, lo, m, m.(tick := m.tick + 1), Timeout, 1, k);
    } else {
      match LookAt(env, m1, index, seenAt)
      case IsOutcome(i) =>
        OutcomeIsSound(env, lo, m, m1, i, seenAt, 1, k);
      case IsUnexpected =>
        FailingIsAPiece(env, lo, m, m1, UnexpectedState, 1, k);
      case IsExpected =>
        DispatchStepIsSound(env, m1, index, seenAt, k);
        Restart(env, index, lo, m, m1, out, 1, k, StepIfDone(out, index));
      case IsRecoverable(_) =>
    }
  }

  function StepIfDone(out: Out, index: nat): seq<nat> {
    if out.result.None? then [index] else []
  }

  /** A pass that applied a rule and, if that cleared it, looked again. */
  lemma {:induction false} LookAgain(env: Env, lo: nat, m: Machine, index: nat, attempts: nat, k: Option<nat>)
    requires index < |m.st.capability.steps|
    requires !env.surface.overrun(m.tick) && LookAt(env, m.(tick := m.tick + 2), index, m.tick + 1).IsRecoverable?
    requires var m1 := m.(tick := m.tick + 2);
             var recovered := Recover(env, m1, LookAt(env, m1, index, m.tick + 1).index, attempts + 1, m.tick + 1);
             && Piece(env, lo, m1, recovered, 0, k, [])
             && (recovered.result.None? ==>
                   var rest := RunStep(env, recovered.m, index, attempts + 1);
                   Piece(env, lo, recovered.m, rest, 1, k, StepIfDone(rest, index)))
    ensures var out := RunStep(env, m, index, attempts);
            Piece(env, lo, m, out, 1, k, StepIfDone(out, index))
  {
    hide Piece, Recover, LookAt;
    var m1 := m.(tick := m.tick + 2);
    var recovered := Recover(env, m1, LookAt(env, m1, index, m.tick + 1).index, attempts + 1, m.tick + 1);
    if recovered.result.Some? {
      Restart(env, lo, lo, m, m1, recovered, 1, k, []);
    } else {
      var rest := RunStep(env, recovered.m, index, attempts + 1);
      PiecesCompose(env, lo, m1, recovered, rest, 0, 1, k, [], StepIfDone(rest, index));
      assert [] + StepIfDone(rest, index) == StepIfDone(rest, index);
      Restart(env, lo, lo, m, m1, After(recovered.log, rest), 1, k, StepIfDone(rest, index));
    }
  }

  lemma {:induction false} FailingIsAPiece(env: Env, lo: nat, m: Machine, later: Machine, code: FailureCode, own: nat,
                                           k: Option<nat>)
    requires SameRun(m, later)
    ensures Piece(env, lo, m, Fail(env, later, code), own, k, [])
  {
    hide Piece, Quiet;
    FailIsQuiet(env, m, later, code, []);
    QuietIsAPiece(env, lo, m, Fail(env, later, code), own, k, []);
  }

  /** Looking costs nothing: a piece from the machine one look later is a piece, and
      a looser bound on its steps and dispatches still bounds it. */
  lemma {:induction false} Restart(env: Env, lo: nat, lower: nat, m: Machine, later: Machine, out: Out, own: nat,
                                   k: Option<nat>, done: seq<nat>)
    requires SameRun(m, later) && later.st == m.st && lower <= lo
    requires Piece(env, lo, later, out, own, k, done) || Piece(env, lo, later, out, 0, k, done)
    ensures Piece(env, lower, m, out, own, k, done)
  {
  }

  lemma {:induction false} OutcomeIsSound(env: Env, lo: nat, m: Machine, later: Machine, i: nat, seenAt: nat,
                                          own: nat, k: Option<nat>)
    requires SameRun(m, later)
    requires i < |m.st.capability.outcomes|
    requires FirstOutcome(m.st.capability.outcomes, env.surface.observe(seenAt), m.st.inputs, 0) == i
    ensures Piece(env, lo, m, EndWithOutcome(later, i, seenAt), own, k, [])
  {
    var out := EndWithOutcome(later, i, seenAt);
    assert out.log[1..] == [];
  }

  lemma {:induction false} RecoverLaw(env: Env, lo: nat, m: Machine, i: nat, attempt: nat, seenAt: nat, lim: Limits)
    requires i < |m.st.capability.recovery| && attempt >= 1 && Bounded(env, m.st.capability, lim)
    ensures Piece(env, lo, m, Recover(env, m, i, attempt, seenAt), 0, PerRule(m.st.isRemedy, lim), [])
    decreases Left(env, m), 1, 0
  {
    var k := PerRule(m.st.isRemedy, lim);
    var rule := m.st.capability.recovery[i];
    hide Piece, PerRule, PerRemedy, Fail, Carries, Bounded, Remedies;
    var m1 := m.(st := m.st.(recoveryAttempts := m.st.recoveryAttempts + 1));
    if m1.st.recoveryAttempts > env.cfg.maxRecoveryTotal || attempt > rule.maxAttempts {
      FailingIsAPiece(env, lo, m, m1, RecoveryExhausted, 0, k);
    } else {
      RemediesLaw(env, lo, m1, rule.remedy, lim);
      TheRulePaysForItsRemedies(env, m, rule, lim);
      AppliedIsAPiece(env, lo, m, m1, i, attempt, seenAt, Remedies(env, m1, rule.remedy),
                      |rule.remedy| * PerRemedy(m.st.isRemedy, lim), k);
    }
  }

  lemma {:induction false} AppliedIsAPiece(env: Env, lo: nat, m: Machine, later: Machine, i: nat, attempt: nat,
                                           seenAt: nat, out: Out, own: nat, k: Option<nat>)
    requires i < |m.st.capability.recovery| && 1 <= attempt <= m.st.capability.recovery[i].maxAttempts
    requires later == m.(st := m.st.(recoveryAttempts := m.st.recoveryAttempts + 1))
    requires m.st.recoveryAttempts < env.cfg.maxRecoveryTotal
    requires Carries(later, out) && Piece(env, lo, later, out, own, k, []) && (k.Some? ==> own <= k.value)
    ensures Piece(env, lo, m, After([RuleApplied(m.st.isRemedy, m.st.capability.recovery[i], attempt, seenAt)], out), 0,
                  k, [])
  {
    var applied := RuleApplied(m.st.isRemedy, m.st.capability.recovery[i], attempt, seenAt);
    assert Sound(env, applied) && Belongs(m.st, lo, applied);
    hide Piece, Sound, Belongs;
    PieceAfterEvent(env, lo, m, applied, later, out, own, k, []);
  }

  lemma TheRulePaysForItsRemedies(env: Env, m: Machine, rule: RecoveryRule, lim: Limits)
    requires rule in m.st.capability.recovery && Bounded(env, m.st.capability, lim)
    ensures var k := PerRule(m.st.isRemedy, lim);
            k.Some? ==> |rule.remedy| * PerRemedy(m.st.isRemedy, lim) <= k.value
  {
    if lim.AtMost? { Shorter(|rule.remedy|, lim.remedies, PerRemedy(m.st.isRemedy, lim)); }
  }

  lemma {:induction false} RemediesLaw(env: Env, lo: nat, m: Machine, remedies: seq<Remedy>, lim: Limits)
    requires Bounded(env, m.st.capability, lim)
    ensures Piece(env, lo, m, Remedies(env, m, remedies), |remedies| * PerRemedy(m.st.isRemedy, lim),
                  PerRule(m.st.isRemedy, lim), [])
    decreases Left(env, m), 5, |remedies| + 1
  {
    hide Piece, Bounded;
    var per := PerRemedy(m.st.isRemedy, lim);
    if remedies == [] {
      NothingIsAPiece(env, lo, m, 0, PerRule(m.st.isRemedy, lim));
    } else {
      var first := OneRemedy(env, m, remedies[0]);
      var rest := Remedies(env, first.m, remedies[1..]);
      OneRemedyLaw(env, lo, m, remedies[0], lim);
      Distribute(1, |remedies| - 1, per);
      if first.result.None? {
        RemediesLaw(env, lo, first.m, remedies[1..], lim);
        PiecesCompose(env, lo, m, first, rest, per, (|remedies| - 1) * per, PerRule(m.st.isRemedy, lim), [], []);
      } else {
        Loosen(env, lo, m, first, per, |remedies| * per, PerRule(m.st.isRemedy, lim), []);
      }
    }
  }

  lemma {:induction false} Loosen(env: Env, lo: nat, m: Machine, out: Out, own: nat, more: nat, k: Option<nat>,
                                  done: seq<nat>)
    requires Piece(env, lo, m, out, own, k, done) && own <= more
    ensures Piece(env, lo, m, out, more, k, done)
  {
  }

  lemma {:induction false} OneRemedyLaw(env: Env, lo: nat, m: Machine, remedy: Remedy, lim: Limits)
    requires Bounded(env, m.st.capability, lim)
    ensures Piece(env, lo, m, OneRemedy(env, m, remedy), PerRemedy(m.st.isRemedy, lim), PerRule(m.st.isRemedy, lim), [])
    decreases Left(env, m), 5, 0
  {
    hide Piece, Bounded;
    match remedy
    case RunCapability(id, inputs) => RunRemedyLaw(env, lo, m, id, inputs, lim);
    case Act(action) => ActRemedyLaw(env, lo, m, action, PerRemedy(m.st.isRemedy, lim), PerRule(m.st.isRemedy, lim));
  }

  lemma {:induction false} ActRemedyLaw(env: Env, lo: nat, m: Machine, action: Action, per: nat, k: Option<nat>)
    requires per >= 1
    ensures Piece(env, lo, m, ActRemedy(env, m, action), per, k, [])
  {
    hide Piece, Fail;
    var outcome := env.surface.execute(m.tick + 1, action);
    var m1 := m.(tick := m.tick + 2);
    var rest := if outcome.status == DispatchOk then Out(m1, [], None)
                else Fail(env, m1, outcome.failureCode.GetOr(ActionFailed));
    if outcome.status == DispatchOk {
      NothingIsAPiece(env, lo, m1, 0, k);
    } else {
      FailingIsAPiece(env, lo, m1, m1, outcome.failureCode.GetOr(ActionFailed), 0, k);
    }
    PieceAfterEvent(env, lo, m, Dispatched(m.st.isRemedy, OfRemedy, action, m.tick + 1), m1, rest, 0, k, []);
    Loosen(env, lo, m, ActRemedy(env, m, action), 1, per, k, []);
  }

  /** Where a walk through the steps stopped: past the last one when nothing ended
      it, else at the step the run is left pointing at. */
  function StoppedAt(m: Machine, from: nat, out: Out): nat {
    if out.result.None? then Max(from, |m.st.capability.steps|)
    else if out.m.st.stepIndex.Some? then out.m.st.stepIndex.value
    else from
  }

  function StepsFrom(m: Machine, from: nat): nat {
    if from < |m.st.capability.steps| then |m.st.capability.steps| - from else 0
  }

  lemma {:induction false} RunStepsLaw(env: Env, m: Machine, from: nat, lim: Limits)
    requires Bounded(env, m.st.capability, lim)
    ensures var out := RunSteps(env, m, from);
            && Piece(env, from, m, out, StepsFrom(m, from), PerRule(m.st.isRemedy, lim), Range(from, StoppedAt(m,
                   from, out)))
            && Stopped(m, from, out)
    decreases Left(env, m), 3, StepsFrom(m, from)
  {
    hide Piece, Bounded, RunStep, RunSteps;
    var k := PerRule(m.st.isRemedy, lim);
    if from < |m.st.capability.steps| {
      var m1 := m.(st := m.st.(stepIndex := Some(from)));
      var first := RunStep(env, m1, from, 0);
      RunStepLaw(env, from, m1, from, 0, lim);
      Repoint(env, from, m, from, first, 1, k, StepIfDone(first, from));
      if first.result.None? {
        RunStepsLaw(env, first.m, from + 1, lim);
      }
      OneStepThenTheRest(env, m, from, first, k);
    } else {
      NoStepsLeft(env, m, from, k);
    }
  }

  lemma {:induction false} NoStepsLeft(env: Env, m: Machine, from: nat, k: Option<nat>)
    requires from >= |m.st.capability.steps|
    ensures var out := RunSteps(env, m, from);
            && Piece(env, from, m, out, 0, k, Range(from, StoppedAt(m, from, out)))
            && Stopped(m, from, out)
  {
    NothingIsAPiece(env, from, m, 0, k);
  }

  lemma {:induction false} OneStepThenTheRest(env: Env, m: Machine, from: nat, first: Out, k: Option<nat>)
    requires from < |m.st.capability.steps|
    requires first == RunStep(env, m.(st := m.st.(stepIndex := Some(from))), from, 0)
    requires Piece(env, from, m, first, 1, k, StepIfDone(first, from))
    requires first.result.None? ==>
               var rest := RunSteps(env, first.m, from + 1);
               && Piece(env, from + 1, first.m, rest, StepsFrom(first.m, from + 1), k,
                        Range(from + 1, StoppedAt(first.m, from + 1, rest)))
               && Stopped(first.m, from + 1, rest)
    ensures var out := RunSteps(env, m, from);
            && Piece(env, from, m, out, StepsFrom(m, from), k, Range(from, StoppedAt(m, from, out)))
            && Stopped(m, from, out)
  {
    hide Piece, RunStep;
    var out := RunSteps(env, m, from);
    if first.result.None? {
      var rest := RunSteps(env, first.m, from + 1);
      var done := Range(from + 1, StoppedAt(first.m, from + 1, rest));
      Restart(env, from + 1, from, first.m, first.m, rest, StepsFrom(m, from + 1), k, done);
      PiecesCompose(env, from, m, first, rest, 1, StepsFrom(m, from + 1), k, [from], done);
    } else {
      Loosen(env, from, m, first, 1, StepsFrom(m, from), k, []);
    }
  }

  ghost predicate Stopped(m: Machine, from: nat, out: Out) {
    && from <= StoppedAt(m, from, out)
    && (out.result.Some? ==>
          && from < |m.st.capability.steps| && StoppedAt(m, from, out) < |m.st.capability.steps|
          && out.m.st.stepIndex == Some(StoppedAt(m, from, out)))
  }

  lemma {:induction false} Repoint(env: Env, lo: nat, m: Machine, index: nat, out: Out, own: nat, k: Option<nat>,
                                   done: seq<nat>)
    requires Piece(env, lo, m.(st := m.st.(stepIndex := Some(index))), out, own, k, done)
    ensures Piece(env, lo, m, out, own, k, done)
  {
  }

  lemma {:induction false} RunRemedyLaw(env: Env, lo: nat, m: Machine, id: string, inputs: map<string, ValueExpr>,
                                        lim: Limits)
    requires Bounded(env, m.st.capability, lim)
    ensures Piece(env, lo, m, RunRemedy(env, m, id, inputs), PerRemedy(m.st.isRemedy, lim),
                  PerRule(m.st.isRemedy, lim), [])
    decreases Left(env, m), 4, 0
  {
    hide Piece, Fail, RunThrough, ReportBack;
    var per := PerRemedy(m.st.isRemedy, lim);
    var k := PerRule(m.st.isRemedy, lim);
    match RemedyFor(env, m.st, id, inputs)
    case Err(code) =>
      FailingIsAPiece(env, lo, m, m, code, per, k);
    case Ok((capability, bound)) =>
      var remedial := Remedial(m, capability, bound);
      RemedyRunLaw(env, remedial, lim);
      BackFromTheRemedy(env, lo, m, capability, RunThrough(env, remedial, 0), lim);
  }

  lemma {:induction false} BackFromTheRemedy(env: Env, lo: nat, m: Machine, capability: Capability, ended: Out,
                                             lim: Limits)
    requires !m.st.isRemedy && ended.result.Some? && !ended.result.value.ending.NeedsHuman?
    requires ended.m.broker == m.broker && ended.m.st.recoveryAttempts >= m.st.recoveryAttempts
             && ended.m.tick >= m.tick
    requires forall e | e in ended.log :: Sound(env, e) && OfARemedy(e)
    requires Apps(ended.log) <= ended.m.st.recoveryAttempts - m.st.recoveryAttempts && Apps(ended.log) <= Left(env, m)
    requires lim.AtMost? ==> Calls(ended.log) <= lim.steps + Apps(ended.log) * lim.remedies
    ensures var back := HandedBack(m, ended.m);
            Piece(env, lo, m, After([RemedyStarted(capability)] + ended.log, ReportBack(env, back,
                   ended.result.value.ending)),
                  PerRemedy(false, lim), PerRule(false, lim), [])
  {
    hide Piece, Quiet, Sound, Belongs;
    var k := PerRule(false, lim);
    var back := HandedBack(m, ended.m);
    var report := ReportBack(env, back, ended.result.value.ending);
    var started := Out(back, [RemedyStarted(capability)] + ended.log, None);
    StartedIsAPiece(env, lo, m, capability, ended, back, lim);
    ReportIsQuiet(env, back, back, ended.result.value.ending);
    QuietIsAPiece(env, lo, back, report, 0, k, []);
    PiecesCompose(env, lo, m, started, report, PerRemedy(false, lim), 0, k, [], []);
  }

  /** A remedy's run, seen from the run it serves: its own events only, no change of
      control, its rules inside the shared budget, at most one dispatch a step. */
  lemma {:induction false} RemedyRunLaw(env: Env, m: Machine, lim: Limits)
    requires m.st.isRemedy && Bounded(env, m.st.capability, lim)
    requires lim.AtMost? ==> |m.st.capability.steps| <= lim.steps
    ensures var out := RunThrough(env, m, 0);
            && (forall e | e in out.log :: Sound(env, e) && OfARemedy(e))
            && WithinBudget(env, m, out)
            && (lim.AtMost? ==> Calls(out.log) <= lim.steps + Apps(out.log) * lim.remedies)
            && out.m.broker == m.broker && out.result.Some? && !out.result.value.ending.NeedsHuman?
            && out.m.st.recoveryAttempts >= m.st.recoveryAttempts
    decreases Left(env, m), 3, |m.st.capability.steps| + 1
  {
    hide VerifyCheckpoint, RunSteps, Sound;
    RunStepsLaw(env, m, 0, lim);
    var ran := RunSteps(env, m, 0);
    if ran.result.None? {
      CheckpointOfARemedy(env, ran.m);
      CountsAdd(ran.log, VerifyCheckpoint(env, ran.m).log);
    }
  }

  lemma {:induction false} CheckpointOfARemedy(env: Env, m: Machine)
    requires m.st.isRemedy
    ensures var out := VerifyCheckpoint(env, m);
            && (forall e | e in out.log :: Sound(env, e) && OfARemedy(e))
            && Apps(out.log) == 0 && Calls(out.log) == 0
            && out.m.broker == m.broker && !out.result.value.ending.NeedsHuman?
  {
    var out := VerifyCheckpoint(env, m);
    if out.log != [] { assert out.log[1..] == []; }
  }

  lemma {:induction false} ReportIsQuiet(env: Env, m: Machine, back: Machine, ending: Ending)
    requires SameRun(m, back) && !ending.NeedsHuman?
    ensures Quiet(env, m, ReportBack(env, back, ending), [])
  {
    match ending
    case BusinessOutcome(_) => FailIsQuiet(env, m, back, RecoveryExhausted, []);
    case Failed(code) => FailIsQuiet(env, m, back, code, []);
    case _ =>
  }

  lemma {:induction false} StartedIsAPiece(env: Env, lo: nat, m: Machine, capability: Capability, ended: Out,
                                           back: Machine, lim: Limits)
    requires !m.st.isRemedy && SameRun(m, back) && back.st.recoveryAttempts == ended.m.st.recoveryAttempts
    requires forall e | e in ended.log :: Sound(env, e) && OfARemedy(e)
    requires Apps(ended.log) <= ended.m.st.recoveryAttempts - m.st.recoveryAttempts && Apps(ended.log) <= Left(env, m)
    requires lim.AtMost? ==> Calls(ended.log) <= lim.steps + Apps(ended.log) * lim.remedies
    ensures Piece(env, lo, m, Out(back, [RemedyStarted(capability)] + ended.log, None), PerRemedy(false, lim),
           PerRule(false, lim), [])
  {
    var log := [RemedyStarted(capability)] + ended.log;
    assert log[1..] == ended.log;
    RemediesCompleteNoStepOfTheRun(ended.log);
    if lim.AtMost? {
      Shorter(1, PerRemedy(false, lim), lim.remedies);
      Shorter(lim.remedies, PerRule(false, lim).value, Apps(ended.log));
    }
  }
}
