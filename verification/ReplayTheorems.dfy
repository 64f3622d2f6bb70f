/** The promises of a whole replay, on every surface and for every capability. */
module ReplayTheorems {
  import opened Outcomes
  import opened Snapshots
  import opened Capabilities
  import opened Replay
  import opened ReplayLaws
  import opened ReplayOrder
  import Reanchor
  import L = Leases
  import I = Interventions
  import B = Broker
  import Laws = BrokerLaws

  /** The arguments of one `run` or of the run inside one `resume`. */
  datatype Call = Call(
    capability: Capability,
    supplied: Bindings,
    tick: nat,
    broker: Option<B.BrokerValue>,
    start: nat,
    priorOutputs: Bindings,
    priorAttempts: int)

  function Run(env: Env, c: Call): Out {
    Execute(env, c.capability, c.supplied, c.tick, c.broker, c.start, c.priorOutputs, c.priorAttempts)
  }

  function Begun(c: Call): Machine {
    Machine(Fresh(c.capability, c.priorOutputs, c.priorAttempts), c.tick, c.broker)
  }

  // ---------------------------------------------------------------- the shape of a run

  /** How a run from `m` ends: with success only past every step and on a met
      checkpoint, else honestly, at the step it names. */
  ghost predicate Ends(env: Env, m: Machine, start: nat, out: Out) {
    && out.result.Some?
    && if out.result.value.ending.Success? then Succeeds(m, start, out)
       else EndsHonestly(env, m, out) && exists j: nat :: StopsAt(m, start, out, j)
  }

  ghost predicate Succeeds(m: Machine, start: nat, out: Out) {
    && out.m.broker == m.broker && Escalated !in out.log
    && Done(out.log, false) == Range(start, Max(start, |m.st.capability.steps|))
    && out.log != []
    && var e := out.log[|out.log| - 1];
       && e.CheckpointMet? && !e.isRemedy && e.capability == m.st.capability && e.inputs == m.st.inputs
       && out.result == Some(ResultOf(out.m.st, Success))
  }

  ghost predicate StopsAt(m: Machine, start: nat, out: Out, j: nat) {
    && j <= Max(start, |m.st.capability.steps|)
    && Done(out.log, false) == Range(start, j)
    && (j < |m.st.capability.steps| ==> out.m.st.stepIndex == Some(j))
  }

  lemma {:induction false} CheckpointFailureIsAPiece(env: Env, lo: nat, m: Machine, k: Option<nat>)
    requires !VerifyCheckpoint(env, m).result.value.ending.Success?
    ensures Piece(env, lo, m, VerifyCheckpoint(env, m), 0, k, [])
  {
    hide Piece;
    var m1 := m.(tick := m.tick + 1);
    var verdict := Classify(env.surface.observe(m.tick), m.st.capability, m.st.inputs,
           Some(m.st.capability.checkpoint));
    if verdict.IsOutcome? {
      OutcomeIsSound(env, lo, m, m1, verdict.index, m.tick, 0, k);
    } else {
      FailingIsAPiece(env, lo, m, m1, CheckpointFailed, 0, k);
    }
  }

  lemma {:induction false} CheckpointMetTallies(env: Env, lo: nat, m: Machine, k: Option<nat>)
    requires VerifyCheckpoint(env, m).result.value.ending.Success?
    ensures var out := VerifyCheckpoint(env, m);
            && Tallied(env, lo, m, out, 0, k)
            && out.log == [CheckpointMet(m.st.isRemedy, m.st.capability, m.st.inputs, m.tick)]
            && Apps(out.log) == 0 && Calls(out.log) == 0 && Done(out.log, false) == []
            && out.m.broker == m.broker && out.result == Some(ResultOf(out.m.st, Success))
  {
    var out := VerifyCheckpoint(env, m);
    FailEndsHonestly(env, m, m.(tick := m.tick + 1), CheckpointFailed);
    var verdict := Classify(env.surface.observe(m.tick), m.st.capability, m.st.inputs,
           Some(m.st.capability.checkpoint));
    match verdict
    case IsExpected =>
      assert out.log == [CheckpointMet(m.st.isRemedy, m.st.capability, m.st.inputs, m.tick)] && out.log[1..] == [];
      assert Sound(env, out.log[0]) && Belongs(m.st, lo, out.log[0]);
    case _ =>
  }

  lemma {:induction false} AllStepsThenTheCheckpoint(env: Env, m: Machine, start: nat, ran: Out, k: Option<nat>)
    requires !m.st.isRemedy && Carries(m, ran) && ran.result.None?
    requires Piece(env, start, m, ran, StepsFrom(m, start), k, Range(start, Max(start, |m.st.capability.steps|)))
    ensures var out := After(ran.log, VerifyCheckpoint(env, ran.m));
            Tallied(env, start, m, out, StepsFrom(m, start), k) && Ends(env, m, start, out)
  {
    var check := VerifyCheckpoint(env, ran.m);
    var done := Range(start, Max(start, |m.st.capability.steps|));
    assert done + [] == done;
    if check.result.value.ending.Success? {
      CheckpointMetTallies(env, start, ran.m, k);
      ThenTheCheckpoint(env, m, start, ran, check, k, done);
    } else {
      hide Piece;
      CheckpointFailureIsAPiece(env, start, ran.m, k);
      PiecesCompose(env, start, m, ran, check, StepsFrom(m, start), 0, k, done, []);
      PieceEnds(env, m, start, After(ran.log, check), k, Max(start, |m.st.capability.steps|));
    }
  }

  lemma {:induction false} ThenTheCheckpoint(env: Env, m: Machine, start: nat, ran: Out, check: Out, k: Option<nat>,
                                             done: seq<nat>)
    requires !m.st.isRemedy && Carries(m, ran) && Carries(ran.m, check) && ran.result.None?
    requires done == Range(start, Max(start, |m.st.capability.steps|))
    requires Piece(env, start, m, ran, StepsFrom(m, start), k, done)
    requires Tallied(env, start, ran.m, check, 0, k)
    requires Apps(check.log) == 0 && Calls(check.log) == 0 && Done(check.log, false) == []
    requires check.log == [CheckpointMet(false, m.st.capability, m.st.inputs, ran.m.tick)]
    requires check.m.broker == ran.m.broker && check.result == Some(ResultOf(check.m.st, Success))
    ensures var out := After(ran.log, check);
            Tallied(env, start, m, out, StepsFrom(m, start), k) && Ends(env, m, start, out)
  {
    var out := After(ran.log, check);
    CountsAdd(ran.log, check.log);
    assert done + [] == done;
    assert out.log[|out.log| - 1] == check.log[0];
    assert Succeeds(m, start, out);
    forall e | e in out.log ensures Sound(env, e) && Belongs(m.st, start, e) {
      assert e in ran.log || e in check.log;
    }
  }

  lemma {:induction false} PieceEnds(env: Env, m: Machine, start: nat, out: Out, k: Option<nat>, j: nat)
    requires !m.st.isRemedy && out.result.Some? && !out.result.value.ending.Success?
    requires Piece(env, start, m, out, StepsFrom(m, start), k, Range(start, j))
    requires j <= Max(start, |m.st.capability.steps|)
    requires j < |m.st.capability.steps| ==> out.m.st.stepIndex == Some(j)
    ensures Tallied(env, start, m, out, StepsFrom(m, start), k) && Ends(env, m, start, out)
  {
    assert StopsAt(m, start, out, j);
  }

  lemma {:induction false} RunThroughEnds(env: Env, m: Machine, start: nat, lim: Limits)
    requires !m.st.isRemedy && Bounded(env, m.st.capability, lim)
    ensures var out := RunThrough(env, m, start);
            Tallied(env, start, m, out, StepsFrom(m, start), PerRule(false, lim)) && Ends(env, m, start, out)
  {
    RunStepsLaw(env, m, start, lim);
    var ran := RunSteps(env, m, start);
    if ran.result.None? {
      hide Piece;
      AllStepsThenTheCheckpoint(env, m, start, ran, PerRule(false, lim));
    } else {
      PieceEnds(env, m, start, ran, PerRule(false, lim), StoppedAt(m, start, ran));
    }
  }

  // What has to hold before a run touches anything, in the order it is asked.

  predicate HoldsTheSession(env: Env, c: Call) {
    c.broker.Some? ==>
      var lease := c.broker.value.lease;
      lease.holder == L.Automation && (lease.expiresAt.Some? ==> env.surface.now(c.tick) < lease.expiresAt.value)
  }

  predicate WithinItsSteps(env: Env, c: Call) {
    |c.capability.steps| <= env.cfg.maxSteps && |c.capability.steps| <= c.capability.maxSteps
  }

  predicate Admitted(env: Env, c: Call) {
    && HoldsTheSession(env, c) && WithinItsSteps(env, c)
    && env.cfg.validate(c.capability, c.supplied).Some? && !env.cfg.gateRefuses(c.capability)
  }

  /** What the first thing amiss is reported as. */
  function Refusal(env: Env, c: Call): FailureCode
    requires !Admitted(env, c)
  {
    if !HoldsTheSession(env, c) then LeaseLost
    else if WithinItsSteps(env, c) && env.cfg.validate(c.capability, c.supplied).None? then InputValidationFailed
    else PolicyDenied
  }

  predicate Opens(c: Call) {
    c.start == 0 && ("http://" <= c.capability.entrypoint || "https://" <= c.capability.entrypoint)
  }

  ghost predicate IsBody(env: Env, c: Call, m: Machine, body: Out, refused: Option<FailureCode>) {
    body == if refused.None? then RunThrough(env, m, c.start) else Fail(env, m, refused.value)
  }

  /** A run is at most the entry navigation, then either a refusal, by what has to hold
      first or by the surface, or the steps and the checkpoint, on the bound inputs. */
  lemma {:induction false} RunShape(env: Env, c: Call)
    returns (entry: seq<Event>, m: Machine, body: Out, refused: Option<FailureCode>)
    ensures Run(env, c) == After(entry, body) && IsBody(env, c, m, body, refused)
    ensures entry == if Admitted(env, c) && Opens(c) then [EntryEvent(c)] else []
    ensures m.st.(inputs := map[]) == Begun(c).st && m.broker == c.broker
    ensures m.tick == if entry == [] then c.tick else c.tick + 2
    ensures !Admitted(env, c) ==> refused == Some(Refusal(env, c))
    ensures Admitted(env, c) ==>
              && env.cfg.validate(c.capability, c.supplied) == Some(m.st.inputs)
              && refused == if Opens(c) then EntryRefused(env, c) else None
    ensures body.result.value.ending.Success? || body.result.value.ending.BusinessOutcome? ==> refused.None?
  {
    hide RunThrough, Fail, Carries, Enter, Opens, EntryRefused;
    m, entry, body := Begun(c), [], Run(env, c);
    FailingIsNoSuccess(env, m);
    assert After([], body) == body;
    var bound := env.cfg.validate(c.capability, c.supplied);
    if HoldsTheSession(env, c) && WithinItsSteps(env, c) && bound.Some? {
      m := m.(st := m.st.(inputs := bound.value));
      FailingIsNoSuccess(env, m);
      if !env.cfg.gateRefuses(c.capability) {
        entry, m, body, refused := EnterShape(env, m, c);
      } else {
        refused := Some(PolicyDenied);
      }
    } else {
      refused := Some(Refusal(env, c));
    }
  }

  /** What the surface's refusal to open the entrypoint is reported as. */
  function EntryRefused(env: Env, c: Call): Option<FailureCode> {
    var outcome := env.surface.execute(c.tick + 1, Capabilities.Navigate(c.capability.entrypoint));
    if outcome.status == DispatchOk then None
    else if outcome.failureCode.Some? then outcome.failureCode else Some(SurfaceUnavailable)
  }

  lemma {:induction false} EnterShape(env: Env, m0: Machine, c: Call)
    returns (entry: seq<Event>, m: Machine, body: Out, refused: Option<FailureCode>)
    requires m0.st.capability == c.capability && !m0.st.isRemedy && m0.tick == c.tick
    ensures Enter(env, m0, c.start) == After(entry, body) && IsBody(env, c, m, body, refused)
    ensures entry == if Opens(c) then [EntryEvent(c)] else []
    ensures m == m0.(tick := if entry == [] then c.tick else c.tick + 2)
    ensures refused == if Opens(c) then EntryRefused(env, c) else None
    ensures body.result.value.ending.Success? || body.result.value.ending.BusinessOutcome? ==> refused.None?
  {
    hide RunThrough, Fail, Carries;
    m, entry, refused := m0, [], None;
    if Opens(c) {
      entry := [EntryEvent(c)];
      m := m.(tick := c.tick + 2);
      FailingIsNoSuccess(env, m);
      refused := EntryRefused(env, c);
      body := if refused.Some? then Fail(env, m, refused.value) else RunThrough(env, m, c.start);
    } else {
      body := RunThrough(env, m, c.start);
      assert After([], body) == body;
    }
  }

  lemma {:induction false} FailingIsNoSuccess(env: Env, m: Machine)
    ensures forall code :: Fail(env, m, code).result.Some? && !Fail(env, m, code).result.value.ending.Success?
    ensures forall code :: !Fail(env, m, code).result.value.ending.BusinessOutcome?
  {
  }

  function EntryEvent(c: Call): Event {
    Dispatched(false, Entry, Capabilities.Navigate(c.capability.entrypoint), c.tick + 1)
  }

  /** The body's tally and ending, whichever way it came about. */
  lemma {:induction false} BodyLaw(env: Env, c: Call, m: Machine, body: Out, refused: Option<FailureCode>, lim: Limits)
    requires m.st.(inputs := map[]) == Begun(c).st && m.broker == c.broker
    requires IsBody(env, c, m, body, refused)
    requires Bounded(env, c.capability, lim)
    ensures Tallied(env, c.start, m, body, StepsFrom(m, c.start), PerRule(false, lim))
    ensures body.result.Some? && Carries(m, body)
    ensures if body.result.value.ending.Success? then Succeeds(m, c.start, body) else EndsHonestly(env, m, body)
    ensures refused.None? && !body.result.value.ending.Success? ==> exists j: nat :: StopsAt(m, c.start, body, j)
  {
    if refused.None? {
      RunThroughEnds(env, m, c.start, lim);
    } else {
      FailEndsHonestly(env, m, m, refused.value);
      FailIsSilent(env, m, m, refused.value);
    }
  }

  // ---------------------------------------------------------------- success and answers

  /** Over a whole run: time, the dispatch behind each step, and the last look. */
  lemma {:induction false} RunTold(env: Env, c: Call)
    ensures Told(c.tick, false, Run(env, c), Acting(c.capability.steps, c.start))
  {
    hide Told, Run, RunThrough, Fail, Carries, Acting;
    var entry, m, body, refused := RunShape(env, c);
    var calls := Acting(c.capability.steps, c.start);
    if refused.None? {
      RunThroughTold(env, m, c.start);
    } else {
      FailTold(env, m.tick, m, refused.value, calls);
    }
    if entry == [] {
      assert entry + body.log == body.log;
    } else {
      var entered := Out(m, entry, None);
      OneEventTold(c.tick, false, EntryEvent(c), entered);
      ToldNext(c.tick, false, entered, body, calls);
    }
  }

  /** SUCCESS is earned. Every step from the start index on was completed, in order
      and each with its evidence; exactly those that act were dispatched, once each,
      and right before each completed step stands the dispatch its evidence is about;
      a step is chosen on a look taken after the screen the step before settled on; and
      the very last look of the run, after all of that, meets the checkpoint with no
      outcome or rule explaining it. Outputs carried in are carried out. */
  lemma {:induction false} SuccessIsEarned(env: Env, c: Call)
    requires Run(env, c).result.value.ending.Success?
    ensures var out := Run(env, c);
            var bound := env.cfg.validate(c.capability, c.supplied);
            && Admitted(env, c)
            && (forall e | e in out.log :: Sound(env, e))
            && (forall e | e in out.log && e.StepDone? && !e.isRemedy ::
                  e.capability == c.capability && e.inputs == bound.value)
            && Done(out.log, false) == Range(c.start, Max(c.start, |c.capability.steps|))
            && StepCalls(out.log, false) == Acting(c.capability.steps, c.start)
            && Paired(out.log) && InTime(out.log, c.tick, out.m.tick)
            && out.log != []
            && var last := out.log[|out.log| - 1];
               && last.CheckpointMet? && !last.isRemedy
               && last.capability == c.capability && last.inputs == bound.value && last.seenAt + 1 == out.m.tick
               && out.result.value.outputs.Keys >= c.priorOutputs.Keys
               && (Opens(c) ==> out.log[0] == EntryEvent(c) && EntryRefused(env, c).None?)
  {
    hide InTime, Paired, StepCalls, Acting, RunThrough, Fail, Opens, EntryRefused, Run, Admitted, Tallied, Sound;
    RunTold(env, c);
    var entry, m, body, refused := RunShape(env, c);
    BodyLaw(env, c, m, body, refused, Uncounted);
    EnteringCompletesNothing(c, entry, body.log);
    FirstAndLast(entry, body.log);
    LogOfASuccess(env, c, m, entry, body);
    hide Done, Range;
  }

  lemma {:induction false} EnteringCompletesNothing(c: Call, entry: seq<Event>, log: seq<Event>)
    requires entry == [] || entry == [EntryEvent(c)]
    ensures Done(entry + log, false) == Done(log, false)
  {
    CountsAdd(entry, log);
    if entry != [] { assert entry[1..] == []; }
    assert Done(entry, false) + Done(log, false) == Done(log, false);
  }

  lemma FirstAndLast<T>(a: seq<T>, b: seq<T>)
    requires b != []
    ensures (a + b)[|a + b| - 1] == b[|b| - 1] && (a != [] ==> (a + b)[0] == a[0])
  {
  }

  lemma {:induction false} LogOfASuccess(env: Env, c: Call, m: Machine, entry: seq<Event>, body: Out)
    requires entry == [] || entry == [EntryEvent(c)]
    requires Tallied(env, c.start, m, body, StepsFrom(m, c.start), None) && m.st.capability == c.capability
    requires !m.st.isRemedy
    ensures forall e | e in entry + body.log :: Sound(env, e)
    ensures forall e | e in entry + body.log && e.StepDone? && !e.isRemedy ::
              e.capability == c.capability && e.inputs == m.st.inputs
  {
    forall e | e in entry + body.log
      ensures Sound(env, e)
      ensures e.StepDone? && !e.isRemedy ==> e.capability == c.capability && e.inputs == m.st.inputs
    {
      assert e in entry || e in body.log;
    }
  }

  /** BUSINESS_OUTCOME carries the first declared outcome that matches, under the
      inputs the run was given, the very last screen it looked at. */
  lemma {:induction false} TheAnswerIsTheFirstDeclared(env: Env, c: Call)
    requires Run(env, c).result.value.ending.BusinessOutcome?
    ensures var out := Run(env, c);
            var bound := env.cfg.validate(c.capability, c.supplied);
            && bound.Some? && out.log != [] && InTime(out.log, c.tick, out.m.tick)
            && var last := out.log[|out.log| - 1];
               && last.OutcomeSeen? && !last.isRemedy
               && last.capability == c.capability && last.inputs == bound.value && last.seenAt + 1 == out.m.tick
               && last.index == out.result.value.ending.index
               && Sound(env, last)
  {
    hide InTime, Paired, StepCalls, Acting, RunThrough, Fail;
    RunTold(env, c);
    var entry, m, body, refused := RunShape(env, c);
    BodyLaw(env, c, m, body, refused, Uncounted);
    var out := Run(env, c);
    assert out.log == entry + body.log;
    assert out.log[|out.log| - 1] == body.log[|body.log| - 1];
    assert body.log[|body.log| - 1] in body.log;
  }

  // ---------------------------------------------------------------- waiting

  /** Two looks in a row show one page: the same address, and the same controls in the
      same places with the same names and contents. */
  predicate StandsStill(env: Env, t: nat)
    requires t > 0
  {
    var before, now := env.surface.observe(t - 1), env.surface.observe(t);
    && before.url == now.url && |before.nodes| == |now.nodes|
    && forall i | 0 <= i < |now.nodes| ::
         && before.nodes[i].nodeId == now.nodes[i].nodeId
         && before.nodes[i].name == now.nodes[i].name && before.nodes[i].value == now.nodes[i].value
  }

  /** What is waited for has come about by the look at `t`: the condition, a change of
      page, or else that nothing moves between two looks of this wait. */
  predicate CameAbout(env: Env, policy: WaitPolicy, inputs: Bindings, before: Option<UiSnapshot>, tick: nat, t: nat) {
    var now := env.surface.observe(t);
    if policy.kind == PredicateHolds && policy.until.Some? then policy.until.value(now, inputs)
    else if policy.kind == Navigation then
      before.Some? && (now.url != before.value.url || |now.nodes| != |before.value.nodes|)
    else t > tick && StandsStill(env, t)
  }

  /** A wait ends, satisfied, at the first look at which what it waits for has come
      about, and otherwise, unsatisfied, at its deadline and not before. */
  lemma {:induction false} WaitsEndOnWhatTheyWaitFor(env: Env, policy: WaitPolicy, inputs: Bindings,
                                                     before: Option<UiSnapshot>, tick: nat)
    ensures var w := Replay.WaitFor(env, policy, inputs, before, tick);
            && tick <= w.seenAt <= tick + env.surface.patience(tick)
            && (!w.satisfied ==> w.seenAt == tick + env.surface.patience(tick))
            && forall t | tick <= t <= w.seenAt ::
                 CameAbout(env, policy, inputs, before, tick, t) <==> w.satisfied && t == w.seenAt
  {
    var n := Polls(env, policy, inputs, before, tick, 0);
    forall t | tick <= t <= tick + n
      ensures CameAbout(env, policy, inputs, before, tick, t) <==> Settled(env, policy, inputs, before, tick, t - tick)
    {
    }
    forall t | tick <= t < tick + n ensures !CameAbout(env, policy, inputs, before, tick, t) {
      assert !Settled(env, policy, inputs, before, tick, t - tick);
    }
  }

  // ---------------------------------------------------------------- bounded recovery

  function Budget(env: Env, priorAttempts: int): nat {
    if env.cfg.maxRecoveryTotal > priorAttempts then env.cfg.maxRecoveryTotal - priorAttempts else 0
  }

  /** Rule applications, those inside remedies included, fit the budget that was
      left, each within its own rule's attempts; and the count a run hands on covers
      every one of them. */
  lemma {:induction false} RecoveryIsBounded(env: Env, c: Call)
    ensures var out := Run(env, c);
            && Apps(out.log) <= Budget(env, c.priorAttempts)
            && (forall e | e in out.log && e.RuleApplied? :: 1 <= e.attempt <= e.rule.maxAttempts)
            && out.result.Some?
            && (out.result.value.ending.Success? || out.result.value.ending.Failed?
                || out.result.value.ending.NeedsHuman? ==>
                  out.result.value.recoveryAttempts >= c.priorAttempts + Apps(out.log))
  {
    var entry, m, body, refused := RunShape(env, c);
    BodyLaw(env, c, m, body, refused, Uncounted);
    CountsAdd(entry, body.log);
    if entry != [] { assert entry[1..] == []; }
    forall e | e in Run(env, c).log && e.RuleApplied? ensures 1 <= e.attempt <= e.rule.maxAttempts {
      assert e in entry || e in body.log;
      assert Sound(env, e);
    }
  }

  /** Running again with the count the first run returned never refreshes the budget. */
  lemma {:induction false} RerunningNeverRefreshesTheBudget(env: Env, first: Call, second: Call)
    requires var ending := Run(env, first).result.value.ending; ending.Failed? || ending.NeedsHuman?
    requires second.priorAttempts >= Run(env, first).result.value.recoveryAttempts
    ensures Apps(Run(env, first).log) + Apps(Run(env, second).log) <= Budget(env, first.priorAttempts)
  {
    RecoveryIsBounded(env, first);
    RecoveryIsBounded(env, second);
  }

  /** A remedy runs no remedy capability and opens no intervention: nesting stops at
      one level. */
  lemma {:induction false} RemediesDoNotNest(env: Env, m: Machine, start: nat)
    requires m.st.isRemedy
    ensures forall e | e in RunSteps(env, m, start).log :: OfARemedy(e)
    ensures forall id, inputs :: RemedyFor(env, m.st, id, inputs).Err?
  {
    RunStepsLaw(env, m, start, Uncounted);
    forall e | e in RunSteps(env, m, start).log ensures OfARemedy(e) {
      assert Belongs(m.st, start, e);
    }
  }

  // ---------------------------------------------------------------- bounded dispatching

  /** At most one call for the entry, one a step, and for each rule application one a
      remedy or one a step of the capability the remedy runs. */
  lemma {:induction false} DispatchesAreBounded(env: Env, c: Call, remedies: nat, steps: nat)
    requires Bounded(env, c.capability, AtMost(remedies, steps))
    ensures Calls(Run(env, c).log) <=
              1 + |c.capability.steps| + Budget(env, c.priorAttempts) * (remedies * Max(1, steps))
  {
    var lim := AtMost(remedies, steps);
    var entry, m, body, refused := RunShape(env, c);
    BodyLaw(env, c, m, body, refused, lim);
    CountsAdd(entry, body.log);
    if entry != [] { assert entry[1..] == []; }
    Shorter(Apps(body.log), Budget(env, c.priorAttempts), remedies * Max(1, steps));
  }

  /** The remedy lists of a capability and of all that its remedies may run. */
  ghost predicate RemedyListsWithin(env: Env, capability: Capability, remedies: nat) {
    && (forall rule | rule in capability.recovery :: |rule.remedy| <= remedies)
    && (env.cfg.capabilities.Some? ==>
          forall id, rule | (env.cfg.capabilities.value)(id).Some?
                            && rule in (env.cfg.capabilities.value)(id).value.recovery ::
            |rule.remedy| <= remedies)
  }

  /** The policy's step ceiling bounds the run itself and every capability a remedy
      may run, so that a run's dispatches stay under what the policy and the remedy
      lists say, whatever is in the catalog and however long its capabilities are. */
  lemma {:induction false} ThePolicyBoundsDispatches(env: Env, c: Call, remedies: nat)
    requires env.cfg.maxSteps >= 0 && RemedyListsWithin(env, c.capability, remedies)
    ensures Calls(Run(env, c).log) <=
              1 + env.cfg.maxSteps + Budget(env, c.priorAttempts) * (remedies * Max(1, env.cfg.maxSteps))
  {
    if |c.capability.steps| > env.cfg.maxSteps {
      TooLongDispatchesNothing(env, c);
    } else {
      assert Bounded(env, c.capability, AtMost(remedies, env.cfg.maxSteps));
      hide Bounded, Run;
      DispatchesAreBounded(env, c, remedies, env.cfg.maxSteps);
    }
  }

  lemma TooLongDispatchesNothing(env: Env, c: Call)
    requires |c.capability.steps| > env.cfg.maxSteps
    ensures Calls(Run(env, c).log) == 0
  {
    FailIsSilent(env, Begun(c), Begun(c), LeaseLost);
    FailIsSilent(env, Begun(c), Begun(c), PolicyDenied);
  }

  // ---------------------------------------------------------------- one escalation

  /** Identifiers minted during the run are new to the queue. */
  ghost predicate MintsFreshIds(env: Env, b: B.BrokerValue) {
    forall t: nat :: env.surface.newId(t) !in b.requests
  }

  /** Exactly one intervention was opened: the last thing the run did, leaving the
      session paused and everything else in the queue as it was. */
  ghost predicate OpenedOne(before: B.BrokerValue, after: Option<B.BrokerValue>, log: seq<Event>) {
    && after.Some? && B.Agree(after.value) && after.value.lease.state == L.Paused
    && (exists id :: id !in before.requests && after.value.requests == before.requests[id := I.NewRequest("", "")])
    && log != [] && log[|log| - 1] == Escalated && Escalated !in log[..|log| - 1]
  }

  /** A supervised run that starts with automation holding the lease opens one
      intervention when it ends NEEDS_HUMAN, and otherwise leaves the broker alone,
      however many remedies failed inside it. */
  lemma {:induction false} OneEscalationExactlyWhenAHumanIsNeeded(env: Env, c: Call)
    requires c.broker.Some? && B.Agree(c.broker.value) && c.broker.value.lease.state == L.Running
    requires MintsFreshIds(env, c.broker.value)
    ensures var out := Run(env, c);
            if out.result.value.ending.NeedsHuman? then OpenedOne(c.broker.value, out.m.broker, out.log)
            else out.m.broker == c.broker && Escalated !in out.log
  {
    hide Run, RunThrough, Fail, Tallied, Carries, Range, EndsHonestly, OpenedOne, B.Agree, B.Escalate;
    var entry, m, body, refused := RunShape(env, c);
    BodyLaw(env, c, m, body, refused, Uncounted);
    BodyEscalates(env, c, m, body);
    assert Run(env, c) == After(entry, body);
    assert Escalated !in entry;
    if body.result.value.ending.NeedsHuman? {
      OpenedOneAfterAll(c.broker.value, body.m.broker, entry, body.log);
    }
  }

  lemma {:induction false} BodyEscalates(env: Env, c: Call, m: Machine, body: Out)
    requires c.broker.Some? && B.Agree(c.broker.value) && c.broker.value.lease.state == L.Running
    requires MintsFreshIds(env, c.broker.value) && m.broker == c.broker && body.result.Some?
    requires if body.result.value.ending.Success? then Succeeds(m, c.start, body) else EndsHonestly(env, m, body)
    ensures if body.result.value.ending.NeedsHuman? then OpenedOne(c.broker.value, body.m.broker, body.log)
            else body.m.broker == c.broker && Escalated !in body.log
  {
    if body.result.value.ending.NeedsHuman? {
      var t: nat :| body.m.broker.value == B.Escalate(c.broker.value, env.surface.newId(t), "", "", None).0;
      EscalatingOpensOne(c.broker.value, env.surface.newId(t));
    }
  }

  lemma {:induction false} OpenedOneAfterAll(before: B.BrokerValue, after: Option<B.BrokerValue>, entry: seq<Event>,
                                             log: seq<Event>)
    requires OpenedOne(before, after, log) && Escalated !in entry
    ensures OpenedOne(before, after, entry + log)
  {
    assert (entry + log)[..|entry + log| - 1] == entry + log[..|log| - 1];
  }

  lemma {:induction false} EscalatingOpensOne(before: B.BrokerValue, id: string)
    requires B.Agree(before) && before.lease.state == L.Running && id !in before.requests
    ensures var after := B.Escalate(before, id, "", "", None).0;
            && B.Agree(after) && after.lease.state == L.Paused
            && after.requests == before.requests[id := I.NewRequest("", "")]
  {
    Laws.StepKeepsAgreement(before, B.DoEscalate(id, "", "", None));
  }

  /** A run that starts while automation does not hold the session touches nothing:
      no dispatch, no change of control. */
  lemma {:induction false} WithoutTheLeaseNothingIsTouched(env: Env, c: Call)
    requires c.broker.Some? && B.Agree(c.broker.value) && c.broker.value.lease.state != L.Running
    ensures var out := Run(env, c);
            Calls(out.log) == 0 && out.m.broker == c.broker
            && (out.result.value.ending == Failed(LeaseLost) || out.result.value.ending.Raised?)
  {
    FailIsSilent(env, Begun(c), Begun(c), LeaseLost);
  }

  // ---------------------------------------------------------------- resuming

  /** The arguments of one `resume`. */
  datatype Handback = Handback(call: Call, from: nat)

  function ResumeRun(env: Env, h: Handback): Out {
    var c := h.call;
    Resume(env, c.capability, c.supplied, c.tick, c.broker, h.from, c.priorOutputs, c.priorAttempts)
  }

  /** Where the plan for this resume starts, if the inputs bind and the screen can be
      re-anchored to the flow. */
  function Anchor(env: Env, h: Handback): Option<nat> {
    var bound := env.cfg.validate(h.call.capability, h.call.supplied);
    if bound.None? then None
    else Reanchor.Reconciled(h.call.capability.steps, env.surface.observe(h.call.tick), bound.value, h.from).resumeIndex
  }

  /** A resume that found its place goes on as a run from there, with everything the
      interrupted run had. */
  lemma {:induction false} AnchoredResumeIsARun(env: Env, h: Handback)
    requires Anchor(env, h).Some?
    ensures ResumeRun(env, h) == Run(env, h.call.(tick := h.call.tick + 1, start := Anchor(env, h).value))
  {
  }

  /** A resume planned at step `r` dispatches none of the steps before it, does not
      reopen the entrypoint unless `r` is 0, and on success keeps every output. */
  lemma {:induction false} ResumeRepeatsNothing(env: Env, h: Handback, r: nat)
    requires Anchor(env, h) == Some(r)
    ensures var out := ResumeRun(env, h);
            && (forall e | e in out.log && e.Dispatched? && !e.isRemedy ::
                  && (e.origin.OfStep? ==> r <= e.origin.index)
                  && (e.origin.Entry? ==> r == 0))
            && (out.result.value.ending.Success? ==>
                  && Done(out.log, false) == Range(r, Max(r, |h.call.capability.steps|))
                  && out.result.value.outputs.Keys >= h.call.priorOutputs.Keys)
  {
    var c := h.call.(tick := h.call.tick + 1, start := r);
    AnchoredResumeIsARun(env, h);
    var entry, m, body, refused := RunShape(env, c);
    BodyLaw(env, c, m, body, refused, Uncounted);
    var out := ResumeRun(env, h);
    forall e | e in out.log && e.Dispatched? && !e.isRemedy
      ensures (e.origin.OfStep? ==> r <= e.origin.index) && (e.origin.Entry? ==> r == 0)
    {
      assert e in entry || e in body.log;
      assert e in body.log ==> Belongs(m.st, r, e);
    }
    if out.result.value.ending.Success? { SuccessIsEarned(env, c); }
  }

  /** The count a resume returns covers what was already spent exactly when the
      resume found its place (or nothing had been spent): one that cannot re-anchor
      answers from a new state, with a count of zero and no outputs. */
  lemma {:induction false} ResumeCarriesTheBudgetExactlyWhenAnchored(env: Env, h: Handback)
    requires var ending := ResumeRun(env, h).result.value.ending; ending.Failed? || ending.NeedsHuman?
    ensures var out := ResumeRun(env, h);
            && (out.result.value.recoveryAttempts >= h.call.priorAttempts + Apps(out.log)
                <==> Anchor(env, h).Some? || h.call.priorAttempts <= 0)
            && (Anchor(env, h).None? ==> out.result.value.recoveryAttempts == 0 && out.result.value.outputs == map[])
  {
    hide Execute;
    if Anchor(env, h).Some? {
      AnchoredResumeIsARun(env, h);
      RecoveryIsBounded(env, h.call.(tick := h.call.tick + 1, start := Anchor(env, h).value));
    } else {
      var m := Machine(Fresh(h.call.capability, map[], 0), h.call.tick, h.call.broker);
      FailIsSilent(env, m, m, InputValidationFailed);
      FailEndsHonestly(env, m, m, InputValidationFailed);
      FailIsSilent(env, m, m.(tick := h.call.tick + 1), UnexpectedState);
      FailEndsHonestly(env, m, m.(tick := h.call.tick + 1), UnexpectedState);
    }
  }

  /** It does happen: a resume that lands on a screen the flow cannot start from
      returns 0 where 3 attempts had been spent, so a caller who hands that count to
      the next resume hands back the whole budget. */
  lemma {:induction false} AResumeCanForgetTheBudget(env: Env, h: Handback)
    requires env.cfg.validate(h.call.capability, h.call.supplied).Some? && h.from == 0 && h.call.priorAttempts == 3
    requires |h.call.capability.steps| == 1
    requires var step := h.call.capability.steps[0];
             && step.postcondition.None? && step.precondition.Some?
             && !step.precondition.value(env.surface.observe(h.call.tick),
                                         env.cfg.validate(h.call.capability, h.call.supplied).value)
    requires h.call.capability.escalation == Escalation({}, true)
    ensures var out := ResumeRun(env, h);
            out.result.value.ending == Failed(UnexpectedState) && out.result.value.recoveryAttempts == 0
  {
    assert Anchor(env, h).None?;
  }
}
