/** A supervised run interleaved with the broker's calls: `replay/executor.py`
    adopts an epoch and checks it, `runtime/dispatcher.py` refuses a stale one,
    and meanwhile any broker call may happen. The epoch read of a dispatch and
    the dispatch itself are one step. */
module Protocol {
  import opened Outcomes
  import opened Snapshots
  import opened Broker
  import opened BrokerLaws
  import L = Leases
  import I = Interventions

  /** Where the executor is: between runs, started but not yet checked against the
      lease, or past the check and dispatching. */
  datatype Phase = Idle | Started | Cleared

  /** A call that reached the driver, with the lease it found there. */
  datatype DriverCall = DriverCall(actor: L.Actor, epoch: int, at: int, lease: L.LeaseValue)

  datatype System = System(
    broker: BrokerValue,
    held: Option<int>,
    phase: Phase,
    driver: seq<DriverCall>)

  datatype Event =
    | BrokerCall(op: Op)  // by anyone but this executor: an operator, a sweep, another run's failure
    | StartRun            // run(): adopt the epoch if none is held yet
    | ResumeRun           // resume(): adopt the epoch again
    | CheckLease(now: int)
    | AutomationDispatch(now: int)
    | RunEscalates(id: string, runId: string, reason: string, snapshot: Option<UiSnapshot>)
    | EndRun

  function Next(s: System, e: Event): System {
    match e
    case BrokerCall(op) =>
      var b := Step(s.broker, op).0;
      // the dispatcher compares the two epochs it was handed
      if |b.dispatched| > |s.broker.dispatched| && Last(b).leaseEpoch == Last(b).expectedEpoch
      then s.(broker := b, driver := s.driver + [DriverCall(L.Human, Last(b).leaseEpoch, At(op), s.broker.lease)])
      else s.(broker := b)
    case StartRun =>
      s.(held := if s.held.None? then Some(s.broker.lease.epoch) else s.held, phase := Started)
    case ResumeRun => s.(held := Some(s.broker.lease.epoch), phase := Started)
    case CheckLease(now) =>
      if s.phase != Started then s
      else if s.broker.lease.holder != L.Automation || L.Expired(s.broker.lease, now) then s.(phase := Idle)
      else s.(phase := Cleared)
    case AutomationDispatch(now) =>
      // `_epochs`: 1 stands in for a run that never adopted one
      var held := s.held.GetOr(1);
      if s.phase != Cleared then s
      else if held != s.broker.lease.epoch then s.(phase := Idle) // LEASE_LOST fails the run
      else s.(driver := s.driver + [DriverCall(L.Automation, held, now, s.broker.lease)])
    case RunEscalates(id, runId, reason, snapshot) =>
      // `_fail`: the run is over, also when the broker refuses
      s.(broker := Step(s.broker, DoEscalate(id, runId, reason, snapshot)).0, phase := Idle)
    case EndRun => s.(phase := Idle)
  }

  function Last(b: BrokerValue): HumanDispatch
    requires b.dispatched != []
  {
    b.dispatched[|b.dispatched| - 1]
  }

  function Execute(s: System, events: seq<Event>): System
    decreases |events|
  {
    if events == [] then s else Execute(Next(s, events[0]), events[1..])
  }

  /** Every identifier minted for a request is new. */
  predicate FreshIds(s: System, events: seq<Event>)
    decreases |events|
  {
    events != [] ==> FreshId(s, events[0]) && FreshIds(Next(s, events[0]), events[1..])
  }

  predicate FreshId(s: System, e: Event) {
    && (e.BrokerCall? ==> Fresh(s.broker, e.op))
    && (e.RunEscalates? ==> e.id !in s.broker.requests)
  }

  /** A session with whatever behind it, and an executor between runs whose
      `lease_epoch` its maker may have preset. */
  function Begin(b: BrokerValue, preset: Option<int>): System {
    System(b, preset, Idle, [])
  }

  // ---------------------------------------------------------------- who may write

  /** Each actor writes only while the lease names it, at the epoch it carries. */
  ghost predicate Entitled(c: DriverCall) {
    && c.epoch == c.lease.epoch
    && match c.actor
       case Automation => c.lease.holder == L.Automation && c.lease.state == L.Running
       case Human => c.lease.holder == L.Human && c.lease.state == L.HumanControl && !L.Expired(c.lease, c.at)
       case System => false
  }

  /** What every step keeps. The heart is the first two lines: what a run holds is
      never beyond the next epoch automation can have, and past the check, either
      automation still has the lease or the held epoch is already in the past, because
      the epoch moves at every transition and never comes back. */
  ghost predicate Safe(lease: L.LeaseValue, held: Option<int>, phase: Phase, driver: seq<DriverCall>) {
    && (held.Some? ==> held.value <= NextRunning(lease))
    && (phase == Cleared ==>
          held.Some? && held.value <= lease.epoch && (held.value == lease.epoch ==> lease.state == L.Running))
    && (phase == Started ==> held.Some?)
    && (forall c | c in driver :: Entitled(c) && c.epoch <= lease.epoch)
    && InEpochOrder(driver)
    // within one epoch every call saw the same lease
    && (forall c | c in driver && c.epoch == lease.epoch :: c.lease == lease)
    && (forall c, d | c in driver && d in driver && c.epoch == d.epoch :: c.lease == d.lease)
  }

  ghost predicate InEpochOrder(driver: seq<DriverCall>) {
    forall i, j | 0 <= i < j < |driver| :: driver[i].epoch <= driver[j].epoch
  }

  ghost predicate OneWriterPerEpoch(driver: seq<DriverCall>) {
    forall c, d | c in driver && d in driver && c.epoch == d.epoch :: c.actor == d.actor
  }

  ghost predicate Good(s: System) {
    Agree(s.broker) && Safe(s.broker.lease, s.held, s.phase, s.driver)
  }

  lemma SafeAcrossATransition(before: L.LeaseValue, after: L.LeaseValue, held: Option<int>, phase: Phase,
                              driver: seq<DriverCall>)
    requires Safe(before, held, phase, driver)
    requires after == before || L.OneTransition(before, after)
    ensures Safe(after, held, phase, driver)
  {
  }

  lemma SafeWithOneMoreCall(lease: L.LeaseValue, held: Option<int>, phase: Phase, driver: seq<DriverCall>,
                            c: DriverCall)
    requires Safe(lease, held, phase, driver)
    requires Entitled(c) && c.lease == lease
    ensures Safe(lease, held, phase, driver + [c])
  {
  }

  lemma BrokerCallIsSafe(s: System, op: Op)
    requires Good(s) && Fresh(s.broker, op)
    ensures Good(Next(s, BrokerCall(op)))
  {
    var b := Step(s.broker, op).0;
    StepKeepsAgreement(s.broker, op);
    EveryCallIsOneTransitionOrNone(s.broker, op);
    SafeAcrossATransition(s.broker.lease, b.lease, s.held, s.phase, s.driver);
    if b.dispatched != s.broker.dispatched {
      OnlyAnUnexpiredHoldDispatches(s.broker, op);
      SafeWithOneMoreCall(b.lease, s.held, s.phase, s.driver,
                          DriverCall(L.Human, Last(b).leaseEpoch, At(op), s.broker.lease));
    }
  }

  lemma EscalationIsSafe(s: System, e: Event)
    requires Good(s) && e.RunEscalates? && FreshId(s, e)
    ensures Good(Next(s, e))
  {
    var op := DoEscalate(e.id, e.runId, e.reason, e.snapshot);
    StepKeepsAgreement(s.broker, op);
    EveryCallIsOneTransitionOrNone(s.broker, op);
    SafeAcrossATransition(s.broker.lease, Step(s.broker, op).0.lease, s.held, s.phase, s.driver);
  }

  lemma StepIsSafe(s: System, e: Event)
    requires Good(s) && FreshId(s, e)
    ensures Good(Next(s, e))
  {
    match e
    case BrokerCall(op) => BrokerCallIsSafe(s, op);
    case RunEscalates(_, _, _, _) => EscalationIsSafe(s, e);
    case AutomationDispatch(now) =>
      if |Next(s, e).driver| > |s.driver| {
        SafeWithOneMoreCall(s.broker.lease, s.held, s.phase, s.driver,
                            DriverCall(L.Automation, s.held.GetOr(1), now, s.broker.lease));
      }
    case _ =>
  }

  lemma {:induction false} RunIsSafe(s: System, events: seq<Event>)
    requires Good(s) && FreshIds(s, events)
    ensures Good(Execute(s, events))
    decreases |events|
  {
    if events != [] {
      StepIsSafe(s, events[0]);
      RunIsSafe(Next(s, events[0]), events[1..]);
    }
  }

  /** Single writer, over every interleaving, on a session with any past: automation
      reaches the driver only in RUNNING at the epoch its run holds, an operator only
      in HUMAN_CONTROL on an unexpired hold; calls are ordered by epoch and one epoch
      has one writer. */
  lemma {:induction false} SingleWriter(b: BrokerValue, preset: Option<int>, events: seq<Event>)
    requires Agree(b) && (preset.Some? ==> preset.value <= NextRunning(b.lease))
    requires FreshIds(Begin(b, preset), events)
    ensures var driver := Execute(Begin(b, preset), events).driver;
            && (forall c | c in driver :: Entitled(c))
            && InEpochOrder(driver) && OneWriterPerEpoch(driver)
  {
    RunIsSafe(Begin(b, preset), events);
  }

  // ---------------------------------------------------------------- a preset epoch

  /** Every call of every interleaving is entitled. */
  ghost predicate AlwaysEntitled(b: BrokerValue, preset: Option<int>) {
    forall events | FreshIds(Begin(b, preset), events) ::
      forall c | c in Execute(Begin(b, preset), events).driver :: Entitled(c)
  }

  /** `lease_epoch` may be set when the executor is built. The protocol is safe for
      exactly the values that are not beyond the next epoch at which automation has the
      session: on a running session, those not in the future. A later epoch can be
      reached, by a run that was cleared before, while nobody or an operator holds it. */
  lemma {:induction false} PresetEpochIsSafeExactlyWhenNotInTheFuture(b: BrokerValue, preset: int)
    requires Agree(b)
    ensures AlwaysEntitled(b, Some(preset)) <==> preset <= NextRunning(b.lease)
    ensures b.lease.state == L.Running ==> (AlwaysEntitled(b, Some(preset)) <==> preset <= b.lease.epoch)
  {
    var begin := Begin(b, Some(preset));
    if preset <= NextRunning(b.lease) {
      forall events | FreshIds(begin, events) ensures forall c | c in Execute(begin, events).driver :: Entitled(c) {
        SingleWriter(b, Some(preset), events);
      }
    } else {
      var events, driver := WayToAFutureEpoch(b, preset);
      assert driver != [] && !Entitled(driver[|driver| - 1]) && driver[|driver| - 1] in driver;
    }
  }

  /** The shortest way there: on a running session and with the next epoch preset, the
      run is cleared, somebody else's run escalates, and the call that follows goes
      through while the session is paused for an operator. */
  lemma AForeignEscalationReachesAFuturePreset(b: BrokerValue, id: string, runId: string, reason: string,
                                               snapshot: Option<UiSnapshot>)
    requires Agree(b) && b.lease.state == L.Running && id !in b.requests
    ensures var begin := Begin(b, Some(b.lease.epoch + 1));
            var events := [StartRun, CheckLease(0), BrokerCall(DoEscalate(id, runId, reason, snapshot)),
                           AutomationDispatch(0)];
            && FreshIds(begin, events)
            && var end := Execute(begin, events);
               && |end.driver| == 1 && end.driver[0].actor == L.Automation && end.driver[0].lease == end.broker.lease
               && end.broker.lease.state == L.Paused && !Entitled(end.driver[0])
  {
    var begin := Begin(b, Some(b.lease.epoch + 1));
    var dispatch := [AutomationDispatch(0)];
    Opened(begin, id, runId, reason, snapshot);
    var opening := Opening(id, runId, reason, snapshot);
    Appended(begin, opening, dispatch);
    assert dispatch[1..] == [];
    assert Execute(Execute(begin, opening), dispatch) == Next(Execute(begin, opening), dispatch[0]);
    assert opening + dispatch == [StartRun, CheckLease(0), BrokerCall(DoEscalate(id, runId, reason, snapshot)),
                                  AutomationDispatch(0)];
  }

  function Opening(id: string, runId: string, reason: string, snapshot: Option<UiSnapshot>): seq<Event> {
    [StartRun, CheckLease(0), BrokerCall(DoEscalate(id, runId, reason, snapshot))]
  }

  /** A run is cleared with automation in charge, and its session is then paused. */
  lemma Opened(begin: System, id: string, runId: string, reason: string, snapshot: Option<UiSnapshot>)
    requires Agree(begin.broker) && begin.broker.lease.state == L.Running && id !in begin.broker.requests
    requires begin.held.Some?
    ensures FreshIds(begin, Opening(id, runId, reason, snapshot))
    ensures var s := Execute(begin, Opening(id, runId, reason, snapshot));
            && s.held == begin.held && s.phase == Cleared && s.driver == begin.driver
            && s.broker.lease.state == L.Paused && s.broker.lease.epoch == begin.broker.lease.epoch + 1
            && id in s.broker.requests && I.Claimable(s.broker.requests[id].state)
  {
    var opening := Opening(id, runId, reason, snapshot);
    var s1 := Next(begin, opening[0]);
    var s2 := Next(s1, opening[1]);
    var s3 := Next(s2, opening[2]);
    assert opening[1..] == [opening[1], opening[2]] && opening[1..][1..] == [opening[2]];
    assert [opening[2]][1..] == [];
    assert s2 == begin.(phase := Cleared);
    assert Execute(s3, []) == s3 && FreshIds(s3, []);
    assert Execute(s2, [opening[2]]) == s3 && FreshIds(s2, [opening[2]]);
    assert Execute(s1, opening[1..]) == s3 && FreshIds(s1, opening[1..]);
  }

  lemma {:induction false} Appended(s: System, xs: seq<Event>, ys: seq<Event>)
    ensures Execute(s, xs + ys) == Execute(Execute(s, xs), ys)
    ensures FreshIds(s, xs) && FreshIds(Execute(s, xs), ys) ==> FreshIds(s, xs + ys)
    decreases |xs|
  {
    if xs == [] {
      assert xs + ys == ys;
    } else {
      assert (xs + ys)[1..] == xs[1..] + ys;
      Appended(Next(s, xs[0]), xs[1..], ys);
    }
  }

  /** Claim and let the hold lapse, over and over: the epoch climbs one by one and
      automation never holds the lease on the way. */
  lemma {:induction false} Churn(s: System, id: string, target: int) returns (events: seq<Event>, last: System)
    requires s.broker.lease.state == L.Paused
    requires s.broker.lease.epoch <= target
    requires id in s.broker.requests && I.Claimable(s.broker.requests[id].state)
    ensures FreshIds(s, events) && last == Execute(s, events)
    ensures last.broker.lease.epoch == target && last.broker.lease.state != L.Running
    ensures last.held == s.held && last.phase == s.phase
    decreases target - s.broker.lease.epoch
  {
    if s.broker.lease.epoch == target {
      return [], s;
    }
    var claim := BrokerCall(DoClaim(id, "op", 0, 0, 0));
    var sweep := BrokerCall(DoSweep(0, 0));
    var s1 := Next(s, claim);
    assert s1.broker.lease.state == L.HumanControl && s1.broker.lease.epoch == s.broker.lease.epoch + 1;
    if s1.broker.lease.epoch == target {
      assert [claim][1..] == [];
      return [claim], s1;
    }
    var s2 := Next(s1, sweep);
    var rest, l := Churn(s2, id, target);
    events, last := [claim, sweep] + rest, l;
    assert events[1..] == [sweep] + rest && events[1..][1..] == rest;
  }

  // ---------------------------------------------------------------- the way to an epoch beyond

  function Calls(ops: seq<Op>): (events: seq<Event>) {
    if ops == [] then [] else [BrokerCall(ops[0])] + Calls(ops[1..])
  }

  lemma {:induction false} CallsAreCalls(s: System, ops: seq<Op>)
    requires AllFresh(s.broker, ops)
    ensures FreshIds(s, Calls(ops))
    ensures var after := Execute(s, Calls(ops));
            after.broker == Run(s.broker, ops) && after.held == s.held && after.phase == s.phase
    decreases |ops|
  {
    hide Step, Fresh;
    if ops != [] {
      assert Calls(ops)[1..] == Calls(ops[1..]);
      CallsAreCalls(Next(s, BrokerCall(ops[0])), ops[1..]);
    }
  }

  lemma {:induction false} SomeLength(ids: set<string>) returns (n: nat)
    ensures forall id | id in ids :: |id| < n
    decreases |ids|
  {
    if ids == {} {
      n := 0;
    } else {
      var id :| id in ids;
      var m := SomeLength(ids - {id});
      n := if m > |id| then m else |id| + 1;
    }
  }

  /** There is always an identifier not used yet. */
  lemma SomeFreshId(ids: set<string>) returns (id: string)
    ensures id !in ids
  {
    var n := SomeLength(ids);
    id := seq(n, (_: nat) => 'i');
  }

  /** From any session: back to automation, the run cleared, the session paused by
      somebody else, and round again until the epoch preset is the current one. */
  lemma {:induction false} WayToAFutureEpoch(b: BrokerValue, preset: int)
    returns (events: seq<Event>, driver: seq<DriverCall>)
    requires Agree(b) && preset > NextRunning(b.lease)
    ensures FreshIds(Begin(b, Some(preset)), events) && driver == Execute(Begin(b, Some(preset)), events).driver
    ensures driver != [] && !Entitled(driver[|driver| - 1])
  {
    hide Agree, WayBack, Run, Step, Execute, FreshIds, AllFresh;
    var begin := Begin(b, Some(preset));
    var visit := Visit("op", 0, 0, 0, None, 0);
    var back := Calls(WayBack(b, visit));
    NeverStranded(b, visit);
    CallsAreCalls(begin, WayBack(b, visit));
    var running := Execute(begin, back);
    var id := SomeFreshId(running.broker.requests.Keys);
    var opening := Opening(id, "run", "stuck", None);
    Opened(running, id, "run", "stuck", None);
    var paused := Execute(running, opening);
    var churn, last := Churn(paused, id, preset);
    var call := Dispatched(last, preset);
    Appended(paused, churn, call);
    Appended(running, opening, churn + call);
    Appended(begin, back, opening + (churn + call));
    events := back + (opening + (churn + call));
    driver := Execute(begin, events).driver;
  }

  lemma Dispatched(last: System, preset: int) returns (call: seq<Event>)
    requires last.held == Some(preset) && last.phase == Cleared
    requires last.broker.lease.epoch == preset && last.broker.lease.state != L.Running
    ensures FreshIds(last, call)
    ensures var driver := Execute(last, call).driver; driver != [] && !Entitled(driver[|driver| - 1])
  {
    call := [AutomationDispatch(0)];
    assert call[1..] == [];
  }
}
