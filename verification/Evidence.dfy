/** `runtime/dispatcher.py`, `evidence/bus.py` and `evidence/record.py`: every attempt
    leaves its events in one trace, and two readings of that trace account for what the
    driver was asked to do. */
module Evidence {
  import opened Outcomes
  import L = Leases
  import A = Authorization

  // ---------------------------------------------------------------- the trace

  datatype Event =
    | Resolve(resolved: bool, node: Option<string>)
    | Authorize(decisionId: string, granted: bool, reason: string)
    | Dispatch(under: Option<string>, refused: bool, action: string, actor: L.Actor, epoch: int, ok: bool)
    | Classify(step: Option<string>)
    | Recovery(rule: string)
    | Remark                                  // observations, notes, lease and model events

  datatype Entry = Entry(seqNo: nat, event: Event)

  class Bus {
    var sequence: nat
    var trace: seq<Entry>

    constructor ()
      ensures sequence == 0 && trace == []
    {
      sequence, trace := 0, [];
    }

    method Emit(event: Event) returns (seqNo: nat)
      modifies this
      ensures sequence == old(sequence) + 1 == seqNo && trace == old(trace) + [Entry(seqNo, event)]
      ensures Events(trace) == old(Events(trace)) + [event]
    {
      sequence := sequence + 1;
      trace := trace + [Entry(sequence, event)];
      return sequence;
    }
  }

  function Events(trace: seq<Entry>): (events: seq<Event>)
    ensures |events| == |trace| && forall i | 0 <= i < |trace| :: events[i] == trace[i].event
  {
    if trace == [] then [] else [trace[0].event] + Events(trace[1..])
  }

  // ---------------------------------------------------------------- one attempt

  datatype DriverCall = DriverCall(decisionId: string, action: string, actor: L.Actor, epoch: int, node: Option<string>)

  class Driver {
    var calls: seq<DriverCall>

    constructor ()
      ensures calls == []
    {
      calls := [];
    }

    method Dispatch(call: DriverCall)
      modifies this
      ensures calls == old(calls) + [call]
    {
      calls := calls + [call];
    }
  }

  /** The arguments of one `execute`, and what the resolver, the policy and the driver
      answer to it. */
  datatype Attempt = Attempt(
    action: string,
    actor: L.Actor,
    epoch: int,
    expectedEpoch: Option<int>,
    target: Option<Option<string>>,       // none; one that does not resolve; one that resolves to a node
    hit: Option<string>,                  // what a raw gesture lands on
    decisionId: string,
    decision: A.Decision,
    reason: string,
    ok: bool,
    leftAllowlist: bool)

  datatype Status = Dispatched | Failed | Unresolved | Denied | NeedsConfirmation | LeaseLost

  predicate Stale(a: Attempt) {
    a.expectedEpoch.Some? && a.epoch != a.expectedEpoch.value
  }

  predicate ReachesPolicy(a: Attempt) {
    !Stale(a) && a.target != Some(None)
  }

  predicate ReachesDriver(a: Attempt) {
    ReachesPolicy(a) && a.decision.Allowed?
  }

  function Node(a: Attempt): Option<string> {
    if a.target.Some? then a.target.value else a.hit
  }

  function Looked(a: Attempt): seq<Event> {
    (if a.target.Some? then [Resolve(a.target.value.Some?, a.target.value)] else [])
    + if a.target != Some(None) && a.hit.Some? then [Resolve(true, a.hit)] else []
  }

  function Traced(a: Attempt): seq<Event> {
    if Stale(a) then [Dispatch(None, true, a.action, a.actor, a.epoch, false)]
    else if !ReachesPolicy(a) then Looked(a)
    else Looked(a) + Decided(a)
  }

  function Decided(a: Attempt): seq<Event> {
    [Authorize(a.decisionId, a.decision.Allowed?, a.reason)]
    + if !ReachesDriver(a) then []
      else [Dispatch(Some(a.decisionId), false, a.action, a.actor, a.epoch,
             a.ok)] + if a.leftAllowlist then [Remark] else []
  }

  function Called(a: Attempt): seq<DriverCall> {
    if ReachesDriver(a) then [DriverCall(a.decisionId, a.action, a.actor, a.epoch, Node(a))] else []
  }

  function StatusOf(a: Attempt): Status {
    if Stale(a) then LeaseLost
    else if !ReachesPolicy(a) then Unresolved
    else
      match a.decision
      case NeedsConfirmation(_) => NeedsConfirmation
      case Denied(_) => Denied
      case Allowed(_, _) => if a.leftAllowlist then Denied else if a.ok then Dispatched else Failed
  }

  /** `Dispatcher.execute`: resolve, authorize, dispatch, record, in that order. */
  class Dispatcher {
    const bus: Bus
    const driver: Driver

    constructor (bus: Bus, driver: Driver)
      ensures this.bus == bus && this.driver == driver
    {
      this.bus, this.driver := bus, driver;
    }

    method Execute(a: Attempt) returns (status: Status)
      modifies bus, driver
      ensures Events(bus.trace) == Events(old(bus.trace)) + Traced(a)
      ensures driver.calls == old(driver.calls) + Called(a)
      ensures status == StatusOf(a)
    {
      hide Events;
      ghost var before := Events(bus.trace);
      var n: nat;
      if a.expectedEpoch.Some? && a.epoch != a.expectedEpoch.value {
        n := bus.Emit(Dispatch(None, true, a.action, a.actor, a.epoch, false));
        return LeaseLost;
      }
      if a.target.Some? {
        n := bus.Emit(Resolve(a.target.value.Some?, a.target.value));
        if a.target.value.None? {
          return Unresolved;
        }
      }
      if a.hit.Some? {
        n := bus.Emit(Resolve(true, a.hit));
      }
      assert Events(bus.trace) == before + Looked(a);
      status := Decide(a);
      assert before + Looked(a) + Decided(a) == before + (Looked(a) + Decided(a));
    }

    method Decide(a: Attempt) returns (status: Status)
      requires ReachesPolicy(a)
      modifies bus, driver
      ensures Events(bus.trace) == old(Events(bus.trace)) + Decided(a)
      ensures driver.calls == old(driver.calls) + Called(a)
      ensures status == StatusOf(a)
    {
      hide Events;
      var n := bus.Emit(Authorize(a.decisionId, a.decision.Allowed?, a.reason));
      if a.decision.NeedsConfirmation? {
        return NeedsConfirmation;
      }
      if a.decision.Denied? {
        return Denied;
      }
      driver.Dispatch(DriverCall(a.decisionId, a.action, a.actor, a.epoch, Node(a)));
      n := bus.Emit(Dispatch(Some(a.decisionId), false, a.action, a.actor, a.epoch, a.ok));
      if a.leftAllowlist {
        n := bus.Emit(Remark);
        return Denied;
      }
      return if a.ok then Dispatched else Failed;
    }
  }

  // ---------------------------------------------------------------- a run's evidence

  /** A run interleaves attempts with what other components record. */
  datatype Activity = Attempts(a: Attempt) | Records(event: Event)

  predicate OnlyDispatchersDispatch(acts: seq<Activity>) {
    forall act | act in acts && act.Records? :: !act.event.Authorize? && !act.event.Dispatch?
  }

  function Trace(acts: seq<Activity>): seq<Event> {
    if acts == [] then []
    else (match acts[0] case Attempts(a) => Traced(a) case Records(event) => [event]) + Trace(acts[1..])
  }

  function Calls(acts: seq<Activity>): seq<DriverCall> {
    if acts == [] then []
    else (match acts[0] case Attempts(a) => Called(a) case Records(_) => []) + Calls(acts[1..])
  }

  /** Every decision gets an identifier of its own. */
  predicate FreshDecisions(acts: seq<Activity>) {
    && (forall i | 0 <= i < |acts| && acts[i].Attempts? :: acts[i].a.decisionId != "")
    && (forall i, j | 0 <= i < j < |acts| && acts[i].Attempts? && acts[j].Attempts? ::
          acts[i].a.decisionId != acts[j].a.decisionId)
  }

  // ---------------------------------------------------------------- the bus's reading

  function GrantedIds(events: seq<Event>): set<string> {
    set e | e in events && e.Authorize? && e.granted :: e.decisionId
  }

  function Unauthorized(events: seq<Event>, granted: set<string>): (found: seq<Event>)
    ensures forall e :: e in found <==>
              e in events && e.Dispatch? && !e.refused && (e.under.None? || e.under.value !in granted)
    ensures found == [] <==>
              forall e | e in events && e.Dispatch? && !e.refused :: e.under.Some? && e.under.value in granted
  {
    if events == [] then []
    else
      var e := events[0];
      (if e.Dispatch? && !e.refused && (e.under.None? || e.under.value !in granted) then [e] else [])
      + Unauthorized(events[1..], granted)
  }

  function UnauthorizedDispatches(events: seq<Event>): seq<Event> {
    Unauthorized(events, GrantedIds(events))
  }

  // ---------------------------------------------------------------- the record's reading

  datatype StepRecord = StepRecord(
    index: nat,
    stepId: string,
    action: string,
    actor: L.Actor,
    epoch: int,
    authorized: bool,
    decision: Option<string>,
    resolution: Option<Option<string>>,
    rule: Option<string>)

  /** What the fold over the trace carries. */
  datatype Cursor = Cursor(steps: seq<StepRecord>, pending: Option<Event>, step: Option<string>, rule: Option<string>)

  function Granted(events: seq<Event>): map<string, string> {
    if events == [] then map[]
    else
      var last, before := events[|events| - 1], Granted(events[..|events| - 1]);
      if last.Authorize? && last.granted && last.decisionId != "" then before[last.decisionId := last.reason]
      else before
  }

  function Recorded(granted: map<string, string>, c: Cursor, e: Event): StepRecord
    requires e.Dispatch?
  {
    var id := e.under.GetOr("");
    var known := id != "" && id in granted;
    StepRecord(|c.steps|, if c.step.GetOr("") != "" then c.step.value else e.action, e.action, e.actor, e.epoch, known,
               if known then Some(granted[id]) else None,
               if c.pending.Some? && c.pending.value.Resolve? then Some(c.pending.value.node) else None, c.rule)
  }

  function Advance(granted: map<string, string>, c: Cursor, e: Event): Cursor {
    match e
    case Resolve(_, _) => c.(pending := Some(e))
    case Classify(step) => c.(step := if step.GetOr("") != "" then step else c.step)
    case Recovery(rule) => c.(rule := Some(rule))
    case Dispatch(_, refused, _, _, _, _) =>
      if refused then c else Cursor(c.steps + [Recorded(granted, c, e)], None, c.step, None)
    case _ => c
  }

  function Project(granted: map<string, string>, c: Cursor, events: seq<Event>): Cursor
    decreases |events|
  {
    if events == [] then c else Project(granted, Advance(granted, c, events[0]), events[1..])
  }

  const START := Cursor([], None, None, None)

  function RunSteps(events: seq<Event>): seq<StepRecord> {
    Project(Granted(events), START, events).steps
  }

  /** `build_run_record`: one pass for the authorizations, one for the steps. */
  method BuildRunRecord(events: seq<Event>) returns (steps: seq<StepRecord>)
    ensures steps == RunSteps(events)
  {
    var granted: map<string, string> := map[];
    for i := 0 to |events|
      invariant granted == Granted(events[..i])
    {
      assert events[..i + 1][..i] == events[..i];
      var e := events[i];
      if e.Authorize? && e.granted && e.decisionId != "" {
        granted := granted[e.decisionId := e.reason];
      }
    }
    assert events[..|events|] == events;
    steps := [];
    var pending: Option<Event> := None;
    var currentStep: Option<string> := None;
    var rule: Option<string> := None;
    for i := 0 to |events|
      invariant Project(granted, START, events) == Project(granted, Cursor(steps, pending, currentStep, rule),
             events[i..])
    {
      var e := events[i];
      assert events[i..][0] == e && events[i..][1..] == events[i + 1..];
      match e {
        case Resolve(_, _) =>
          pending := Some(e);
        case Classify(step) =>
          currentStep := if step.GetOr("") != "" then step else currentStep;
        case Recovery(applied) =>
          rule := Some(applied);
        case Dispatch(_, refused, _, _, _, _) =>
          if !refused {
            steps := steps + [Recorded(granted, Cursor(steps, pending, currentStep, rule), e)];
            pending, rule := None, None;
          }
        case _ =>
      }
    }
    assert events[|events|..] == [];
  }
}
