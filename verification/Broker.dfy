/** `hitl/broker.py`: the one object that decides who may act on a session, and
    the only way an operator's input reaches the application. */
module Broker {
  import opened Outcomes
  import opened Snapshots
  import opened Reanchor
  import L = Leases
  import I = Interventions

  datatype HandoffRecord = HandoffRecord(
    interventionId: string,
    operator: string,
    actions: int,
    delta: Option<HumanDelta>,
    snapshotBefore: Option<UiSnapshot>,
    snapshotAfter: Option<UiSnapshot>)

  /** One call of the dispatcher made on an operator's behalf. */
  datatype HumanDispatch = HumanDispatch(leaseEpoch: int, expectedEpoch: int, confirmed: bool)

  datatype BrokerError =
    | LeaseRefused(lease: L.LeaseError)
    | QueueRefused(queue: I.QueueError)
    | NoOperatorHolds(state: L.ControlState)
    | NoHandoff

  datatype BrokerValue = BrokerValue(
    lease: L.LeaseValue,
    requests: I.Requests,
    handoff: Option<HandoffRecord>,
    pendingBefore: Option<UiSnapshot>,
    dispatched: seq<HumanDispatch>)

  const Initial := BrokerValue(L.Initial, map[], None, None, [])

  type Reply = Result<int, BrokerError>

  // ---------------------------------------------------------------- what each call does to the value
  // Every function also says what is left behind when the call raises half way.

  function Escalate(b: BrokerValue, id: string, runId: string, reason: string, snapshot: Option<UiSnapshot>)
    : (BrokerValue, Reply)
  {
    match L.Escalated(b.lease, reason)
    case Err(e) => (b, Err(LeaseRefused(e)))
    case Ok(lease) =>
      (b.(lease := lease, requests := b.requests[id := I.NewRequest(runId, reason)], pendingBefore := snapshot),
       Ok(lease.epoch))
  }

  function Claim(b: BrokerValue, id: string, operator: string, at: int, now: int, holdFor: int): (BrokerValue, Reply) {
    match I.ClaimRequest(b.requests, id, operator, at)
    case Err(e) => (b, Err(QueueRefused(e)))
    case Ok(claimed) =>
      match L.Claimed(b.lease, operator, now, holdFor)
      case Err(e) =>
        var prior := b.requests[id];
        var restored := claimed[id].(state := prior.state, operator := prior.operator, claimedAt := prior.claimedAt);
        (b.(requests := claimed[id := restored]), Err(LeaseRefused(e)))
      case Ok(lease) =>
        (b.(lease := lease, requests := claimed,
            handoff := Some(HandoffRecord(id, operator, 0, None, b.pendingBefore, None))),
         Ok(lease.epoch))
  }

  function Act(b: BrokerValue, confirmed: bool): BrokerValue {
    b.(dispatched := b.dispatched + [HumanDispatch(b.lease.epoch, b.lease.epoch, confirmed)],
       handoff := if b.handoff.Some? then Some(b.handoff.value.(actions := b.handoff.value.actions + 1)) else None)
  }

  function HumanAction(b: BrokerValue, rawInput: bool, now: int): (BrokerValue, Reply) {
    if b.lease.state != L.HumanControl then (b, Err(NoOperatorHolds(b.lease.state)))
    else
      var held := L.CheckHeld(b.lease, L.Human, b.lease.epoch, now);
      if held.Err? then (b, Err(LeaseRefused(held.error)))
      else if rawInput && b.handoff.None? then (b, Err(NoHandoff))
      else (Act(b, false), Ok(b.lease.epoch))
  }

  function ConfirmAction(b: BrokerValue, now: int): (BrokerValue, Reply) {
    var held := L.CheckHeld(b.lease, L.Human, b.lease.epoch, now);
    if held.Err? then (b, Err(LeaseRefused(held.error)))
    else (Act(b, true), Ok(b.lease.epoch))
  }

  function DeltaOf(h: HandoffRecord, after: Option<UiSnapshot>): Option<HumanDelta> {
    if h.snapshotBefore.Some? && after.Some? then Some(DiffSnapshots(h.snapshotBefore.value, after.value)) else None
  }

  function Release(b: BrokerValue, after: Option<UiSnapshot>, at: int): (BrokerValue, Reply) {
    if b.handoff.None? then (b, Err(NoHandoff))
    else
      var h := b.handoff.value;
      match L.Released(b.lease)
      case Err(e) => (b, Err(LeaseRefused(e)))
      case Ok(lease) =>
        var delta := DeltaOf(h, after);
        var noted := b.(lease := lease,
                        handoff := Some(if delta.Some? then h.(delta := delta, snapshotAfter := after) else h));
        match I.ReleaseRequest(b.requests, h.interventionId, h.actions, delta, at)
        case Err(e) => (noted, Err(QueueRefused(e)))
        case Ok(q) => (noted.(requests := q), Ok(lease.epoch))
  }

  function Sweep(b: BrokerValue, now: int, later: int): (BrokerValue, Reply) {
    if !L.Expired(b.lease, now) then (b, Ok(b.lease.epoch))
    else
      match L.Reclaimed(b.lease, later)
      case Err(e) => (b, Err(LeaseRefused(e)))
      case Ok(lease) =>
        if b.handoff.None? then (b.(lease := lease), Ok(lease.epoch))
        else
          match I.CloseRequest(b.requests, b.handoff.value.interventionId, I.Abandoned, "hold expired")
          case Err(e) => (b.(lease := lease), Err(QueueRefused(e)))
          case Ok(q) => (b.(lease := lease, requests := q, handoff := None), Ok(lease.epoch))
  }

  function Resume(b: BrokerValue): (BrokerValue, Reply) {
    match L.Resumed(b.lease)
    case Err(e) => (b, Err(LeaseRefused(e)))
    case Ok(lease) =>
      if b.handoff.None? then (b.(lease := lease), Ok(lease.epoch))
      else
        match I.CloseRequest(b.requests, b.handoff.value.interventionId, I.Resolved, "automation resumed")
        case Err(e) => (b.(lease := lease), Err(QueueRefused(e)))
        case Ok(q) => (b.(lease := lease, requests := q), Ok(lease.epoch))
  }

  // ---------------------------------------------------------------- the object

  class SessionBroker {
    const lease: L.Lease
    const queue: I.InterventionQueue
    var handoff: Option<HandoffRecord>
    var pendingBefore: Option<UiSnapshot>
    var dispatched: seq<HumanDispatch>

    function Value(): BrokerValue
      reads this, lease, queue
    {
      BrokerValue(lease.Value(), queue.requests, handoff, pendingBefore, dispatched)
    }

    constructor ()
      ensures fresh(lease) && fresh(queue) && Value() == Initial
    {
      lease := new L.Lease();
      queue := new I.InterventionQueue();
      handoff, pendingBefore, dispatched := None, None, [];
    }

    method EscalateSession(id: string, runId: string, reason: string, snapshot: Option<UiSnapshot>) returns (r: Reply)
      modifies this, lease, queue
      ensures (Value(), r) == Escalate(old(Value()), id, runId, reason, snapshot)
    {
      var epoch := lease.Escalate(reason);
      if epoch.Err? {
        return Err(LeaseRefused(epoch.error));
      }
      queue.OpenRequest(id, I.NewRequest(runId, reason));
      pendingBefore := snapshot;
      return Ok(epoch.value);
    }

    method ClaimSession(id: string, operator: string, at: int, now: int, holdFor: int) returns (r: Reply)
      modifies this, lease, queue
      ensures (Value(), r) == Claim(old(Value()), id, operator, at, now, holdFor)
    {
      var before := if id in queue.requests then Some(queue.requests[id]) else None;
      var claimed := queue.Claim(id, operator, at);
      if claimed.Err? {
        return Err(QueueRefused(claimed.error));
      }
      var epoch := lease.Claim(operator, now, holdFor);
      if epoch.Err? {
        // the queue moved first, so a lease that refuses has to put the request back
        if before.Some? {
          queue.Restore(id, before.value.state, before.value.operator, before.value.claimedAt);
        }
        return Err(LeaseRefused(epoch.error));
      }
      handoff := Some(HandoffRecord(id, operator, 0, None, pendingBefore, None));
      return Ok(epoch.value);
    }

    method Dispatch(confirmed: bool)
      modifies this
      ensures Value() == Act(old(Value()), confirmed)
    {
      dispatched := dispatched + [HumanDispatch(lease.epoch, lease.epoch, confirmed)];
      if handoff.Some? {
        handoff := Some(handoff.value.(actions := handoff.value.actions + 1));
      }
    }

    method DoHumanAction(rawInput: bool, now: int) returns (r: Reply)
      modifies this
      ensures (Value(), r) == HumanAction(old(Value()), rawInput, now)
    {
      if lease.state != L.HumanControl {
        return Err(NoOperatorHolds(lease.state));
      }
      var held := lease.AssertHeld(L.Human, lease.epoch, now);
      if held.Err? {
        return Err(LeaseRefused(held.error));
      }
      if rawInput && handoff.None? {
        return Err(NoHandoff);
      }
      Dispatch(false);
      return Ok(lease.epoch);
    }

    method DoConfirmAction(now: int) returns (r: Reply)
      modifies this
      ensures (Value(), r) == ConfirmAction(old(Value()), now)
    {
      var held := lease.AssertHeld(L.Human, lease.epoch, now);
      if held.Err? {
        return Err(LeaseRefused(held.error));
      }
      Dispatch(true);
      return Ok(lease.epoch);
    }

    method ReleaseSession(after: Option<UiSnapshot>, at: int) returns (r: Reply)
      modifies this, lease, queue
      ensures (Value(), r) == Release(old(Value()), after, at)
    {
      if handoff.None? {
        return Err(NoHandoff);
      }
      var delta := DeltaOf(handoff.value, after);
      // the lease validates the transition before anything is recorded
      var epoch := lease.Release();
      if epoch.Err? {
        return Err(LeaseRefused(epoch.error));
      }
      if delta.Some? {
        handoff := Some(handoff.value.(delta := delta, snapshotAfter := after));
      }
      var released := queue.Release(handoff.value.interventionId, handoff.value.actions, delta, at);
      if released.Err? {
        return Err(QueueRefused(released.error));
      }
      return Ok(epoch.value);
    }

    method SweepSession(now: int, later: int) returns (r: Reply)
      modifies this, lease, queue
      ensures (Value(), r) == Sweep(old(Value()), now, later)
    {
      if !L.Expired(lease.Value(), now) {
        return Ok(lease.epoch);
      }
      var epoch := lease.ReclaimExpired(later);
      if epoch.Err? {
        return Err(LeaseRefused(epoch.error));
      }
      if handoff.Some? {
        var abandoned := queue.Abandon(handoff.value.interventionId, "hold expired");
        if abandoned.Err? {
          return Err(QueueRefused(abandoned.error));
        }
        handoff := None;
      }
      return Ok(epoch.value);
    }

    method ResumeSession() returns (r: Reply)
      modifies this, lease, queue
      ensures (Value(), r) == Resume(old(Value()))
    {
      var epoch := lease.Resume();
      if epoch.Err? {
        return Err(LeaseRefused(epoch.error));
      }
      if handoff.Some? {
        var resolved := queue.Resolve(handoff.value.interventionId, "automation resumed");
        if resolved.Err? {
          return Err(QueueRefused(resolved.error));
        }
      }
      return Ok(epoch.value);
    }
  }

  // ---------------------------------------------------------------- runs of the broker

  datatype Op =
    | DoEscalate(id: string, runId: string, reason: string, snapshot: Option<UiSnapshot>)
    | DoClaim(id: string, operator: string, at: int, now: int, holdFor: int)
    | DoHuman(rawInput: bool, now: int)
    | DoConfirm(now: int)
    | DoRelease(after: Option<UiSnapshot>, at: int)
    | DoSweep(now: int, later: int)
    | DoResume

  function Step(b: BrokerValue, op: Op): (BrokerValue, Reply) {
    match op
    case DoEscalate(id, runId, reason, snapshot) => Escalate(b, id, runId, reason, snapshot)
    case DoClaim(id, operator, at, now, holdFor) => Claim(b, id, operator, at, now, holdFor)
    case DoHuman(rawInput, now) => HumanAction(b, rawInput, now)
    case DoConfirm(now) => ConfirmAction(b, now)
    case DoRelease(after, at) => Release(b, after, at)
    case DoSweep(now, later) => Sweep(b, now, later)
    case DoResume => Resume(b)
  }

  /** `new_id` yields an identifier the queue has not used. */
  predicate Fresh(b: BrokerValue, op: Op) {
    op.DoEscalate? ==> op.id !in b.requests
  }

  function Unresolved(q: I.Requests): set<string> {
    set id | id in q && q[id].state != I.Resolved
  }

  /** Lease, queue and handoff tell the same story. */
  ghost predicate Agree(b: BrokerValue) {
    && L.Coherent(b.lease)
    && match b.lease.state
       case Running => Unresolved(b.requests) == {}
       case Paused => exists id :: Unresolved(b.requests) == {id} && I.Claimable(b.requests[id].state)
       case HumanControl =>
         && b.handoff.Some?
         && var id := b.handoff.value.interventionId;
            && Unresolved(b.requests) == {id}
            && b.requests[id].state == I.ClaimedBy
            && b.requests[id].operator == b.lease.operator == Some(b.handoff.value.operator)
       case Resuming =>
         && b.handoff.Some?
         && Unresolved(b.requests) == {b.handoff.value.interventionId}
         && b.requests[b.handoff.value.interventionId].state == I.HandedBack
  }
}
