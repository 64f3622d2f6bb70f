/** What the broker keeps over every run of its calls: agreement of lease, queue
    and handoff, no half-done refusal, no stranded session, a complete count of
    what the operator did. */
module BrokerLaws {
  import opened Outcomes
  import opened Snapshots
  import opened Broker
  import L = Leases
  import I = Interventions

  function Run(b: BrokerValue, ops: seq<Op>): BrokerValue
    decreases |ops|
  {
    if ops == [] then b else Run(Step(b, ops[0]).0, ops[1..])
  }

  predicate AllFresh(b: BrokerValue, ops: seq<Op>)
    decreases |ops|
  {
    ops != [] ==> Fresh(b, ops[0]) && AllFresh(Step(b, ops[0]).0, ops[1..])
  }

  // ---------------------------------------------------------------- agreement

  lemma ClosingLeaves(q: I.Requests, id: string, r: I.Request)
    requires Unresolved(q) == {id}
    ensures Unresolved(q[id := r]) == if r.state == I.Resolved then {} else {id}
  {
    assert forall x :: x in Unresolved(q) <==> x in q && q[x].state != I.Resolved;
  }

  lemma OpeningAdds(q: I.Requests, id: string, r: I.Request)
    requires Unresolved(q) == {} && id !in q && r.state != I.Resolved
    ensures Unresolved(q[id := r]) == {id}
  {
    assert forall x :: x in Unresolved(q) <==> x in q && q[x].state != I.Resolved;
  }

  /** Each call keeps lease, queue and handoff in agreement. */
  lemma StepKeepsAgreement(b: BrokerValue, op: Op)
    requires Agree(b) && Fresh(b, op)
    ensures Agree(Step(b, op).0)
  {
    hide Agree;
    match op
    case DoEscalate(_, _, _, _) => EscalateKeepsAgreement(b, op);
    case DoClaim(_, _, _, _, _) => ClaimKeepsAgreement(b, op);
    case DoHuman(_, _) => ActingKeepsAgreement(b, op);
    case DoConfirm(_) => ActingKeepsAgreement(b, op);
    case DoRelease(_, _) => ReleaseKeepsAgreement(b, op);
    case DoSweep(_, _) => SweepKeepsAgreement(b, op);
    case DoResume => ResumeKeepsAgreement(b, op);
  }

  lemma EscalateKeepsAgreement(b: BrokerValue, op: Op)
    requires Agree(b) && op.DoEscalate? && Fresh(b, op)
    ensures Agree(Step(b, op).0)
  {
    if b.lease.state == L.Running { OpeningAdds(b.requests, op.id, I.NewRequest(op.runId, op.reason)); }
  }

  lemma ActingKeepsAgreement(b: BrokerValue, op: Op)
    requires Agree(b) && (op.DoHuman? || op.DoConfirm?)
    ensures Agree(Step(b, op).0)
  {
  }

  lemma SweepKeepsAgreement(b: BrokerValue, op: Op)
    requires Agree(b) && op.DoSweep?
    ensures Agree(Step(b, op).0)
  {
    if b.lease.state == L.HumanControl {
      var id := b.handoff.value.interventionId;
      assert id in Unresolved(b.requests);
      ClosingLeaves(b.requests, id, I.CloseRequest(b.requests, id, I.Abandoned, "hold expired").value[id]);
    }
  }

  lemma ResumeKeepsAgreement(b: BrokerValue, op: Op)
    requires Agree(b) && op.DoResume?
    ensures Agree(Step(b, op).0)
  {
    if b.lease.state == L.Resuming {
      var id := b.handoff.value.interventionId;
      assert id in Unresolved(b.requests);
      ClosingLeaves(b.requests, id, I.CloseRequest(b.requests, id, I.Resolved, "automation resumed").value[id]);
    }
  }

  lemma ClaimKeepsAgreement(b: BrokerValue, op: Op)
    requires Agree(b) && op.DoClaim?
    ensures Agree(Step(b, op).0)
  {
    var claimed := I.ClaimRequest(b.requests, op.id, op.operator, op.at);
    if claimed.Ok? {
      assert op.id in Unresolved(b.requests);
      ClosingLeaves(b.requests, op.id, claimed.value[op.id]);
      if Step(b, op).1.Err? { ClaimRollsBack(b, op); }
    }
  }

  lemma ReleaseKeepsAgreement(b: BrokerValue, op: Op)
    requires Agree(b) && op.DoRelease?
    ensures Agree(Step(b, op).0)
  {
    if b.lease.state == L.HumanControl {
      var h := b.handoff.value;
      assert h.interventionId in Unresolved(b.requests);
      var released := I.ReleaseRequest(b.requests, h.interventionId, h.actions, DeltaOf(h, op.after), op.at);
      ClosingLeaves(b.requests, h.interventionId, released.value[h.interventionId]);
    }
  }

  lemma ClaimRollsBack(b: BrokerValue, op: Op)
    requires op.DoClaim? && Step(b, op).1.Err?
    ensures Step(b, op).0 == b
  {
    if op.id in b.requests {
      var claimed := I.ClaimRequest(b.requests, op.id, op.operator, op.at);
      if claimed.Ok? {
        assert Step(b, op).0.requests == b.requests;
      }
    }
  }

  /** In every state the calls can reach, the three records agree. */
  lemma {:induction false} ReachableStatesAgree(b: BrokerValue, ops: seq<Op>)
    requires Agree(b) && AllFresh(b, ops)
    ensures Agree(Run(b, ops))
    decreases |ops|
  {
    if ops != [] {
      StepKeepsAgreement(b, ops[0]);
      ReachableStatesAgree(Step(b, ops[0]).0, ops[1..]);
    }
  }

  lemma InitiallyAgree()
    ensures Agree(Initial)
  {
  }

  // ---------------------------------------------------------------- refusals

  /** When a call goes through, in terms of what a caller can see beforehand. */
  predicate Enabled(b: BrokerValue, op: Op) {
    match op
    case DoEscalate(_, _, _, _) => b.lease.state == L.Running
    case DoClaim(id, _, _, now, holdFor) =>
      b.lease.state == L.Paused && id in Unresolved(b.requests) && L.Representable(now + holdFor)
    case DoHuman(_, now) => b.lease.state == L.HumanControl && !L.Expired(b.lease, now)
    case DoConfirm(now) => b.lease.state == L.HumanControl && !L.Expired(b.lease, now)
    case DoRelease(_, _) => b.lease.state == L.HumanControl
    case DoSweep(now, later) => L.Expired(b.lease, now) ==> L.Expired(b.lease, later)
    case DoResume => b.lease.state == L.Resuming
  }

  /** A call succeeds exactly when enabled, and one that raises leaves lease,
      queue, handoff and driver calls as they were. */
  lemma RefusedCallsChangeNothing(b: BrokerValue, op: Op)
    requires Agree(b)
    ensures Step(b, op).1.Ok? <==> Enabled(b, op)
    ensures Step(b, op).1.Err? ==> Step(b, op).0 == b
  {
    if op.DoClaim? {
      if Step(b, op).1.Err? { ClaimRollsBack(b, op); }
      assert op.id in Unresolved(b.requests) <==> op.id in b.requests && b.requests[op.id].state != I.Resolved;
    } else if op.DoRelease? && b.lease.state == L.HumanControl {
      assert b.handoff.value.interventionId in Unresolved(b.requests);
    } else if op.DoResume? && b.lease.state == L.Resuming {
      assert b.handoff.value.interventionId in Unresolved(b.requests);
    } else if op.DoSweep? && b.lease.state == L.HumanControl {
      assert b.handoff.value.interventionId in Unresolved(b.requests);
    }
  }

  /** Control moves only along the diagram, one epoch at a time. */
  lemma EveryCallIsOneTransitionOrNone(b: BrokerValue, op: Op)
    requires Agree(b)
    ensures Step(b, op).0.lease == b.lease || L.OneTransition(b.lease, Step(b, op).0.lease)
    ensures b.dispatched <= Step(b, op).0.dispatched
  {
    RefusedCallsChangeNothing(b, op);
  }

  /** The clock reading an operator's call is admitted at. */
  function At(op: Op): int {
    match op
    case DoHuman(_, now) => now
    case DoConfirm(now) => now
    case _ => 0
  }

  lemma OnlyAnUnexpiredHoldDispatches(b: BrokerValue, op: Op)
    requires Agree(b) && Step(b, op).0.dispatched != b.dispatched
    ensures op.DoHuman? || op.DoConfirm?
    ensures b.lease.state == L.HumanControl && b.lease.holder == L.Human && !L.Expired(b.lease, At(op))
    ensures Step(b, op).0.lease == b.lease
    ensures exists c :: Step(b, op).0.dispatched == b.dispatched + [HumanDispatch(b.lease.epoch, b.lease.epoch, c)]
  {
    assert Step(b, op).0.dispatched == b.dispatched + [HumanDispatch(b.lease.epoch, b.lease.epoch, op.DoConfirm?)];
  }

  // ---------------------------------------------------------------- no stranded session

  /** The epoch at which automation holds the session, now or the next time it does:
      each state is a fixed number of transitions away from RUNNING. */
  function NextRunning(lease: L.LeaseValue): int {
    lease.epoch + match lease.state
      case Running => 0
      case Resuming => 1
      case HumanControl => 2
      case Paused => 3
  }

  /** What the next operator brings: a name, the clock at each of their calls, the
      hold they are given, and what the screen shows when they leave. */
  datatype Visit = Visit(operator: string, at: int, now: int, holdFor: int, after: Option<UiSnapshot>, releasedAt: int)

  ghost function WayBack(b: BrokerValue, v: Visit): seq<Op> {
    match b.lease.state
    case Running => []
    case Resuming => [DoResume]
    case HumanControl => [DoRelease(v.after, v.releasedAt), DoResume]
    case Paused =>
      if Unresolved(b.requests) == {} then []
      else
        var id :| id in Unresolved(b.requests);
        [DoClaim(id, v.operator, v.at, v.now, v.holdFor), DoRelease(v.after, v.releasedAt), DoResume]
  }

  /** From every state the broker can be in, at most a claim, a release and a resume
      give the session back to automation, whoever comes, whatever the clock reads at
      each call and however short the hold; a hold already lapsed is no obstacle. The
      one thing that matters is that the end of the hold is an instant at all. */
  lemma NeverStranded(b: BrokerValue, v: Visit)
    requires Agree(b) && L.Representable(v.now + v.holdFor)
    ensures AllFresh(b, WayBack(b, v)) && Agree(Run(b, WayBack(b, v)))
    ensures Run(b, WayBack(b, v)).lease.state == L.Running
    ensures Run(b, WayBack(b, v)).lease.epoch == NextRunning(b.lease)
  {
    var ops := WayBack(b, v);
    if b.lease.state == L.Paused {
      assert exists id :: id in Unresolved(b.requests);
      var b1 := Step(b, ops[0]).0;
      RefusedCallsChangeNothing(b, ops[0]);
      StepKeepsAgreement(b, ops[0]);
      WayBackFromControl(b1, v);
      assert ops[1..] == WayBack(b1, v);
    } else {
      WayBackFromControl(b, v);
    }
    ReachableStatesAgree(b, ops);
  }

  lemma OneCall(b: BrokerValue, op: Op)
    ensures Run(b, [op]) == Step(b, op).0 && (AllFresh(b, [op]) <==> Fresh(b, op))
  {
    assert [op][1..] == [];
  }

  lemma WayBackFromControl(b: BrokerValue, v: Visit)
    requires Agree(b) && b.lease.state != L.Paused
    ensures AllFresh(b, WayBack(b, v)) && Run(b, WayBack(b, v)).lease.state == L.Running
    ensures Run(b, WayBack(b, v)).lease.epoch == NextRunning(b.lease)
  {
    if b.lease.state == L.HumanControl {
      var release := DoRelease(v.after, v.releasedAt);
      var b1 := Step(b, release).0;
      RefusedCallsChangeNothing(b, release);
      StepKeepsAgreement(b, release);
      RefusedCallsChangeNothing(b1, DoResume);
      assert WayBack(b, v)[1..] == [DoResume];
      OneCall(b1, DoResume);
    } else if b.lease.state == L.Resuming {
      RefusedCallsChangeNothing(b, DoResume);
      OneCall(b, DoResume);
    }
  }

  /** An operator who walked away need not come back: from the instant the hold ends,
      a sweep makes the session claimable by somebody else. */
  lemma AnAbandonedHoldIsClaimable(b: BrokerValue, now: int, later: int)
    requires Agree(b) && b.lease.state == L.HumanControl && b.lease.expiresAt.value <= now <= later
    ensures var swept := Step(b, DoSweep(now, later)).0;
            && Agree(swept) && swept.lease.state == L.Paused
            && exists id :: Unresolved(swept.requests) == {id} && I.Claimable(swept.requests[id].state)
  {
    StepKeepsAgreement(b, DoSweep(now, later));
    RefusedCallsChangeNothing(b, DoSweep(now, later));
  }

  // ---------------------------------------------------------------- the count of what the operator did

  /** Dispatches an operator made under one epoch. */
  function CallsAt(calls: seq<HumanDispatch>, epoch: int): nat {
    if calls == [] then 0
    else CallsAt(calls[..|calls| - 1], epoch) + if calls[|calls| - 1].leaseEpoch == epoch then 1 else 0
  }

  lemma {:induction false} NoCallsAbove(calls: seq<HumanDispatch>, epoch: int)
    requires forall c | c in calls :: c.leaseEpoch < epoch
    ensures CallsAt(calls, epoch) == 0
  {
    if calls != [] { NoCallsAbove(calls[..|calls| - 1], epoch); }
  }

  /** While an operator holds the session the handoff counts exactly the calls
      made under that hold. */
  ghost predicate Counted(b: BrokerValue) {
    && (forall c | c in b.dispatched :: c.leaseEpoch <= b.lease.epoch && c.leaseEpoch == c.expectedEpoch)
    && (b.lease.state == L.HumanControl && b.handoff.Some? ==>
          b.handoff.value.actions == CallsAt(b.dispatched, b.lease.epoch))
  }

  lemma StepKeepsCount(b: BrokerValue, op: Op)
    requires Agree(b) && Counted(b)
    ensures Counted(Step(b, op).0)
  {
    RefusedCallsChangeNothing(b, op);
    var b' := Step(b, op).0;
    if op.DoHuman? || op.DoConfirm? {
      if b' != b {
        assert b'.dispatched[..|b'.dispatched| - 1] == b.dispatched;
      }
    } else if op.DoClaim? && b' != b {
      NoCallsAbove(b.dispatched, b'.lease.epoch);
    }
  }

  /** What a release files is the full count: an operator's action is never
      dispatched without being on the record that stays. */
  lemma {:induction false} ReleaseFilesEveryAction(ops: seq<Op>, release: Op)
    requires AllFresh(Initial, ops) && release.DoRelease?
    ensures var b := Run(Initial, ops);
            var b' := Step(b, release).0;
            Step(b, release).1.Ok? ==>
              && b.handoff.Some? && b.handoff.value.interventionId in b'.requests
              && b'.requests[b.handoff.value.interventionId].humanActions == CallsAt(b.dispatched, b.lease.epoch)
              && b'.requests[b.handoff.value.interventionId].humanDelta == DeltaOf(b.handoff.value, release.after)
  {
    InitiallyAgree();
    CountedThroughout(Initial, ops);
    var b := Run(Initial, ops);
    RefusedCallsChangeNothing(b, release);
    if Step(b, release).1.Ok? {
      assert b.handoff.value.interventionId in Unresolved(b.requests);
    }
  }

  lemma {:induction false} CountedThroughout(b: BrokerValue, ops: seq<Op>)
    requires Agree(b) && Counted(b) && AllFresh(b, ops)
    ensures Agree(Run(b, ops)) && Counted(Run(b, ops))
    decreases |ops|
  {
    if ops != [] {
      StepKeepsAgreement(b, ops[0]);
      StepKeepsCount(b, ops[0]);
      CountedThroughout(Step(b, ops[0]).0, ops[1..]);
    }
  }
}
