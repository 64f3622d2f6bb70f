/** What a claim gives an operator, and what stays on record of a visit: stated in the
    terms of the calls made. */
module HandoverLaws {
  import opened Outcomes
  import opened Snapshots
  import opened Reanchor
  import opened Broker
  import opened BrokerLaws
  import L = Leases
  import I = Interventions

  // ---------------------------------------------------------------- how long a hold lasts

  lemma {:induction false} EpochsOnlyGrow(b: BrokerValue, ops: seq<Op>)
    requires Agree(b) && AllFresh(b, ops)
    ensures Run(b, ops).lease.epoch >= b.lease.epoch
    ensures Run(b, ops).lease.epoch == b.lease.epoch ==> Run(b, ops).lease == b.lease
    decreases |ops|
  {
    hide Step, Agree, Fresh;
    if ops != [] {
      StepKeepsAgreement(b, ops[0]);
      EveryCallIsOneTransitionOrNone(b, ops[0]);
      EpochsOnlyGrow(Step(b, ops[0]).0, ops[1..]);
    }
  }

  /** However a call of an operator's comes out, control stays where it is. */
  lemma {:induction false} ActingKeepsTheHold(b: BrokerValue, acts: seq<Op>)
    requires Agree(b) && forall act | act in acts :: act.DoHuman? || act.DoConfirm?
    ensures AllFresh(b, acts) && Run(b, acts).lease == b.lease && Agree(Run(b, acts))
    decreases |acts|
  {
    if acts != [] {
      hide Agree, Run, AllFresh;
      assert acts[0] in acts;
      StepKeepsAgreement(b, acts[0]);
      assert Step(b, acts[0]).0.lease == b.lease;
      assert forall act | act in acts[1..] :: act in acts;
      ActingKeepsTheHold(Step(b, acts[0]).0, acts[1..]);
      OneAtATime(b, acts);
    }
  }

  lemma OneAtATime(b: BrokerValue, ops: seq<Op>)
    requires ops != []
    ensures Run(b, ops) == Run(Step(b, ops[0]).0, ops[1..])
    ensures AllFresh(b, ops) <==> Fresh(b, ops[0]) && AllFresh(Step(b, ops[0]).0, ops[1..])
  {
  }

  /** A session claimed at `now` for `holdFor` is the operator's until `now + holdFor`
      and not a moment longer, whatever else was asked of the broker since, as long as
      control has not moved: before that instant their calls go through, and reach the
      driver, and no sweep takes the session; from it on none does, and any sweep does. */
  lemma {:induction false} AHoldLastsAsLongAsClaimed(b: BrokerValue, claim: Op, since: seq<Op>, rawInput: bool, t: int,
                                                     later: int)
    requires Agree(b) && claim.DoClaim? && Step(b, claim).1.Ok? && t <= later
    requires AllFresh(Step(b, claim).0, since)
    requires Run(Step(b, claim).0, since).lease.epoch == Step(b, claim).0.lease.epoch
    ensures var held, end := Run(Step(b, claim).0, since), claim.now + claim.holdFor;
            && (Step(held, DoHuman(rawInput, t)).1.Ok? <==> t < end)
            && (Step(held, DoConfirm(t)).1.Ok? <==> t < end)
            && |Step(held, DoHuman(rawInput, t)).0.dispatched| == |held.dispatched| + (if t < end then 1 else 0)
            && |Step(held, DoConfirm(t)).0.dispatched| == |held.dispatched| + (if t < end then 1 else 0)
            && (Step(held, DoSweep(t, later)).0.lease.state == L.Paused <==> t >= end)
            && (t < end ==> Step(held, DoSweep(t, later)).0 == held)
  {
    var claimed := Step(b, claim).0;
    StepKeepsAgreement(b, claim);
    RefusedCallsChangeNothing(b, claim);
    EpochsOnlyGrow(claimed, since);
    ReachableStatesAgree(claimed, since);
    var held := Run(claimed, since);
    assert held.lease == claimed.lease;
    hide Run, AllFresh;
    RefusedCallsChangeNothing(held, DoHuman(rawInput, t));
    RefusedCallsChangeNothing(held, DoConfirm(t));
    RefusedCallsChangeNothing(held, DoSweep(t, later));
  }

  // ---------------------------------------------------------------- what stays on record

  /** The calls made before the hold ran out. */
  function Admitted(acts: seq<Op>, end: int): seq<Op> {
    if acts == [] then []
    else Admitted(acts[..|acts| - 1], end) + if At(acts[|acts| - 1]) < end then [acts[|acts| - 1]] else []
  }

  /** What reached the driver since is these calls, in order, each at this epoch and marked
      as a confirmation if it was one. */
  ghost predicate Reached(before: seq<HumanDispatch>, after: seq<HumanDispatch>, calls: seq<Op>, epoch: int) {
    && |after| == |before| + |calls| && before <= after
    && forall i | 0 <= i < |calls| :: after[|before| + i] == HumanDispatch(epoch, epoch, calls[i].DoConfirm?)
  }

  lemma {:induction false} InTurn(b: BrokerValue, first: seq<Op>, rest: seq<Op>)
    ensures Run(b, first + rest) == Run(Run(b, first), rest)
    ensures AllFresh(b, first + rest) <==> AllFresh(b, first) && AllFresh(Run(b, first), rest)
    decreases |first|
  {
    hide Step, Fresh;
    if first == [] {
      assert first + rest == rest;
    } else {
      assert (first + rest)[1..] == first[1..] + rest;
      InTurn(Step(b, first[0]).0, first[1..], rest);
    }
  }

  /** A claimed session: whose request, since which snapshot, how many calls so far. */
  ghost predicate HeldBy(b: BrokerValue, id: string, request: I.Request, before: Option<UiSnapshot>, actions: int,
                         end: int)
  {
    && b.lease.state == L.HumanControl && b.lease.holder == L.Human && b.lease.expiresAt == Some(end)
    && id in b.requests && b.requests[id] == request && request.state == I.ClaimedBy && request.operator.Some?
    && b.lease.operator == request.operator
    && b.handoff == Some(HandoffRecord(id, request.operator.value, actions, None, before, None))
  }

  lemma {:induction false} ActingIsCounted(b: BrokerValue, id: string, request: I.Request, before: Option<UiSnapshot>,
                                           end: int, acts: seq<Op>)
    requires HeldBy(b, id, request, before, 0, end) && forall act | act in acts :: act.DoHuman? || act.DoConfirm?
    ensures AllFresh(b, acts)
    ensures var n, after := Admitted(acts, end), Run(b, acts);
            && HeldBy(after, id, request, before, |n|, end)
            && after.lease == b.lease && after.requests == b.requests
            && Reached(b.dispatched, after.dispatched, n, b.lease.epoch)
  {
    hide HeldBy, Step, Fresh;
    if acts == [] {
      assert Reached(b.dispatched, b.dispatched, [], b.lease.epoch);
    } else {
      var n := |acts| - 1;
      var front, last := acts[..n], acts[n];
      assert acts == front + [last] && last in acts && forall act | act in front :: act in acts;
      ActingIsCounted(b, id, request, before, end, front);
      var acted := Run(b, front);
      InTurn(b, front, [last]);
      OneCall(acted, last);
      OneActIsCounted(acted, id, request, before, |Admitted(front, end)|, end, last);
      hide Admitted, Run, AllFresh;
      OneMoreReached(b.dispatched, acted.dispatched, Admitted(front, end), b.lease.epoch, last);
    }
  }

  lemma {:induction false} OneActIsCounted(b: BrokerValue, id: string, request: I.Request, before: Option<UiSnapshot>,
                                           n: int, end: int, act: Op)
    requires HeldBy(b, id, request, before, n, end) && (act.DoHuman? || act.DoConfirm?)
    ensures Fresh(b, act)
    ensures var after, epoch := Step(b, act).0, b.lease.epoch;
            && HeldBy(after, id, request, before, if At(act) < end then n + 1 else n, end)
            && after.lease == b.lease && after.requests == b.requests
            && after.dispatched == if At(act) < end then b.dispatched + [HumanDispatch(epoch, epoch, act.DoConfirm?)]
                                   else b.dispatched
  {
  }

  lemma OneMoreReached(before: seq<HumanDispatch>, after: seq<HumanDispatch>, calls: seq<Op>, epoch: int, act: Op)
    requires Reached(before, after, calls, epoch)
    ensures Reached(before, after + [HumanDispatch(epoch, epoch, act.DoConfirm?)], calls + [act], epoch)
    ensures calls + [] == calls
  {
  }

  function TheVisit(id: string, operator: string, at: int, now: int, holdFor: int, acts: seq<Op>,
                    after: Option<UiSnapshot>, releasedAt: int): seq<Op>
  {
    [DoClaim(id, operator, at, now, holdFor)] + acts + [DoRelease(after, releasedAt)] + [DoResume]
  }

  /** What a request holds once somebody claimed it. */
  function Asked(runId: string, reason: string, operator: string, at: int): I.Request {
    I.Request(runId, reason, I.ClaimedBy, Some(operator), Some(at), None, 0, None, "")
  }

  lemma {:induction false} AskedAndClaimed(b: BrokerValue, id: string, runId: string, reason: string,
                                           before: Option<UiSnapshot>, operator: string, at: int, now: int,
                                           holdFor: int)
    requires Agree(b) && b.lease.state == L.Running && id !in b.requests && L.Representable(now + holdFor)
    ensures var claimed := Step(Step(b, DoEscalate(id, runId, reason, before)).0,
                                DoClaim(id, operator, at, now, holdFor)).0;
            var request := Asked(runId, reason, operator, at);
            && HeldBy(claimed, id, request, before, 0, now + holdFor)
            && claimed.requests == b.requests[id := request]
            && claimed.lease.epoch == b.lease.epoch + 2 && claimed.dispatched == b.dispatched
            && claimed.lease.history == b.lease.history + [L.HistoryEntry(b.lease.epoch + 1, L.Paused, reason)]
                                        + [L.HistoryEntry(b.lease.epoch + 2, L.HumanControl, "claimed by " + operator)]
  {
  }

  function DeltaBetween(before: Option<UiSnapshot>, after: Option<UiSnapshot>): Option<HumanDelta> {
    if before.Some? && after.Some? then Some(DiffSnapshots(before.value, after.value)) else None
  }

  lemma {:induction false} ReleasedOnRecord(b: BrokerValue, id: string, request: I.Request, before: Option<UiSnapshot>,
                                            n: int, end: int, after: Option<UiSnapshot>, releasedAt: int)
    requires HeldBy(b, id, request, before, n, end)
    ensures var released := Step(b, DoRelease(after, releasedAt)).0;
            && released.lease.state == L.Resuming && released.lease.epoch == b.lease.epoch + 1
            && released.lease.history
               == b.lease.history + [L.HistoryEntry(b.lease.epoch + 1, L.Resuming,
                                                    "released by " + request.operator.value)]
            && released.handoff.Some? && released.handoff.value.interventionId == id
            && released.dispatched == b.dispatched
            && released.requests == b.requests[id := request.(
                 state := I.HandedBack, releasedAt := Some(releasedAt), humanActions := n,
                 humanDelta := DeltaBetween(before, after))]
  {
    hide DiffSnapshots;
  }

  lemma {:induction false} ResumedOnRecord(b: BrokerValue, id: string)
    requires b.lease.state == L.Resuming && id in b.requests
    requires b.handoff.Some? && b.handoff.value.interventionId == id
    ensures var resumed := Step(b, DoResume).0;
            && resumed.lease.state == L.Running && resumed.lease.holder == L.Automation
            && resumed.lease.epoch == b.lease.epoch + 1 && resumed.dispatched == b.dispatched
            && resumed.lease.history == b.lease.history + [L.HistoryEntry(b.lease.epoch + 1, L.Running, "resumed")]
            && resumed.requests == b.requests[id := b.requests[id].(state := I.Resolved, note := "automation resumed")]
  {
  }

  lemma {:induction false} TheVisitRuns(b: BrokerValue, escalate: Op, claim: Op, acts: seq<Op>, release: Op)
    requires Fresh(b, escalate) && claim.DoClaim? && release.DoRelease?
    ensures var ops, claimed := [escalate] + ([claim] + acts + [release] + [DoResume]),
                Step(Step(b, escalate).0, claim).0;
            && (AllFresh(claimed, acts) ==> AllFresh(b, ops))
            && Run(b, ops) == Step(Step(Run(claimed, acts), release).0, DoResume).0
  {
    var asked := Step(b, escalate).0;
    var acted := Run(Step(asked, claim).0, acts);
    var released := Step(acted, release).0;
    assert Fresh(asked, claim) && Fresh(acted, release) && Fresh(released, DoResume);
    hide Run, AllFresh, Step, Fresh;
    OneCall(b, escalate);
    OneCall(asked, claim);
    OneCall(acted, release);
    OneCall(released, DoResume);
    InTurn(asked, [claim], acts);
    InTurn(asked, [claim] + acts, [release]);
    InTurn(asked, [claim] + acts + [release], [DoResume]);
    InTurn(b, [escalate], [claim] + acts + [release] + [DoResume]);
  }

  /** Why control moved, and when: the four moves of a visit. */
  function History(epoch: int, reason: string, operator: string): seq<L.HistoryEntry> {
    [L.HistoryEntry(epoch + 1, L.Paused, reason),
     L.HistoryEntry(epoch + 2, L.HumanControl, "claimed by " + operator),
     L.HistoryEntry(epoch + 3, L.Resuming, "released by " + operator),
     L.HistoryEntry(epoch + 4, L.Running, "resumed")]
  }

  /** A visit from end to end. A run asks for a person; somebody claims the request, acts,
      releases and the run is resumed. The request stays on record with what was asked,
      who came and when, how many of their calls came before the hold ran out, and the
      difference between the screen the run stopped at and the one they left; exactly
      those calls reached the driver, in order and all at the one epoch of the hold; and
      automation has the session again four epochs on, each of them in the history with
      the reason for it. */
  lemma {:induction false} TheVisitIsOnRecord(b: BrokerValue, id: string, runId: string, reason: string,
                                              before: Option<UiSnapshot>, operator: string, at: int, now: int,
                                              holdFor: int, acts: seq<Op>, after: Option<UiSnapshot>, releasedAt: int)
    requires Agree(b) && b.lease.state == L.Running && id !in b.requests && L.Representable(now + holdFor)
    requires forall act | act in acts :: act.DoHuman? || act.DoConfirm?
    ensures var ops := [DoEscalate(id, runId, reason, before)]
                       + TheVisit(id, operator, at, now, holdFor, acts, after, releasedAt);
            var end, n := Run(b, ops), Admitted(acts, now + holdFor);
            && AllFresh(b, ops)
            && end.lease.state == L.Running && end.lease.holder == L.Automation && end.lease.epoch == b.lease.epoch + 4
            && end.requests == b.requests[id := I.Request(
                 runId, reason, I.Resolved, Some(operator), Some(at), Some(releasedAt), |n|,
                 DeltaBetween(before, after), "automation resumed")]
            && Reached(b.dispatched, end.dispatched, n, b.lease.epoch + 2)
            && end.lease.history == b.lease.history + History(b.lease.epoch, reason, operator)
  {
    var escalate, claim := DoEscalate(id, runId, reason, before), DoClaim(id, operator, at, now, holdFor);
    var release := DoRelease(after, releasedAt);
    var claimed := Step(Step(b, escalate).0, claim).0;
    var request := Asked(runId, reason, operator, at);
    var n := Admitted(acts, now + holdFor);
    hide Admitted, Run, AllFresh, Step, Agree, DiffSnapshots;
    AskedAndClaimed(b, id, runId, reason, before, operator, at, now, holdFor);
    TheVisitRuns(b, escalate, claim, acts, release);
    ActingIsCounted(claimed, id, request, before, now + holdFor, acts);
    var acted := Run(claimed, acts);
    ReleasedOnRecord(acted, id, request, before, |n|, now + holdFor, after, releasedAt);
    hide HeldBy;
    ResumedOnRecord(Step(acted, release).0, id);
  }

  /** A hold that ran out leaves its request abandoned, with who held it and for what, and
      ready to be claimed again; the session is nobody's, and nothing was done to it. */
  lemma {:induction false} ASweptHoldIsOnRecord(b: BrokerValue, id: string, request: I.Request,
                                                before: Option<UiSnapshot>, n: int, end: int, now: int, later: int)
    requires Agree(b) && HeldBy(b, id, request, before, n, end) && end <= now <= later
    ensures var swept := Step(b, DoSweep(now, later)).0;
            && swept.lease.state == L.Paused && swept.lease.holder == L.System && swept.lease.operator.None?
            && swept.lease.history == b.lease.history + [L.HistoryEntry(b.lease.epoch + 1, L.Paused, "hold expired")]
            && swept.requests == b.requests[id := request.(state := I.Abandoned, note := "hold expired")]
            && swept.dispatched == b.dispatched && swept.handoff.None?
  {
  }

  /** A refused call says what stood in its way. */
  lemma {:induction false} RefusalsSayWhy(b: BrokerValue, op: Op)
    requires Agree(b) && Step(b, op).1.Err?
    ensures var e, state := Step(b, op).1.error, b.lease.state;
            match op
            case DoEscalate(_, _, _, _) => state != L.Running && e == LeaseRefused(L.WrongState(state))
            case DoClaim(id, _, _, now, holdFor) =>
              if id !in b.requests then e == QueueRefused(I.NoSuchIntervention(id))
              else if b.requests[id].state != I.Open && b.requests[id].state != I.Abandoned then
                e == QueueRefused(I.NotOpen(b.requests[id].state))
              else if state != L.Paused then e == LeaseRefused(L.WrongState(state))
              else !L.Representable(now + holdFor) && e == LeaseRefused(L.ClockOverflow)
            case DoHuman(_, _) =>
              e == if state != L.HumanControl then NoOperatorHolds(state) else LeaseRefused(L.HoldExpired)
            case DoConfirm(_) =>
              e == LeaseRefused(if state != L.HumanControl then L.NotTheHolder(b.lease.holder) else L.HoldExpired)
            case DoRelease(_, _) =>
              e == if b.handoff.None? then NoHandoff else LeaseRefused(L.WrongState(state))
            case DoSweep(_, _) => e == LeaseRefused(L.NotExpired)
            case DoResume => state != L.Resuming && e == LeaseRefused(L.WrongState(state))
  {
  }

  /** Whatever the state of things, a call of an operator's goes through only under a
      person's unexpired hold, and a raw gesture only where there is a hand-over to count
      it in. */
  lemma {:induction false} ActingTakesAHold(b: BrokerValue, rawInput: bool, now: int)
    ensures var lasting := b.lease.expiresAt.None? || now < b.lease.expiresAt.value;
            && (Step(b, DoHuman(rawInput, now)).1.Ok? <==>
                  && b.lease.state == L.HumanControl && b.lease.holder == L.Human && lasting
                  && (rawInput ==> b.handoff.Some?))
            && (Step(b, DoConfirm(now)).1.Ok? <==> b.lease.holder == L.Human && lasting)
  {
  }
}
