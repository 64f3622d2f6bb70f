/** The two readings of a trace agree with what the driver was asked to do. */
module EvidenceLaws {
  import opened Outcomes
  import opened Evidence
  import L = Leases

  // ---------------------------------------------------------------- runs piece by piece

  /** The attempts that got through to the driver, in order. */
  function Dispatching(acts: seq<Activity>): seq<Attempt> {
    if acts == [] then []
    else (if acts[0].Attempts? && ReachesDriver(acts[0].a) then [acts[0].a] else []) + Dispatching(acts[1..])
  }

  function CallOf(a: Attempt): DriverCall {
    DriverCall(a.decisionId, a.action, a.actor, a.epoch, Node(a))
  }

  lemma {:induction false} CallsAreTheDispatching(acts: seq<Activity>)
    ensures |Calls(acts)| == |Dispatching(acts)|
    ensures forall k | 0 <= k < |Calls(acts)| :: Calls(acts)[k] == CallOf(Dispatching(acts)[k])
  {
    if acts != [] { CallsAreTheDispatching(acts[1..]); }
  }

  lemma Reassociate<T>(a: seq<T>, b: seq<T>, c: seq<T>)
    ensures a + (b + c) == (a + b) + c
  {
  }

  lemma {:induction false} TraceInTurn(first: seq<Activity>, rest: seq<Activity>)
    ensures Trace(first + rest) == Trace(first) + Trace(rest)
    ensures Dispatching(first + rest) == Dispatching(first) + Dispatching(rest)
  {
    if first == [] {
      assert first + rest == rest;
    } else {
      hide Trace, Dispatching, Left, Through;
      assert (first + rest)[1..] == first[1..] + rest;
      TraceInTurn(first[1..], rest);
      ActByAct(first);
      ActByAct(first + rest);
      Reassociate(Left(first[0]), Trace(first[1..]), Trace(rest));
      Reassociate(Through(first[0]), Dispatching(first[1..]), Dispatching(rest));
    }
  }

  lemma {:induction false} ProjectInTurn(granted: map<string, string>, c: Cursor, first: seq<Event>, rest: seq<Event>)
    ensures Project(granted, c, first + rest) == Project(granted, Project(granted, c, first), rest)
    decreases |first|
  {
    hide Advance;
    if first == [] {
      assert first + rest == rest;
    } else {
      assert (first + rest)[1..] == first[1..] + rest;
      ProjectInTurn(granted, Advance(granted, c, first[0]), first[1..], rest);
    }
  }

  // ---------------------------------------------------------------- nothing unauthorized

  ghost predicate AuthorizedBefore(events: seq<Event>, i: nat)
    requires i < |events|
  {
    events[i].Dispatch? && !events[i].refused ==>
      events[i].under.Some?
      && exists j :: 0 <= j < i && events[j].Authorize? && events[j].granted
                     && events[j].decisionId == events[i].under.value
  }

  lemma {:induction false} AttemptsAuthorizeFirst(a: Attempt)
    ensures forall i | 0 <= i < |Traced(a)| :: AuthorizedBefore(Traced(a), i)
  {
    var events, n := Traced(a), |Looked(a)|;
    if ReachesDriver(a) {
      assert events[n] == Authorize(a.decisionId, true, a.reason);
    }
  }

  /** Every dispatch that reached the surface stands in the trace after a granted
      authorization with its own decision. */
  lemma {:induction false} DispatchesFollowTheirAuthorization(acts: seq<Activity>)
    requires OnlyDispatchersDispatch(acts)
    ensures forall i | 0 <= i < |Trace(acts)| :: AuthorizedBefore(Trace(acts), i)
  {
    hide Traced, AuthorizedBefore;
    if acts != [] {
      assert acts[0] in acts && forall act | act in acts[1..] :: act in acts;
      DispatchesFollowTheirAuthorization(acts[1..]);
      var first := match acts[0] case Attempts(a) => Traced(a) case Records(event) => [event];
      var rest := Trace(acts[1..]);
      assert Trace(acts) == first + rest;
      match acts[0] {
        case Attempts(a) => AttemptsAuthorizeFirst(a);
        case Records(event) => RecordsNeedNone(event);
      }
      forall i | 0 <= i < |first + rest| ensures AuthorizedBefore(first + rest, i) {
        if i < |first| {
          AuthorizedStill(first, rest, i);
        } else {
          StillAuthorized(first, rest, i - |first|);
        }
      }
    }
  }

  lemma RecordsNeedNone(event: Event)
    requires !event.Dispatch?
    ensures AuthorizedBefore([event], 0)
  {
  }

  lemma AuthorizedStill(first: seq<Event>, rest: seq<Event>, i: nat)
    requires i < |first| && AuthorizedBefore(first, i)
    ensures AuthorizedBefore(first + rest, i)
  {
    var events := first + rest;
    assert events[i] == first[i];
    if first[i].Dispatch? && !first[i].refused {
      var j :| 0 <= j < i && first[j].Authorize? && first[j].granted && first[j].decisionId == first[i].under.value;
      assert events[j] == first[j];
    }
  }

  lemma StillAuthorized(first: seq<Event>, rest: seq<Event>, i: nat)
    requires i < |rest| && AuthorizedBefore(rest, i)
    ensures AuthorizedBefore(first + rest, |first| + i)
  {
    var events := first + rest;
    assert events[|first| + i] == rest[i];
    if rest[i].Dispatch? && !rest[i].refused {
      var j :| 0 <= j < i && rest[j].Authorize? && rest[j].granted && rest[j].decisionId == rest[i].under.value;
      assert events[|first| + j] == rest[j];
    }
  }

  /** What the bus looks for, it never finds. */
  lemma {:induction false} TheBusFindsNothing(acts: seq<Activity>)
    requires OnlyDispatchersDispatch(acts)
    ensures UnauthorizedDispatches(Trace(acts)) == []
  {
    var events := Trace(acts);
    DispatchesFollowTheirAuthorization(acts);
    forall e | e in events && e.Dispatch? && !e.refused ensures e.under.Some? && e.under.value in GrantedIds(events) {
      var i :| 0 <= i < |events| && events[i] == e;
      assert AuthorizedBefore(events, i);
      var j :| 0 <= j < i && events[j].Authorize? && events[j].granted && events[j].decisionId == e.under.value;
      assert events[j] in events;
    }
  }

  // ---------------------------------------------------------------- the record

  /** The step an attempt leaves in the record. */
  ghost predicate IsStepOf(step: StepRecord, a: Attempt, index: nat) {
    && step.index == index && step.action == a.action && step.actor == a.actor && step.epoch == a.epoch
    && step.authorized && step.decision == Some(a.reason)
  }

  ghost predicate GrantsAll(granted: map<string, string>, dispatching: seq<Attempt>) {
    forall k | 0 <= k < |dispatching| ::
      && dispatching[k].decisionId != "" && dispatching[k].decisionId in granted
      && granted[dispatching[k].decisionId] == dispatching[k].reason
  }

  function OwnResolution(a: Attempt): Option<Option<string>> {
    if a.hit.Some? then Some(a.hit) else a.target
  }

  function PendingNode(c: Cursor): Option<Option<string>> {
    if c.pending.Some? && c.pending.value.Resolve? then Some(c.pending.value.node) else None
  }

  /** What one attempt does to the fold. */
  lemma {:induction false} AttemptAdvances(granted: map<string, string>, c: Cursor, a: Attempt)
    requires ReachesDriver(a) ==> GrantsAll(granted, [a])
    ensures var out := Project(granted, c, Traced(a));
            if ReachesDriver(a) then
              && |out.steps| == |c.steps| + 1 && out.steps[..|c.steps|] == c.steps
              && IsStepOf(out.steps[|c.steps|], a, |c.steps|) && out.pending.None?
              && out.steps[|c.steps|].resolution
                 == (if OwnResolution(a).Some? then OwnResolution(a) else PendingNode(c))
            else
              && out.steps == c.steps
              && (PendingNode(out) == if !Stale(a) && Looked(a) != [] then LookedNode(a) else PendingNode(c))
              && (out.pending == c.pending || (out.pending.Some? && out.pending.value.Resolve?))
  {
    var looked := Looked(a);
    LookingAdvances(granted, c, a);
    if Stale(a) {
      assert Traced(a)[1..] == [];
    } else if !ReachesPolicy(a) {
    } else {
      ProjectInTurn(granted, c, looked, Decided(a));
      var seen := Project(granted, c, looked);
      assert Decided(a)[0] == Authorize(a.decisionId, a.decision.Allowed?, a.reason);
      var after := Decided(a)[1..];
      assert Project(granted, seen, Decided(a)) == Project(granted, seen, after);
      if ReachesDriver(a) {
        assert [a][0] == a;
        var e := Dispatch(Some(a.decisionId), false, a.action, a.actor, a.epoch, a.ok);
        assert after == [e] + if a.leftAllowlist then [Remark] else [];
        var moved := Advance(granted, seen, e);
        assert Project(granted, seen, after) == Project(granted, moved, after[1..]);
        assert after[1..] == if a.leftAllowlist then [Remark] else [];
        assert a.leftAllowlist ==> after[1..][1..] == [];
        assert Project(granted, moved, after[1..]) == moved;
      } else {
        assert after == [];
      }
    }
  }

  /** What looking for the target leaves pending. */
  function LookedNode(a: Attempt): Option<Option<string>> {
    if a.target == Some(None) then Some(None) else OwnResolution(a)
  }

  lemma {:induction false} LookingAdvances(granted: map<string, string>, c: Cursor, a: Attempt)
    ensures var out := Project(granted, c, Looked(a));
            && out == c.(pending := out.pending)
            && (PendingNode(out) == if Looked(a) != [] then LookedNode(a) else PendingNode(c))
            && (out.pending == c.pending || (out.pending.Some? && out.pending.value.Resolve?))
            && (Looked(a) == [] ==> out.pending == c.pending)
  {
    var looked := Looked(a);
    if looked != [] {
      var c1 := Advance(granted, c, looked[0]);
      assert Project(granted, c, looked) == Project(granted, c1, looked[1..]);
      if |looked| == 2 {
        assert looked[1..][1..] == [];
        assert Project(granted, c1, looked[1..]) == Advance(granted, c1, looked[1]);
      }
    }
  }

  /** The steps of `out` after those of `before` are those of the attempts, in order. */
  ghost predicate Extends(out: seq<StepRecord>, before: seq<StepRecord>, through: seq<Attempt>) {
    && |out| == |before| + |through| && out[..|before|] == before
    && forall k | 0 <= k < |through| :: IsStepOf(out[|before| + k], through[k], |before| + k)
  }

  lemma ExtendsInTurn(out: seq<StepRecord>, between: seq<StepRecord>, before: seq<StepRecord>, head: seq<Attempt>,
                      rest: seq<Attempt>)
    requires Extends(between, before, head) && Extends(out, between, rest)
    ensures Extends(out, before, head + rest)
  {
    hide IsStepOf;
    assert out[..|before|] == out[..|between|][..|before|];
    forall k | 0 <= k < |head + rest| ensures IsStepOf(out[|before| + k], (head + rest)[k], |before| + k) {
      if k < |head| {
        assert out[|before| + k] == out[..|between|][|before| + k];
      } else {
        assert IsStepOf(out[|between| + (k - |head|)], rest[k - |head|], |between| + (k - |head|));
      }
    }
  }

  /** What one activity adds to the trace, and whether it is an attempt that got through. */
  function Left(act: Activity): seq<Event> {
    match act case Attempts(a) => Traced(a) case Records(event) => [event]
  }

  function Through(act: Activity): seq<Attempt> {
    if act.Attempts? && ReachesDriver(act.a) then [act.a] else []
  }

  lemma ActByAct(acts: seq<Activity>)
    requires acts != []
    ensures Trace(acts) == Left(acts[0]) + Trace(acts[1..])
    ensures Dispatching(acts) == Through(acts[0]) + Dispatching(acts[1..])
    ensures OnlyDispatchersDispatch(acts) ==>
              && OnlyDispatchersDispatch(acts[1..])
              && (acts[0].Records? ==> !acts[0].event.Dispatch? && !acts[0].event.Authorize?)
  {
    assert acts[0] in acts && forall act | act in acts[1..] :: act in acts;
  }

  lemma GrantsSplit(granted: map<string, string>, head: seq<Attempt>, rest: seq<Attempt>)
    ensures GrantsAll(granted, head + rest) <==> GrantsAll(granted, head) && GrantsAll(granted, rest)
  {
    var all := head + rest;
    if GrantsAll(granted, all) {
      assert forall k | 0 <= k < |head| :: all[k] == head[k];
      assert forall k | 0 <= k < |rest| :: all[|head| + k] == rest[k];
    }
  }

  lemma ActAdvances(granted: map<string, string>, c: Cursor, act: Activity)
    requires GrantsAll(granted, Through(act)) && (act.Records? ==> !act.event.Dispatch?)
    ensures Extends(Project(granted, c, Left(act)).steps, c.steps, Through(act))
  {
    hide Traced, Advance, Project;
    match act
    case Attempts(a) => AttemptAdvances(granted, c, a);
    case Records(event) => RecordingAddsNoStep(granted, c, event);
  }

  lemma {:induction false} ActsAdvance(granted: map<string, string>, c: Cursor, acts: seq<Activity>)
    requires OnlyDispatchersDispatch(acts) && GrantsAll(granted, Dispatching(acts))
    ensures Extends(Project(granted, c, Trace(acts)).steps, c.steps, Dispatching(acts))
    decreases |acts|
  {
    if acts == [] {
      NothingProjected(granted, c);
    } else {
      hide Trace, Dispatching, Left, Through, Extends, Project, GrantsAll, OnlyDispatchersDispatch;
      var act, rest := acts[0], acts[1..];
      ActByAct(acts);
      GrantsSplit(granted, Through(act), Dispatching(rest));
      ProjectInTurn(granted, c, Left(act), Trace(rest));
      var between := Project(granted, c, Left(act));
      ActAdvances(granted, c, act);
      ActsAdvance(granted, between, rest);
      ExtendsInTurn(Project(granted, c, Trace(acts)).steps, between.steps, c.steps, Through(act), Dispatching(rest));
    }
  }

  lemma NothingProjected(granted: map<string, string>, c: Cursor)
    ensures Project(granted, c, []) == c
  {
  }

  lemma RecordingAddsNoStep(granted: map<string, string>, c: Cursor, event: Event)
    requires !event.Dispatch?
    ensures Project(granted, c, [event]) == Advance(granted, c, event) && Advance(granted, c, event).steps == c.steps
  {
    assert [event][1..] == [];
  }

  // ---------------------------------------------------------------- who granted what

  lemma {:induction false} GrantedInTurn(first: seq<Event>, rest: seq<Event>)
    ensures Granted(first + rest) == Granted(first) + Granted(rest)
  {
    if rest == [] {
      assert first + rest == first;
    } else {
      assert (first + rest)[..|first + rest| - 1] == first + rest[..|rest| - 1];
      GrantedInTurn(first, rest[..|rest| - 1]);
    }
  }

  lemma {:induction false} AttemptGrants(a: Attempt)
    ensures Granted(Traced(a)) ==
              if ReachesDriver(a) && a.decisionId != "" then map[a.decisionId := a.reason] else map[]
  {
    hide Granted, Looked, Decided;
    LookingGrantsNothing(a);
    if ReachesPolicy(a) {
      GrantedInTurn(Looked(a), Decided(a));
      DecisionGrants(a);
    } else if Stale(a) {
      GrantsNothing(Traced(a));
    }
  }

  lemma LookingGrantsNothing(a: Attempt)
    ensures Granted(Looked(a)) == map[]
  {
    hide Granted;
    GrantsNothing(Looked(a));
  }

  lemma DecisionGrants(a: Attempt)
    ensures Granted(Decided(a)) ==
              if a.decision.Allowed? && a.decisionId != "" then map[a.decisionId := a.reason] else map[]
  {
    var own := Authorize(a.decisionId, a.decision.Allowed?, a.reason);
    var rest := Decided(a)[1..];
    assert Decided(a) == [own] + rest;
    assert [own][..0] == [];
    assert Granted([own]) == if own.granted && own.decisionId != "" then map[own.decisionId := own.reason] else map[];
    hide Granted;
    GrantedInTurn([own], rest);
    GrantsNothing(rest);
  }

  lemma {:induction false} GrantsNothing(events: seq<Event>)
    requires forall i | 0 <= i < |events| :: !events[i].Authorize?
    ensures Granted(events) == map[]
  {
    if events != [] { GrantsNothing(events[..|events| - 1]); }
  }

  ghost predicate DecidedIn(acts: seq<Activity>, id: string) {
    exists i :: 0 <= i < |acts| && acts[i].Attempts? && acts[i].a.decisionId == id
  }

  /** With a decision of its own for each, what the trace grants an attempt is that
      attempt's own authorization. */
  lemma {:induction false} EachItsOwnGrant(acts: seq<Activity>)
    requires OnlyDispatchersDispatch(acts) && FreshDecisions(acts)
    ensures GrantsAll(Granted(Trace(acts)), Dispatching(acts))
    ensures forall id | id in Granted(Trace(acts)) :: DecidedIn(acts, id)
    ensures forall k | 0 <= k < |Dispatching(acts)| :: DecidedIn(acts, Dispatching(acts)[k].decisionId)
  {
    if acts == [] {
      GrantsNothing([]);
    } else {
      hide Granted, Dispatching, Trace, Left, Through, GrantsAll, OnlyDispatchersDispatch, DecidedIn, FreshDecisions;
      var act, rest := acts[0], acts[1..];
      ActByAct(acts);
      FreshRest(acts);
      EachItsOwnGrant(rest);
      GrantedInTurn(Left(act), Trace(rest));
      ActGrants(act);
      GrantsSplit(Granted(Trace(acts)), Through(act), Dispatching(rest));
      OwnGrants(acts, Granted(Left(act)), Granted(Trace(rest)), Through(act), Dispatching(rest));
    }
  }

  lemma FreshRest(acts: seq<Activity>)
    requires acts != [] && FreshDecisions(acts)
    ensures FreshDecisions(acts[1..])
    ensures acts[0].Attempts? ==> acts[0].a.decisionId != "" && !DecidedIn(acts[1..], acts[0].a.decisionId)
    ensures forall id | DecidedIn(acts[1..], id) :: DecidedIn(acts, id)
    ensures acts[0].Attempts? ==> DecidedIn(acts, acts[0].a.decisionId)
  {
    assert forall i | 0 <= i < |acts[1..]| :: acts[1..][i] == acts[i + 1];
  }

  lemma ActGrants(act: Activity)
    requires act.Records? ==> !act.event.Authorize?
    ensures Granted(Left(act)) ==
              if Through(act) != [] && act.a.decisionId != "" then map[act.a.decisionId := act.a.reason] else map[]
    ensures Through(act) == [] || (act.Attempts? && Through(act) == [act.a])
  {
    match act
    case Attempts(a) => AttemptGrants(a);
    case Records(event) => GrantsNothing([event]);
  }

  lemma OwnGrants(acts: seq<Activity>, own: map<string, string>, others: map<string, string>, head: seq<Attempt>,
                  rest: seq<Attempt>)
    requires acts != [] && FreshDecisions(acts)
    requires head == [] || (acts[0].Attempts? && head == [acts[0].a])
    requires own == if head != [] then map[acts[0].a.decisionId := acts[0].a.reason] else map[]
    requires GrantsAll(others, rest) && forall id | id in others :: DecidedIn(acts[1..], id)
    requires forall k | 0 <= k < |rest| :: DecidedIn(acts[1..], rest[k].decisionId)
    ensures GrantsAll(own + others, head) && GrantsAll(own + others, rest)
    ensures forall id | id in own + others :: DecidedIn(acts, id)
    ensures forall k | 0 <= k < |head + rest| :: DecidedIn(acts, (head + rest)[k].decisionId)
  {
    hide FreshDecisions, DecidedIn;
    FreshRest(acts);
  }

  /** The record lists one step for every driver call, in order, each authorized by the
      decision taken for it, and no others. */
  lemma {:induction false} TheRecordIsWhatTheDriverDid(acts: seq<Activity>)
    requires OnlyDispatchersDispatch(acts) && FreshDecisions(acts)
    ensures var steps, calls := RunSteps(Trace(acts)), Calls(acts);
            && |steps| == |calls| == |Dispatching(acts)|
            && forall k | 0 <= k < |steps| ::
                 && steps[k].index == k && steps[k].authorized && calls[k] == CallOf(Dispatching(acts)[k])
                 && IsStepOf(steps[k], Dispatching(acts)[k], k)
  {
    hide Traced, Granted, IsStepOf, GrantsAll, FreshDecisions, OnlyDispatchersDispatch;
    EachItsOwnGrant(acts);
    ActsAdvance(Granted(Trace(acts)), START, acts);
    CallsAreTheDispatching(acts);
    var steps, through := RunSteps(Trace(acts)), Dispatching(acts);
    forall k | 0 <= k < |steps|
      ensures IsStepOf(steps[k], through[k], k) && steps[k].index == k && steps[k].authorized
    {
      assert IsStepOf(steps[|START.steps| + k], through[k], |START.steps| + k);
      StepsSay(steps[k], through[k], k);
    }
  }

  lemma StepsSay(step: StepRecord, a: Attempt, index: nat)
    requires IsStepOf(step, a, index)
    ensures step.index == index && step.authorized
  {
  }

  // ---------------------------------------------------------------- which resolution a step gets

  /** The resolution still unclaimed after these activities: of the last attempt since
      a dispatch that looked for a target and then went no further. */
  function Unclaimed(acts: seq<Activity>): Option<Option<string>> {
    if acts == [] then None
    else
      var before, act := Unclaimed(acts[..|acts| - 1]), acts[|acts| - 1];
      if act.Records? then before
      else if ReachesDriver(act.a) then None
      else if !Stale(act.a) && Looked(act.a) != [] then LookedNode(act.a)
      else before
  }

  predicate OnlyAttemptsResolve(acts: seq<Activity>) {
    forall act | act in acts && act.Records? :: !act.event.Resolve?
  }

  lemma {:induction false} PendingIsTheUnclaimed(granted: map<string, string>, acts: seq<Activity>)
    requires OnlyDispatchersDispatch(acts) && OnlyAttemptsResolve(acts) && GrantsAll(granted, Dispatching(acts))
    ensures PendingNode(Project(granted, START, Trace(acts))) == Unclaimed(acts)
  {
    if acts == [] {
      NothingProjected(granted, START);
    } else {
      hide Granted, Traced, Project, Trace, Dispatching, Advance, GrantsAll;
      var front, act := acts[..|acts| - 1], acts[|acts| - 1];
      assert acts == front + [act] && act in acts && forall other | other in front :: other in acts;
      TraceInTurn(front, [act]);
      OnlyOne(act);
      GrantsSplit(granted, Dispatching(front), Through(act));
      PendingIsTheUnclaimed(granted, front);
      ProjectInTurn(granted, START, Trace(front), Left(act));
      var c := Project(granted, START, Trace(front));
      match act {
        case Attempts(a) => AttemptAdvances(granted, c, a);
        case Records(event) =>
          RecordingAddsNoStep(granted, c, event);
          RecordingResolvesNothing(granted, c, event);
      }
    }
  }

  lemma OnlyOne(act: Activity)
    ensures Trace([act]) == Left(act) && Dispatching([act]) == Through(act)
  {
    assert [act][1..] == [];
    assert Trace([act]) == Left(act) + Trace([]);
  }

  lemma RecordingResolvesNothing(granted: map<string, string>, c: Cursor, event: Event)
    requires !event.Dispatch? && !event.Resolve?
    ensures PendingNode(Advance(granted, c, event)) == PendingNode(c)
  {
  }

  /** A recorded step carries the resolution its own attempt made exactly when that
      attempt made one, or no attempt before it left one unclaimed: a step that needs
      no target, taken after one that was refused, is recorded with the refused one's. */
  lemma {:induction false} AResolutionIsItsOwnExactlyWhen(before: seq<Activity>, a: Attempt, after: seq<Activity>)
    requires var acts := before + [Attempts(a)] + after;
             OnlyDispatchersDispatch(acts) && OnlyAttemptsResolve(acts) && FreshDecisions(acts)
    requires ReachesDriver(a)
    ensures var steps, n := RunSteps(Trace(before + [Attempts(a)] + after)), |Calls(before)|;
            && n < |steps| && IsStepOf(steps[n], a, n)
            && (steps[n].resolution == OwnResolution(a) <==> OwnResolution(a).Some? || Unclaimed(before).None?)
  {
    hide Granted, Project, Trace, Dispatching, Traced, GrantsAll, FreshDecisions, IsStepOf, Extends,
           OnlyDispatchersDispatch,
         OnlyAttemptsResolve;
    var acts := before + [Attempts(a)] + after;
    var granted := Granted(Trace(acts));
    EachItsOwnGrant(acts);
    TraceInTurn(before + [Attempts(a)], after);
    TraceInTurn(before, [Attempts(a)]);
    OnlyOne(Attempts(a));
    GrantsSplit(granted, Dispatching(before) + [a], Dispatching(after));
    GrantsSplit(granted, Dispatching(before), [a]);
    PartsOnly(before, Attempts(a), after);
    PendingIsTheUnclaimed(granted, before);
    ProjectInTurn(granted, START, Trace(before) + Traced(a), Trace(after));
    ProjectInTurn(granted, START, Trace(before), Traced(a));
    var c := Project(granted, START, Trace(before));
    var moved := Project(granted, c, Traced(a));
    AttemptAdvances(granted, c, a);
    ActsAdvance(granted, START, before);
    CallsAreTheDispatching(before);
    ActsAdvance(granted, moved, after);
    KeptInFront(Project(granted, moved, Trace(after)).steps, moved.steps, Dispatching(after), |c.steps|);
    KeptInFront(c.steps, START.steps, Dispatching(before), 0);
  }

  lemma KeptInFront(out: seq<StepRecord>, before: seq<StepRecord>, through: seq<Attempt>, n: nat)
    requires Extends(out, before, through)
    ensures |out| == |before| + |through| && (n < |before| ==> out[n] == before[n])
  {
    hide IsStepOf;
    assert n < |before| ==> out[..|before|][n] == before[n];
  }

  lemma PartsOnly(before: seq<Activity>, act: Activity, after: seq<Activity>)
    ensures OnlyDispatchersDispatch(before + [act] + after) ==>
              OnlyDispatchersDispatch(before) && OnlyDispatchersDispatch(after)
    ensures OnlyAttemptsResolve(before + [act] + after) ==> OnlyAttemptsResolve(before) && OnlyAttemptsResolve(after)
  {
    var acts := before + [act] + after;
    assert forall other | other in before || other in after :: other in acts;
  }

  /** It does happen: a click on a node is refused, then the run navigates, which needs
      no target. The record has the one step, the navigation, with the node of the click
      that never was. */
  lemma {:induction false} ANavigationIsRecordedWithTheRefusedClicksNode(click: Attempt, go: Attempt, node: string)
    requires click.target == Some(Some(node)) && click.hit.None? && click.decision.Denied?
    requires go.action == "navigate" && go.target.None? && go.hit.None? && go.decision.Allowed?
    requires !Stale(click) && !Stale(go)
    requires click.decisionId != "" && go.decisionId != "" && click.decisionId != go.decisionId
    ensures var acts := [Attempts(click), Attempts(go)];
            var steps := RunSteps(Trace(acts));
            && Calls(acts) == [DriverCall(go.decisionId, "navigate", go.actor, go.epoch, None)]
            && |steps| == 1 && IsStepOf(steps[0], go, 0)
            && OwnResolution(go).None? && steps[0].resolution == Some(Some(node))
  {
    var acts := [Attempts(click), Attempts(go)];
    TwoAreFresh(click, go);
    RefusedThenSent(click, go);
    hide Granted, IsStepOf, FreshDecisions, OnlyDispatchersDispatch;
    TheRecordIsWhatTheDriverDid(acts);
    hide Project, Dispatching, Calls;
    var granted, trace := Granted(Trace(acts)), Trace(acts);
    var more := if go.leftAllowlist then [Remark] else [];
    assert trace == [trace[0], trace[1], trace[2], trace[3]] + more;
    FourProjected(granted, trace[0], trace[1], trace[2], trace[3], more);
  }

  lemma FourProjected(granted: map<string, string>, looked: Event, refused: Event, allowed: Event, sent: Event,
                      more: seq<Event>)
    requires looked.Resolve? && refused.Authorize? && allowed.Authorize? && sent.Dispatch? && !sent.refused
    requires more == [] || more == [Remark]
    ensures var steps := Project(granted, START, [looked, refused, allowed, sent] + more).steps;
            |steps| == 1 && steps[0].resolution == Some(looked.node)
  {
    var pending := Cursor([], Some(looked), None, None);
    var done := Cursor([Recorded(granted, pending, sent)], None, None, None);
    var trace := [looked, refused, allowed, sent] + more;
    assert trace[1..] == [refused, allowed, sent] + more && trace[1..][1..] == [allowed, sent] + more;
    assert ([allowed, sent] + more)[1..] == [sent] + more && ([sent] + more)[1..] == more;
    assert Project(granted, START, trace) == Project(granted, pending, [refused, allowed, sent] + more);
    assert Project(granted, pending, [allowed, sent] + more) == Project(granted, pending, [sent] + more);
    assert Advance(granted, pending, sent) == done;
    assert Project(granted, pending, [sent] + more) == Project(granted, done, more);
    if more == [Remark] {
      assert more[1..] == [] && Project(granted, done, more) == Project(granted, done, []);
    }
    assert Project(granted, done, []) == done;
  }

  lemma TwoAreFresh(first: Attempt, second: Attempt)
    requires first.decisionId != "" && second.decisionId != "" && first.decisionId != second.decisionId
    ensures var acts := [Attempts(first), Attempts(second)]; OnlyDispatchersDispatch(acts) && FreshDecisions(acts)
  {
  }

  lemma TracedOf(click: Attempt, go: Attempt)
    requires click.target.Some? && click.target.value.Some? && click.hit.None? && click.decision.Denied?
    requires go.target.None? && go.hit.None? && go.decision.Allowed? && !Stale(click) && !Stale(go)
    ensures Traced(click) == [Resolve(true, click.target.value), Authorize(click.decisionId, false, click.reason)]
    ensures Traced(go) == [Authorize(go.decisionId, true, go.reason),
                           Dispatch(Some(go.decisionId), false, go.action, go.actor, go.epoch, go.ok)]
                          + if go.leftAllowlist then [Remark] else []
    ensures Through(Attempts(click)) == [] && Through(Attempts(go)) == [go] && CallOf(go).node.None?
  {
  }

  lemma RefusedThenSent(click: Attempt, go: Attempt)
    requires click.target.Some? && click.target.value.Some? && click.hit.None? && click.decision.Denied?
    requires go.target.None? && go.hit.None? && go.decision.Allowed? && !Stale(click) && !Stale(go)
    ensures var acts := [Attempts(click), Attempts(go)];
            && Calls(acts) == [CallOf(go)] && CallOf(go).node.None? && Dispatching(acts) == [go]
            && Trace(acts) == [Resolve(true, click.target.value), Authorize(click.decisionId, false, click.reason),
                               Authorize(go.decisionId, true, go.reason),
                               Dispatch(Some(go.decisionId), false, go.action, go.actor, go.epoch, go.ok)]
                              + if go.leftAllowlist then [Remark] else []
  {
    var acts := [Attempts(click), Attempts(go)];
    var first, second := [Attempts(click)], [Attempts(go)];
    assert acts == first + second;
    TracedOf(click, go);
    hide Traced, Trace, Dispatching, Calls, Through, CallOf, Stale;
    OnlyOne(Attempts(click));
    OnlyOne(Attempts(go));
    TraceInTurn(first, second);
    CallsAreTheDispatching(acts);
  }
}
