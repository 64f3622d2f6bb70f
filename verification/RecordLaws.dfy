/** What each step of a run record says, read back from the stretch of the trace it
    stands for. */
module RecordLaws {
  import opened Outcomes
  import opened Evidence
  import opened EvidenceLaws

  predicate Reaches(e: Event) {
    e.Dispatch? && !e.refused
  }

  /** How many dispatches reached the surface. */
  function Reached(events: seq<Event>): nat {
    if events == [] then 0
    else Reached(events[..|events| - 1]) + if Reaches(events[|events| - 1]) then 1 else 0
  }

  predicate Names(e: Event) {
    e.Classify? && e.step.Some? && e.step.value != ""
  }

  /** The step the trace last named. */
  ghost predicate NamedLast(events: seq<Event>, step: Option<string>) {
    match step
    case None => forall i | 0 <= i < |events| :: !Names(events[i])
    case Some(name) =>
      exists i :: 0 <= i < |events| && Names(events[i]) && events[i].step == Some(name)
                  && forall k | i < k < |events| :: !Names(events[k])
  }

  /** The rule applied last since a dispatch last reached the surface. */
  ghost predicate AppliedSince(events: seq<Event>, rule: Option<string>) {
    match rule
    case None => forall i | 0 <= i < |events| && events[i].Recovery? :: ReachedAfter(events, i)
    case Some(name) =>
      exists i :: 0 <= i < |events| && events[i] == Recovery(name) && !ReachedAfter(events, i)
                  && forall k | i < k < |events| :: !events[k].Recovery?
  }

  /** The node resolved last since a dispatch last reached the surface, if it was. */
  ghost predicate ResolvedSince(events: seq<Event>, resolution: Option<Option<string>>) {
    match resolution
    case None => forall i | 0 <= i < |events| && events[i].Resolve? :: ReachedAfter(events, i)
    case Some(node) =>
      exists i :: 0 <= i < |events| && events[i].Resolve? && events[i].node == node && !ReachedAfter(events, i)
                  && forall k | i < k < |events| :: !events[k].Resolve?
  }

  ghost predicate ReachedAfter(events: seq<Event>, i: nat) {
    exists k :: i < k < |events| && Reaches(events[k])
  }

  predicate Grants(e: Event, id: string) {
    e.Authorize? && e.granted && e.decisionId == id
  }

  /** The reason of the last authorization granted under this decision, if one was. */
  ghost predicate GrantedAs(events: seq<Event>, id: string, decision: Option<string>) {
    match decision
    case None => id == "" || forall i | 0 <= i < |events| :: !Grants(events[i], id)
    case Some(reason) =>
      && id != ""
      && exists i :: 0 <= i < |events| && Grants(events[i], id) && events[i].reason == reason
                     && forall k | i < k < |events| :: !Grants(events[k], id)
  }

  lemma {:induction false} GrantedTells(events: seq<Event>, id: string)
    ensures GrantedAs(events, id, if id != "" && id in Granted(events) then Some(Granted(events)[id]) else None)
  {
    if events != [] && id != "" {
      var n := |events| - 1;
      var front := events[..n];
      GrantedTells(front, id);
      assert forall i | 0 <= i < n :: events[i] == front[i];
      if Grants(events[n], id) {
      } else if id in Granted(front) {
        var i :| 0 <= i < n && Grants(front[i], id) && front[i].reason == Granted(front)[id]
                 && forall k | i < k < n :: !Grants(front[k], id);
        assert Grants(events[i], id);
      }
    }
  }

  // ---------------------------------------------------------------- what the fold carries

  ghost predicate Carried(events: seq<Event>, c: Cursor) {
    && |c.steps| == Reached(events)
    && NamedLast(events, c.step) && c.step != Some("")
    && AppliedSince(events, c.rule) && ResolvedSince(events, PendingNode(c))
    && (c.pending.Some? ==> c.pending.value.Resolve?)
  }

  lemma {:induction false} TheFoldCarries(granted: map<string, string>, events: seq<Event>)
    ensures Carried(events, Project(granted, START, events))
  {
    hide NamedLast, AppliedSince, ResolvedSince, Granted;
    if events == [] {
      NothingCarried();
    } else {
      var n := |events| - 1;
      var front, e := events[..n], events[n];
      TheFoldCarries(granted, front);
      assert events == front + [e] && [e][1..] == [];
      ProjectInTurn(granted, START, front, [e]);
      var c := Project(granted, START, front);
      assert Project(granted, c, [e]) == Advance(granted, c, e);
      NextNamed(front, e, c.step);
      NextApplied(front, e, c.rule);
      NextResolved(front, e, PendingNode(c));
    }
  }

  lemma NothingCarried()
    ensures Carried([], START)
  {
  }

  lemma {:induction false} NextNamed(front: seq<Event>, e: Event, step: Option<string>)
    requires NamedLast(front, step)
    ensures NamedLast(front + [e], if Names(e) then e.step else step)
  {
    var events := front + [e];
    assert forall i | 0 <= i < |front| :: events[i] == front[i];
    if Names(e) {
      assert Names(events[|front|]);
    } else if step.Some? {
      var i :| 0 <= i < |front| && Names(front[i]) && front[i].step == step
               && forall k | i < k < |front| :: !Names(front[k]);
      assert Names(events[i]);
    }
  }

  lemma {:induction false} ReachedOnceMore(front: seq<Event>, e: Event, i: nat)
    requires i < |front|
    ensures ReachedAfter(front + [e], i) <==> ReachedAfter(front, i) || Reaches(e)
  {
    var events := front + [e];
    assert forall k | 0 <= k < |front| :: events[k] == front[k];
    if Reaches(e) { assert Reaches(events[|front|]); }
    if ReachedAfter(front, i) {
      var k :| i < k < |front| && Reaches(front[k]);
      assert Reaches(events[k]);
    }
  }

  lemma {:induction false} NextApplied(front: seq<Event>, e: Event, rule: Option<string>)
    requires AppliedSince(front, rule)
    ensures AppliedSince(front + [e], if e.Recovery? then Some(e.rule) else if Reaches(e) then None else rule)
  {
    hide ReachedAfter;
    var events := front + [e];
    assert forall i | 0 <= i < |front| :: events[i] == front[i];
    forall i | 0 <= i < |front| ensures ReachedAfter(events, i) <==> ReachedAfter(front, i) || Reaches(e) {
      ReachedOnceMore(front, e, i);
    }
    if e.Recovery? {
      NothingAfterTheLast(events);
      assert events[|front|] == Recovery(e.rule);
    } else if !Reaches(e) && rule.Some? {
      var i :| 0 <= i < |front| && front[i] == Recovery(rule.value) && !ReachedAfter(front, i)
               && forall k | i < k < |front| :: !front[k].Recovery?;
      assert events[i] == Recovery(rule.value) && !ReachedAfter(events, i);
    }
  }

  lemma {:induction false} NextResolved(front: seq<Event>, e: Event, resolution: Option<Option<string>>)
    requires ResolvedSince(front, resolution)
    ensures ResolvedSince(front + [e], if e.Resolve? then Some(e.node) else if Reaches(e) then None else resolution)
  {
    hide ReachedAfter;
    var events := front + [e];
    assert forall i | 0 <= i < |front| :: events[i] == front[i];
    forall i | 0 <= i < |front| ensures ReachedAfter(events, i) <==> ReachedAfter(front, i) || Reaches(e) {
      ReachedOnceMore(front, e, i);
    }
    if e.Resolve? {
      NothingAfterTheLast(events);
      assert events[|front|].Resolve?;
    } else if !Reaches(e) && resolution.Some? {
      var i :| 0 <= i < |front| && front[i].Resolve? && front[i].node == resolution.value && !ReachedAfter(front, i)
               && forall k | i < k < |front| :: !front[k].Resolve?;
      assert events[i].Resolve? && !ReachedAfter(events, i);
    }
  }

  lemma NothingAfterTheLast(events: seq<Event>)
    requires events != []
    ensures !ReachedAfter(events, |events| - 1)
  {
  }

  // ---------------------------------------------------------------- the record

  lemma {:induction false} StepsStay(granted: map<string, string>, c: Cursor, events: seq<Event>)
    ensures c.steps <= Project(granted, c, events).steps
    decreases |events|
  {
    if events != [] { StepsStay(granted, Advance(granted, c, events[0]), events[1..]); }
  }

  /** A record has one step for each dispatch that reached the surface, in order. It says
      what was dispatched, by whom and at which epoch; the step the trace last named
      before it, or else the action; the rule applied and the node resolved last since
      the dispatch before it; and the authorization granted under its decision. */
  lemma {:induction false} EachStepIsReadBack(events: seq<Event>, p: nat)
    requires p < |events| && Reaches(events[p])
    ensures |RunSteps(events)| == Reached(events) && Reached(events[..p]) < |RunSteps(events)|
    ensures var e, before, r := events[p], events[..p], RunSteps(events)[Reached(events[..p])];
            && r.index == Reached(before) && r.action == e.action && r.actor == e.actor && r.epoch == e.epoch
            && (exists step :: NamedLast(before, step) && r.stepId == if step.Some? then step.value else e.action)
            && AppliedSince(before, r.rule) && ResolvedSince(before, r.resolution)
            && GrantedAs(events, e.under.GetOr(""), r.decision) && (r.authorized <==> r.decision.Some?)
  {
    hide Advance, Granted, NamedLast, AppliedSince, ResolvedSince, GrantedAs, Reached;
    var granted, before, e, after := Granted(events), events[..p], events[p], events[p + 1..];
    TheFoldCarries(granted, before);
    TheFoldCarries(granted, events);
    GrantedTells(events, e.under.GetOr(""));
    var c := Project(granted, START, before);
    assert events == before + ([e] + after) && ([e] + after)[1..] == after;
    ProjectInTurn(granted, START, before, [e] + after);
    var next := Advance(granted, c, e);
    assert Project(granted, c, [e] + after) == Project(granted, next, after);
    StepsStay(granted, next, after);
    OneStepMore(granted, c, e);
    assert RunSteps(events)[|c.steps|] == next.steps[|c.steps|];
  }

  lemma OneStepMore(granted: map<string, string>, c: Cursor, e: Event)
    requires Reaches(e)
    ensures Advance(granted, c, e).steps == c.steps + [Recorded(granted, c, e)]
  {
  }

  // ---------------------------------------------------------------- one attempt's answer

  /** What an attempt answers is what its events show. */
  lemma {:induction false} StatusesTell(a: Attempt)
    ensures var events, status := Traced(a), StatusOf(a);
            && (status.LeaseLost? <==> exists e :: e in events && e.Dispatch? && e.refused)
            && (status.Unresolved? <==> exists e :: e in events && e.Resolve? && !e.resolved)
            && (Called(a) != [] <==> exists e :: e in events && Reaches(e))
            && (status.NeedsConfirmation? ==> a.decision.NeedsConfirmation? && Called(a) == [])
            && (status.Denied? ==> (a.decision.Denied? && Called(a) == []) || (Called(a) != [] && a.leftAllowlist))
            && (status.Dispatched? || status.Failed? ==> Called(a) != [] && !a.leftAllowlist)
            && (status.Dispatched? ==> a.ok) && (status.Failed? ==> !a.ok)
  {
    var events := Traced(a);
    if Stale(a) {
      assert events[0].Dispatch? && events[0].refused;
    } else if !ReachesPolicy(a) {
      assert events[0] == Resolve(false, None);
    } else if ReachesDriver(a) {
      var sent := Dispatch(Some(a.decisionId), false, a.action, a.actor, a.epoch, a.ok);
      assert events[|Looked(a)| + 1] == sent;
      assert sent in events && Reaches(sent);
    }
  }
}
