/** `hitl/reanchor.py`: what the operator changed, and where automation may pick
    up again. */
module Reanchor {
  import opened Outcomes
  import opened Snapshots
  import opened Capabilities

  datatype HumanDelta = HumanDelta(
    urlBefore: string,
    urlAfter: string,
    nodesAdded: nat,
    nodesRemoved: nat,
    valuesChanged: seq<(string, string, string)>)
  {
    predicate Changed() {
      urlBefore != urlAfter || nodesAdded != 0 || nodesRemoved != 0 || valuesChanged != []
    }
  }

  function IdsOf(nodes: seq<UiNode>): set<string> {
    set n | n in nodes :: n.nodeId
  }

  /** The values on screen by node id; a repeated id keeps its last value. */
  function ValuesOf(nodes: seq<UiNode>): map<string, string> {
    if nodes == [] then map[]
    else
      var last := nodes[|nodes| - 1];
      var rest := ValuesOf(nodes[..|nodes| - 1]);
      if last.value.Some? then rest[last.nodeId := last.value.value] else rest
  }

  function Edits(values: map<string, string>, after: seq<UiNode>): seq<(string, string, string)> {
    if after == [] then []
    else
      var n := after[0];
      (if n.value.Some? && n.nodeId in values && values[n.nodeId] != n.value.value
       then [(n.nodeId, values[n.nodeId], n.value.value)] else [])
      + Edits(values, after[1..])
  }

  function DiffSnapshots(before: UiSnapshot, after: UiSnapshot): HumanDelta {
    HumanDelta(before.url, after.url,
               |IdsOf(after.nodes) - IdsOf(before.nodes)|,
               |IdsOf(before.nodes) - IdsOf(after.nodes)|,
               Edits(ValuesOf(before.nodes), after.nodes))
  }

  lemma {:induction false} EditsEmpty(values: map<string, string>, after: seq<UiNode>)
    ensures Edits(values, after) == [] <==>
            forall n | n in after && n.value.Some? && n.nodeId in values :: values[n.nodeId] == n.value.value
  {
    if after != [] {
      EditsEmpty(values, after[1..]);
      assert after == [after[0]] + after[1..];
    }
  }

  /** The delta says "nothing changed" exactly when the address and the node ids
      are the same and no value that was on screen reads differently now. */
  lemma UnchangedMeans(before: UiSnapshot, after: UiSnapshot)
    ensures !DiffSnapshots(before, after).Changed() <==>
            && before.url == after.url
            && IdsOf(before.nodes) == IdsOf(after.nodes)
            && forall n | n in after.nodes && n.value.Some? && n.nodeId in ValuesOf(before.nodes) ::
                 ValuesOf(before.nodes)[n.nodeId] == n.value.value
  {
    EditsEmpty(ValuesOf(before.nodes), after.nodes);
    var b, a := IdsOf(before.nodes), IdsOf(after.nodes);
    assert |a - b| == 0 && |b - a| == 0 <==> a == b by {
      if |a - b| == 0 && |b - a| == 0 {
        assert a <= b + (a - b) && b <= a + (b - a);
      }
    }
  }

  ghost predicate DistinctIds(nodes: seq<UiNode>) {
    forall i, j | 0 <= i < j < |nodes| :: nodes[i].nodeId != nodes[j].nodeId
  }

  lemma {:induction false} ValueById(nodes: seq<UiNode>, id: string)
    requires DistinctIds(nodes)
    ensures id in ValuesOf(nodes) <==> exists n :: n in nodes && n.nodeId == id && n.value.Some?
    ensures forall n | n in nodes && n.nodeId == id && n.value.Some? ::
              id in ValuesOf(nodes) && ValuesOf(nodes)[id] == n.value.value
  {
    if nodes != [] {
      var front, last := nodes[..|nodes| - 1], nodes[|nodes| - 1];
      assert nodes == front + [last];
      ValueById(front, id);
      assert forall i | 0 <= i < |front| :: nodes[i].nodeId != last.nodeId;
      assert forall n | n in front :: n.nodeId != last.nodeId;
    }
  }

  lemma {:induction false} EditsAre(values: map<string, string>, after: seq<UiNode>, edit: (string, string, string))
    ensures edit in Edits(values, after) <==>
              exists n :: n in after && n.nodeId == edit.0 && n.value == Some(edit.2)
                     && edit.0 in values && values[edit.0] == edit.1 != edit.2
  {
    if after != [] {
      EditsAre(values, after[1..], edit);
      assert after == [after[0]] + after[1..];
    }
  }

  /** The value of one node, from what was shown before to what is shown now. */
  ghost predicate Edited(before: UiSnapshot, after: UiSnapshot, id: string, was: string, now: string) {
    was != now && exists m, n ::
      && m in before.nodes && n in after.nodes && m.nodeId == id == n.nodeId
      && m.value == Some(was) && n.value == Some(now)
  }

  /** What an operator is reported to have done: both addresses, how many nodes came and
      how many went, and exactly the values that read differently, each way round. */
  lemma {:induction false} TheDeltaTells(before: UiSnapshot, after: UiSnapshot)
    requires DistinctIds(before.nodes)
    ensures var d := DiffSnapshots(before, after);
            && d.urlBefore == before.url && d.urlAfter == after.url
            && d.nodesAdded
               == |set n | n in after.nodes && (forall m | m in before.nodes :: m.nodeId != n.nodeId) :: n.nodeId|
            && d.nodesRemoved
               == |set m | m in before.nodes && (forall n | n in after.nodes :: m.nodeId != n.nodeId) :: m.nodeId|
            && forall id, was, now :: (id, was, now) in d.valuesChanged <==> Edited(before, after, id, was, now)
  {
    assert IdsOf(after.nodes) - IdsOf(before.nodes)
        == set n | n in after.nodes && (forall m | m in before.nodes :: m.nodeId != n.nodeId) :: n.nodeId;
    assert IdsOf(before.nodes) - IdsOf(after.nodes)
        == set m | m in before.nodes && (forall n | n in after.nodes :: m.nodeId != n.nodeId) :: m.nodeId;
    forall id, was, now
      ensures (id, was, now) in DiffSnapshots(before, after).valuesChanged <==> Edited(before, after, id, was, now)
    {
      ValueById(before.nodes, id);
      EditsAre(ValuesOf(before.nodes), after.nodes, (id, was, now));
    }
  }

  /** So an operator whose whole work was to fill in a box that was blank, or to clear
      one that was not, is reported to have changed nothing. */
  lemma FillingABlankIsNoChange(url: string, blank: UiNode, text: string)
    requires blank.value.None?
    ensures var filled := blank.(value := Some(text));
            var empty, full := UiSnapshot(url, [blank], None), UiSnapshot(url, [filled], None);
            && empty != full
            && !DiffSnapshots(empty, full).Changed() && !DiffSnapshots(full, empty).Changed()
  {
    var filled := blank.(value := Some(text));
    var empty, full := UiSnapshot(url, [blank], None), UiSnapshot(url, [filled], None);
    assert empty.nodes[0] != full.nodes[0];
    assert [blank][..0] == [];
    assert IdsOf(empty.nodes) == {blank.nodeId} == IdsOf(full.nodes);
    UnchangedMeans(empty, full);
    UnchangedMeans(full, empty);
  }

  // ---------------------------------------------------------------- reconcile

  datatype Reconciliation = Reconciliation(resumeIndex: Option<nat>, skipped: seq<string>)

  /** The step's declared effect is visible: the only evidence that it happened. */
  predicate Done(step: Step, snapshot: UiSnapshot, inputs: Bindings) {
    step.postcondition.Some? && step.postcondition.value(snapshot, inputs)
  }

  predicate CanStart(step: Step, snapshot: UiSnapshot, inputs: Bindings) {
    step.precondition.None? || step.precondition.value(snapshot, inputs)
  }

  /** The least index at or after `from` whose step is not visibly done. */
  ghost predicate IsFirstUndone(steps: seq<Step>, snapshot: UiSnapshot, inputs: Bindings, from: nat, k: nat)
    requires from <= |steps|
  {
    && from <= k <= |steps|
    && (forall j :: from <= j < k ==> Done(steps[j], snapshot, inputs))
    && (k < |steps| ==> !Done(steps[k], snapshot, inputs))
  }

  function Ids(steps: seq<Step>): seq<string> {
    seq(|steps|, i requires 0 <= i < |steps| => steps[i].id)
  }

  function FirstUndone(steps: seq<Step>, snapshot: UiSnapshot, inputs: Bindings, from: nat): (k: nat)
    requires from <= |steps|
    ensures IsFirstUndone(steps, snapshot, inputs, from, k)
    decreases |steps| - from
  {
    if from < |steps| && Done(steps[from], snapshot, inputs)
    then FirstUndone(steps, snapshot, inputs, from + 1)
    else from
  }

  /** Where a resume picks up. A start past the end scans nothing and goes to the
      checkpoint. */
  function Reconciled(steps: seq<Step>, snapshot: UiSnapshot, inputs: Bindings, from: nat): Reconciliation {
    if from > |steps| then Reconciliation(Some(|steps|), [])
    else
      var k := FirstUndone(steps, snapshot, inputs, from);
      Reconciliation(if k < |steps| && !CanStart(steps[k], snapshot, inputs) then None else Some(k),
                     Ids(steps[from..k]))
  }

  method Reconcile(capability: Capability, snapshot: UiSnapshot, inputs: Bindings, fromIndex: nat)
    returns (r: Reconciliation)
    ensures r == Reconciled(capability.steps, snapshot, inputs, fromIndex)
  {
    var steps := capability.steps;
    var skipped: seq<string> := [];
    var index := fromIndex;
    while index < |steps|
      invariant fromIndex <= index
      invariant fromIndex > |steps| ==> index == fromIndex && skipped == []
      invariant fromIndex <= |steps| ==>
                  && index <= |steps|
                  && FirstUndone(steps, snapshot, inputs, index) == FirstUndone(steps, snapshot, inputs, fromIndex)
                  && skipped == Ids(steps[fromIndex..index])
    {
      var step := steps[index];
      if step.postcondition.Some? && step.postcondition.value(snapshot, inputs) {
        skipped := skipped + [step.id];
        assert steps[fromIndex..index + 1] == steps[fromIndex..index] + [step];
        index := index + 1;
        continue;
      }
      if step.precondition.Some? && !step.precondition.value(snapshot, inputs) {
        return Reconciliation(None, skipped);
      }
      return Reconciliation(Some(index), skipped);
    }
    return Reconciliation(Some(|steps|), skipped);
  }

  /** The plan, said without the scan: an index is returned exactly when it is the
      least one not visibly done and it can start (or is the end); every step
      before it was done; and no index is returned exactly when the least undone
      step cannot start. */
  lemma ReconcilePlansTheLeastUndoneStep(steps: seq<Step>, snapshot: UiSnapshot, inputs: Bindings, from: nat, r: nat)
    requires from <= |steps|
    ensures var plan := Reconciled(steps, snapshot, inputs, from);
            && (plan.resumeIndex == Some(r) <==>
                  && IsFirstUndone(steps, snapshot, inputs, from, r)
                  && (r < |steps| ==> CanStart(steps[r], snapshot, inputs)))
            && (plan.resumeIndex.None? <==>
                  exists k: nat :: k < |steps| && IsFirstUndone(steps, snapshot, inputs, from, k)
                              && !CanStart(steps[k], snapshot, inputs))
            && (IsFirstUndone(steps, snapshot, inputs, from, r) ==> plan.skipped == Ids(steps[from..r]))
  {
    var k := FirstUndone(steps, snapshot, inputs, from);
    forall j: nat | IsFirstUndone(steps, snapshot, inputs, from, j) ensures j == k {
    }
  }
}
