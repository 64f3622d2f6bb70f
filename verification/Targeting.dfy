/** `targeting/candidates.py` and `targeting/resolver.py`: what a descriptor may mean
    on a snapshot, rung by rung, and when it means exactly one node. */
module Targeting {
  import opened Outcomes
  import opened Snapshots
  import opened Targets
  import opened Trees
  import Names

  /** The text comparisons nothing here looks into. */
  datatype Texts = Texts(
    fold: string -> string,
    contains: (string, string) -> bool,          // needle, text; case ignored
    search: (string, string) -> Option<bool>,    // pattern, text; None when it does not compile
    looksLikeValue: string -> bool)

  function Fold(t: Texts, text: Option<string>): string {
    if text.None? || text.value == "" then "" else t.fold(text.value)
  }

  // ---------------------------------------------------------------- lists in document order

  /** Positions in document order, each at most once. */
  ghost predicate Ascending(found: seq<nat>) {
    forall i, j | 0 <= i < j < |found| :: found[i] < found[j]
  }

  function Where(n: nat, keep: nat -> bool): (found: seq<nat>)
    ensures Ascending(found)
    ensures forall k: nat :: k in found <==> k < n && keep(k)
    ensures forall i | 0 <= i < |found| :: found[i] < n
  {
    if n == 0 then [] else Where(n - 1, keep) + if keep(n - 1) then [n - 1] else []
  }

  // ---------------------------------------------------------------- the rungs

  predicate InScope(node: UiNode, target: TargetDescriptor) {
    && (target.scope.frame.Some? ==> node.scope.frame == target.scope.frame)
    && (target.scope.region.Some? ==> node.scope.region == target.scope.region)
  }

  predicate Fits(node: UiNode, target: TargetDescriptor) {
    node.role == target.role && InScope(node, target)
  }

  /** The list an ordinal is counted over. */
  function Pool(nodes: seq<UiNode>, target: TargetDescriptor): seq<nat> {
    Where(|nodes|, (k: nat) => k < |nodes| && Fits(nodes[k], target))
  }

  predicate NamedExactly(t: Texts, target: TargetDescriptor, node: UiNode)
    requires target.name.Some?
  {
    var asked := target.name.value;
    match asked.mode
    case Exact => Names.NormalizeName(node.name) == Names.NormalizeName(Some(asked.value))
    case Contains =>
      var wanted := Names.NormalizeName(Some(asked.value));
      wanted.Some? && t.contains(wanted.value, node.name.GetOr(""))
    case Regex => node.name.GetOr("") != "" && t.search(asked.value, node.name.value) == Some(true)
    case Normalized => false
  }

  function SemanticExactRung(t: Texts, target: TargetDescriptor, nodes: seq<UiNode>): seq<nat> {
    if target.name.None? then []
    else Where(|nodes|, (k: nat) => k < |nodes| && Fits(nodes[k], target) && NamedExactly(t, target, nodes[k]))
  }

  function SemanticNormalizedRung(t: Texts, target: TargetDescriptor, nodes: seq<UiNode>): seq<nat> {
    if target.name.None? || Fold(t, Some(target.name.value.value)) == "" then []
    else
      var wanted := Fold(t, Some(target.name.value.value));
      Where(|nodes|, (k: nat) => k < |nodes| && Fits(nodes[k], target) && Fold(t, nodes[k].name) == wanted)
  }

  function Css(hints: map<string, string>): Option<string> {
    if "css" in hints && hints["css"] != "" then Some(hints["css"]) else None
  }

  /** A hint only proposes: the node still has to be what the descriptor says. */
  function HintRung(t: Texts, target: TargetDescriptor, nodes: seq<UiNode>): seq<nat> {
    if Css(target.hints).None? then []
    else
      Where(|nodes|, (k: nat) =>
        && k < |nodes| && Css(nodes[k].hints) == Css(target.hints) && Fits(nodes[k], target)
        && (target.name.Some? ==> Fold(t, nodes[k].name) == Fold(t, Some(target.name.value.value))))
  }

  function OrdinalRung(target: TargetDescriptor, nodes: seq<UiNode>): seq<nat> {
    var pool := Pool(nodes, target);
    if target.ordinal.Some? && 0 <= target.ordinal.value < |pool| then [pool[target.ordinal.value]] else []
  }

  // ---------------------------------------------------------------- the structural anchor

  predicate AnchorMatches(t: Texts, node: UiNode, anchor: Anchor) {
    match anchor.mode
    case Exact => Names.NormalizeName(node.name) == Names.NormalizeName(Some(anchor.text))
    case Contains => node.name.GetOr("") != "" && t.contains(anchor.text, node.name.value)
    case _ => Fold(t, node.name) == Fold(t, Some(anchor.text))
  }

  function FittingBelow(nodes: seq<UiNode>, target: TargetDescriptor, top: Option<nat>, a: nat): (found: seq<nat>)
    requires IsTree(nodes) && a < |nodes| && (top.Some? ==> top.value < |nodes|)
  {
    if top.None? then []
    else
      Keep(Descendants(nodes, top.value),
           (d: nat) => d < |nodes| && Fits(nodes[d], target) && nodes[d].nodeId != nodes[a].nodeId)
  }

  /** The sibling is the anchor, or its id says the anchor lies inside it. */
  predicate Holds(nodes: seq<UiNode>, sibling: nat, a: nat)
    requires sibling < |nodes| && a < |nodes|
  {
    nodes[sibling].nodeId == nodes[a].nodeId || nodes[sibling].nodeId + "/" <= nodes[a].nodeId
  }

  function FirstHolding(nodes: seq<UiNode>, siblings: seq<nat>, a: nat): (i: nat)
    requires a < |nodes| && forall k | 0 <= k < |siblings| :: siblings[k] < |nodes|
    ensures i <= |siblings| && (i < |siblings| ==> Holds(nodes, siblings[i], a))
    ensures forall k | 0 <= k < i :: !Holds(nodes, siblings[k], a)
  {
    if siblings == [] || Holds(nodes, siblings[0], a) then 0 else 1 + FirstHolding(nodes, siblings[1..], a)
  }

  function FirstFitting(nodes: seq<UiNode>, target: TargetDescriptor, siblings: seq<nat>, from: nat): (i: nat)
    requires from <= |siblings| && forall k | 0 <= k < |siblings| :: siblings[k] < |nodes|
    ensures from <= i <= |siblings| && (i < |siblings| ==> Fits(nodes[siblings[i]], target))
    ensures forall k | from <= k < i :: !Fits(nodes[siblings[k]], target)
    decreases |siblings| - from
  {
    if from == |siblings| || Fits(nodes[siblings[from]], target) then from
    else FirstFitting(nodes, target, siblings, from + 1)
  }

  function Container(nodes: seq<UiNode>, a: nat): (c: Option<nat>)
    requires IsTree(nodes) && a < |nodes|
    ensures c.Some? ==> c.value < |nodes|
  {
    var parent := Parent(nodes, a);
    if parent.Some? && nodes[parent.value].role == "row" then parent else NearestAncestor(nodes, a, "row")
  }

  function Siblings(nodes: seq<UiNode>, c: nat): (found: seq<nat>)
    requires IsTree(nodes) && c < |nodes|
    ensures forall i | 0 <= i < |found| :: found[i] < |nodes|
  {
    var found := Keep(Descendants(nodes, c), (d: nat) => d < |nodes| && Parent(nodes, d) == Some(c));
    assert forall i | 0 <= i < |found| :: found[i] in found;
    found
  }

  /** The cell after the label: the first sibling past the anchor that fits. */
  function Following(nodes: seq<UiNode>, target: TargetDescriptor, a: nat): (found: seq<nat>)
    requires IsTree(nodes) && a < |nodes|
  {
    var container := Container(nodes, a);
    if container.None? then []
    else
      var siblings := Siblings(nodes, container.value);
      var index := FirstHolding(nodes, siblings, a);
      if index == |siblings| then []
      else
        var next := FirstFitting(nodes, target, siblings, index + 1);
        if next == |siblings| then [] else [siblings[next]]
  }

  function Section(nodes: seq<UiNode>, a: nat): (s: Option<nat>)
    requires IsTree(nodes) && a < |nodes|
    ensures s.Some? ==> s.value < |nodes|
  {
    var table := NearestAncestor(nodes, a, "table");
    if table.Some? then table else Parent(nodes, a)
  }

  /** What one anchor contributes. */
  function Reached(nodes: seq<UiNode>, target: TargetDescriptor, relation: AnchorRelation, a: nat): (found: seq<nat>)
    requires IsTree(nodes) && a < |nodes|
  {
    match relation
    case RowOf => FittingBelow(nodes, target, NearestAncestor(nodes, a, "row"), a)
    case AdjacentTo => Following(nodes, target, a)
    case WithinSection => FittingBelow(nodes, target, Section(nodes, a), a)
  }

  predicate ReachedBySome(t: Texts, nodes: seq<UiNode>, target: TargetDescriptor, anchor: Anchor, k: nat)
    requires IsTree(nodes)
  {
    exists a ::
      0 <= a < |nodes| && AnchorMatches(t, nodes[a], anchor) && k in Reached(nodes, target, anchor.relation, a)
  }

  function StructuralRung(t: Texts, target: TargetDescriptor, nodes: seq<UiNode>): seq<nat>
    requires IsTree(nodes)
  {
    if target.anchor.None? then []
    else Where(|nodes|, (k: nat) => ReachedBySome(t, nodes, target, target.anchor.value, k))
  }

  lemma ReachedFits(nodes: seq<UiNode>, target: TargetDescriptor, relation: AnchorRelation, a: nat, k: nat)
    requires IsTree(nodes) && a < |nodes| && k in Reached(nodes, target, relation, a)
    ensures k < |nodes| && Fits(nodes[k], target)
  {
  }

  lemma {:induction false} WhereAgrees(n: nat, p: nat -> bool, q: nat -> bool)
    requires forall k: nat | k < n :: p(k) == q(k)
    ensures Where(n, p) == Where(n, q)
  {
    if n > 0 { WhereAgrees(n - 1, p, q); }
  }

  /** `structural_anchor` in its own form: collect what every anchor reaches, then
      drop repeats in document order. */
  method StructuralAnchor(t: Texts, target: TargetDescriptor, nodes: seq<UiNode>) returns (ordered: seq<nat>)
    requires IsTree(nodes)
    ensures ordered == StructuralRung(t, target, nodes)
  {
    hide IsTree, Reached, AnchorMatches;
    if target.anchor.None? {
      return [];
    }
    var anchor := target.anchor.value;
    var found: seq<nat> := [];
    for a := 0 to |nodes|
      invariant forall i | 0 <= i < |found| :: found[i] < |nodes|
      invariant forall k: nat :: k in found <==>
                  exists b :: 0 <= b < a && AnchorMatches(t, nodes[b], anchor)
                         && k in Reached(nodes, target, anchor.relation, b)
    {
      if AnchorMatches(t, nodes[a], anchor) {
        ReachedAreNodes(nodes, target, anchor.relation, a);
        found := found + Reached(nodes, target, anchor.relation, a);
      }
    }
    TreesHaveDistinctIds(nodes);
    ordered := InDocumentOrder(nodes, found);
    WhereAgrees(|nodes|, (k: nat) => k in found, (k: nat) => ReachedBySome(t, nodes, target, anchor, k));
  }

  lemma TreesHaveDistinctIds(nodes: seq<UiNode>)
    requires IsTree(nodes)
    ensures DistinctIds(nodes)
  {
  }

  lemma ReachedAreNodes(nodes: seq<UiNode>, target: TargetDescriptor, relation: AnchorRelation, a: nat)
    requires IsTree(nodes) && a < |nodes|
    ensures var found := Reached(nodes, target, relation, a); forall i | 0 <= i < |found| :: found[i] < |nodes|
  {
    var found := Reached(nodes, target, relation, a);
    forall i | 0 <= i < |found| ensures found[i] < |nodes| {
      ReachedFits(nodes, target, relation, a, found[i]);
    }
  }

  /** Walk the snapshot and take every node found, by id, the first time it comes. */
  method InDocumentOrder(nodes: seq<UiNode>, found: seq<nat>) returns (ordered: seq<nat>)
    requires DistinctIds(nodes) && forall i | 0 <= i < |found| :: found[i] < |nodes|
    ensures ordered == Where(|nodes|, (k: nat) => k in found)
  {
    var ids := set i | 0 <= i < |found| :: nodes[found[i]].nodeId;
    ghost var keep := (k: nat) => k in found;
    ordered := [];
    var seen: set<string> := {};
    for k := 0 to |nodes|
      invariant ordered == Where(k, keep)
      invariant forall id | id in seen :: exists i :: 0 <= i < k && nodes[i].nodeId == id
    {
      assert nodes[k].nodeId in ids <==> keep(k) by {
        if nodes[k].nodeId in ids {
          var i :| 0 <= i < |found| && nodes[found[i]].nodeId == nodes[k].nodeId;
          assert found[i] == k;
        }
      }
      if nodes[k].nodeId in ids && nodes[k].nodeId !in seen {
        seen := seen + {nodes[k].nodeId};
        ordered := ordered + [k];
      }
    }
    WhereAgrees(|nodes|, keep, (k: nat) => k in found);
  }
}
