/** Moving about a snapshot, the accessors of `domain/snapshot.py`. A node is named
    by its position in document order. */
module Trees {
  import opened Outcomes
  import opened Snapshots

  // ---------------------------------------------------------------- what a tree is

  ghost predicate DistinctIds(nodes: seq<UiNode>) {
    forall i, j | 0 <= i < j < |nodes| :: nodes[i].nodeId != nodes[j].nodeId
  }

  /** Every parent stands before its children. */
  ghost predicate ParentsFirst(nodes: seq<UiNode>) {
    forall k | 0 <= k < |nodes| && nodes[k].parentId.Some? ::
      exists j :: 0 <= j < k && nodes[j].nodeId == nodes[k].parentId.value
  }

  /** `parent_id` and `child_ids` are inverses, and list nothing else. */
  ghost predicate LinksInvert(nodes: seq<UiNode>) {
    && (forall i, j | 0 <= i < |nodes| && 0 <= j < |nodes| ::
          nodes[j].nodeId in nodes[i].childIds <==> nodes[j].parentId == Some(nodes[i].nodeId))
    && (forall i, id | 0 <= i < |nodes| && id in nodes[i].childIds ::
          exists j :: 0 <= j < |nodes| && nodes[j].nodeId == id)
    && (forall i, a, b | 0 <= i < |nodes| && 0 <= a < b < |nodes[i].childIds| ::
          nodes[i].childIds[a] != nodes[i].childIds[b])
  }

  ghost predicate IsTree(nodes: seq<UiNode>) {
    && (forall k | 0 <= k < |nodes| :: nodes[k].nodeId != "")
    && DistinctIds(nodes) && ParentsFirst(nodes) && LinksInvert(nodes)
  }

  // ---------------------------------------------------------------- accessors

  /** The lookup by id: a dictionary keeps the last of equal keys. */
  function IndexOf(nodes: seq<UiNode>, id: string): (found: Option<nat>)
    ensures found.Some? ==> found.value < |nodes| && nodes[found.value].nodeId == id
    ensures found.None? ==> forall k :: 0 <= k < |nodes| ==> nodes[k].nodeId != id
  {
    if nodes == [] then None
    else if nodes[|nodes| - 1].nodeId == id then Some(|nodes| - 1)
    else IndexOf(nodes[..|nodes| - 1], id)
  }

  function Parent(nodes: seq<UiNode>, k: nat): (p: Option<nat>)
    requires k < |nodes|
    ensures p.Some? ==> p.value < |nodes|
  {
    var id := nodes[k].parentId;
    if id.None? || id.value == "" then None else IndexOf(nodes, id.value)
  }

  function Positions(nodes: seq<UiNode>, ids: seq<string>): (found: seq<nat>)
    ensures forall i | 0 <= i < |found| :: found[i] < |nodes| && nodes[found[i]].nodeId in ids
  {
    if ids == [] then []
    else
      var first := IndexOf(nodes, ids[0]);
      (if first.Some? then [first.value] else []) + Positions(nodes, ids[1..])
  }

  function Children(nodes: seq<UiNode>, k: nat): (found: seq<nat>)
    requires k < |nodes|
    ensures forall i | 0 <= i < |found| :: found[i] < |nodes|
  {
    Positions(nodes, nodes[k].childIds)
  }

  // ---------------------------------------------------------------- links of a tree

  lemma {:induction false} ParentIsTheLister(nodes: seq<UiNode>, i: nat, j: nat)
    requires IsTree(nodes) && i < |nodes| && j < |nodes|
    ensures Parent(nodes, j) == Some(i) <==> nodes[j].nodeId in nodes[i].childIds
    ensures Parent(nodes, j) == Some(i) ==> i < j
  {
    if nodes[j].parentId == Some(nodes[i].nodeId) {
      assert IndexOf(nodes, nodes[i].nodeId) == Some(i);
    }
    if Parent(nodes, j) == Some(i) {
      var p :| 0 <= p < j && nodes[p].nodeId == nodes[j].parentId.value;
    }
  }

  /** Looking up ids that are all there finds one position for each, in order. */
  lemma {:induction false} PositionsFindAll(nodes: seq<UiNode>, ids: seq<string>)
    requires forall a | 0 <= a < |ids| :: IndexOf(nodes, ids[a]).Some?
    ensures |Positions(nodes, ids)| == |ids|
    ensures forall a | 0 <= a < |ids| :: IndexOf(nodes, ids[a]) == Some(Positions(nodes, ids)[a])
  {
    hide IndexOf;
    if ids != [] {
      var more := ids[1..];
      assert forall a | 0 <= a < |more| :: more[a] == ids[a + 1];
      PositionsFindAll(nodes, more);
    }
  }

  lemma ChildrenFound(nodes: seq<UiNode>, k: nat)
    requires IsTree(nodes) && k < |nodes|
    ensures var ids, found := nodes[k].childIds, Children(nodes, k);
            |found| == |ids| && forall a | 0 <= a < |ids| :: nodes[found[a]].nodeId == ids[a]
    ensures forall a, b | 0 <= a < b < |nodes[k].childIds| :: nodes[k].childIds[a] != nodes[k].childIds[b]
  {
    hide IndexOf, Positions, DistinctIds, ParentsFirst;
    var ids := nodes[k].childIds;
    forall a | 0 <= a < |ids| ensures IndexOf(nodes, ids[a]).Some? {
      assert ids[a] in ids;
    }
    PositionsFindAll(nodes, ids);
  }

  lemma SameIdSameNode(nodes: seq<UiNode>, i: nat, j: nat)
    requires IsTree(nodes) && i < |nodes| && j < |nodes| && nodes[i].nodeId == nodes[j].nodeId
    ensures i == j
  {
    hide ParentsFirst, LinksInvert;
  }

  /** The children of a node are the nodes whose parent it is, each once. */
  lemma {:induction false} ChildrenAreExact(nodes: seq<UiNode>, k: nat)
    requires IsTree(nodes) && k < |nodes|
    ensures forall c: nat | c < |nodes| :: c in Children(nodes, k) <==> Parent(nodes, c) == Some(k)
    ensures forall a, b | 0 <= a < b < |Children(nodes, k)| :: Children(nodes, k)[a] != Children(nodes, k)[b]
    ensures forall i | 0 <= i < |Children(nodes, k)| :: k < Children(nodes, k)[i] < |nodes|
    ensures forall i | 0 <= i < |Children(nodes, k)| :: Parent(nodes, Children(nodes, k)[i]) == Some(k)
  {
    var ids, found := nodes[k].childIds, Children(nodes, k);
    ChildrenFound(nodes, k);
    hide IsTree, Children, Parent;
    forall i | 0 <= i < |found| ensures k < found[i] < |nodes| && Parent(nodes, found[i]) == Some(k) {
      assert ids[i] in ids;
      ParentIsTheLister(nodes, k, found[i]);
    }
    forall c: nat | c < |nodes| && Parent(nodes, c) == Some(k) ensures c in found {
      ParentIsTheLister(nodes, k, c);
      var a :| 0 <= a < |ids| && ids[a] == nodes[c].nodeId;
      SameIdSameNode(nodes, found[a], c);
    }
  }

  // ---------------------------------------------------------------- up and down

  function Ancestors(nodes: seq<UiNode>, k: nat): (above: seq<nat>)
    requires IsTree(nodes) && k < |nodes|
    ensures forall i | 0 <= i < |above| :: above[i] < k
    decreases k
  {
    var p := Parent(nodes, k);
    if p.None? then []
    else
      ParentIsTheLister(nodes, p.value, k);
      [p.value] + Ancestors(nodes, p.value)
  }

  /** `ancestors` in its own form: a walk that stops rather than go round twice. On a
      tree it never has to. */
  method Climb(nodes: seq<UiNode>, k: nat) returns (above: seq<nat>)
    requires IsTree(nodes) && k < |nodes|
    ensures above == Ancestors(nodes, k)
  {
    above := [];
    var current := Parent(nodes, k);
    var seen: set<string> := {};
    ghost var below: nat := k;
    hide IsTree, Parent;
    while current.Some? && nodes[current.value].nodeId !in seen
      invariant below < |nodes| && current == Parent(nodes, below)
      invariant forall i | 0 <= i < below :: nodes[i].nodeId !in seen
      invariant Ancestors(nodes, k) == above + Ancestors(nodes, below)
      decreases below
    {
      ParentIsTheLister(nodes, current.value, below);
      seen := seen + {nodes[current.value].nodeId};
      above := above + [current.value];
      below := current.value;
      current := Parent(nodes, current.value);
    }
    if current.Some? {
      ParentIsTheLister(nodes, current.value, below);
    }
  }

  function NearestAncestor(nodes: seq<UiNode>, k: nat, role: string): (found: Option<nat>)
    requires IsTree(nodes) && k < |nodes|
    ensures found.Some? ==> found.value < k && found.value in Ancestors(nodes, k) && nodes[found.value].role == role
  {
    FirstWithRole(nodes, Ancestors(nodes, k), role)
  }

  function FirstWithRole(nodes: seq<UiNode>, among: seq<nat>, role: string): (found: Option<nat>)
    requires forall i | 0 <= i < |among| :: among[i] < |nodes|
    ensures found.Some? ==> found.value < |nodes| && found.value in among && nodes[found.value].role == role
    ensures found.None? ==> forall i | 0 <= i < |among| :: nodes[among[i]].role != role
  {
    if among == [] then None
    else if nodes[among[0]].role == role then Some(among[0])
    else FirstWithRole(nodes, among[1..], role)
  }

  function Descendants(nodes: seq<UiNode>, k: nat): (below: seq<nat>)
    requires IsTree(nodes) && k < |nodes|
    ensures forall i | 0 <= i < |below| :: k < below[i] < |nodes|
    decreases |nodes| - k, |nodes[k].childIds| + 1
  {
    ChildrenAreExact(nodes, k);
    ChildrenFound(nodes, k);
    WithDescendants(nodes, k, Children(nodes, k))
  }

  function WithDescendants(nodes: seq<UiNode>, k: nat, among: seq<nat>): (below: seq<nat>)
    requires IsTree(nodes) && k < |nodes| && forall i | 0 <= i < |among| :: k < among[i] < |nodes|
    ensures forall i | 0 <= i < |below| :: k < below[i] < |nodes|
    decreases |nodes| - k, |among|
  {
    if among == [] then []
    else [among[0]] + Descendants(nodes, among[0]) + WithDescendants(nodes, k, among[1..])
  }

  /** Down and up agree: what lies below a node is what has it above. */
  lemma {:induction false} DescendantsHaveItAbove(nodes: seq<UiNode>, k: nat, d: nat)
    requires IsTree(nodes) && k < |nodes| && d < |nodes|
    ensures d in Descendants(nodes, k) <==> k in Ancestors(nodes, d)
    decreases |nodes| - k, |nodes[k].childIds| + 1
  {
    ChildrenAreExact(nodes, k);
    ChildrenFound(nodes, k);
    SubtreesHaveItAbove(nodes, k, Children(nodes, k), d);
    if k in Ancestors(nodes, d) {
      var c := BranchTowards(nodes, k, d);
    }
  }

  lemma {:induction false} SubtreesHaveItAbove(nodes: seq<UiNode>, k: nat, among: seq<nat>, d: nat)
    requires IsTree(nodes) && k < |nodes| && d < |nodes|
    requires forall i | 0 <= i < |among| :: k < among[i] < |nodes| && Parent(nodes, among[i]) == Some(k)
    ensures d in WithDescendants(nodes, k, among) <==>
              exists c: nat :: c in among && (c == d || c in Ancestors(nodes, d))
    ensures d in WithDescendants(nodes, k, among) ==> k in Ancestors(nodes, d)
    decreases |nodes| - k, |among|
  {
    if among != [] {
      DescendantsHaveItAbove(nodes, among[0], d);
      SubtreesHaveItAbove(nodes, k, among[1..], d);
      if among[0] == d || among[0] in Ancestors(nodes, d) { AboveIsTransitive(nodes, k, among[0], d); }
      assert forall c: nat :: c in among <==> c == among[0] || c in among[1..];
    }
  }

  lemma {:induction false} AboveIsTransitive(nodes: seq<UiNode>, k: nat, c: nat, d: nat)
    requires IsTree(nodes) && k < |nodes| && c < |nodes| && d < |nodes|
    requires Parent(nodes, c) == Some(k) && (c == d || c in Ancestors(nodes, d))
    ensures k in Ancestors(nodes, d)
    decreases d
  {
    var p := Parent(nodes, d).value;
    if c != d {
      ParentIsTheLister(nodes, p, d);
      if c != p { AboveIsTransitive(nodes, k, c, p); } else { AboveIsTransitive(nodes, k, c, c); }
    }
  }

  /** The child of `k` on the way down to `d`. */
  lemma {:induction false} BranchTowards(nodes: seq<UiNode>, k: nat, d: nat) returns (c: nat)
    requires IsTree(nodes) && k < |nodes| && d < |nodes| && k in Ancestors(nodes, d)
    ensures c < |nodes| && Parent(nodes, c) == Some(k) && (c == d || c in Ancestors(nodes, d))
    decreases d
  {
    var p := Parent(nodes, d).value;
    ParentIsTheLister(nodes, p, d);
    if p == k { c := d; } else { c := BranchTowards(nodes, k, p); }
  }

  function Keep(below: seq<nat>, keep: nat -> bool): (kept: seq<nat>)
    ensures forall d: nat :: d in kept <==> d in below && keep(d)
  {
    if below == [] then []
    else (if keep(below[0]) then [below[0]] else []) + Keep(below[1..], keep)
  }

  lemma {:induction false} KeepSplits(first: seq<nat>, rest: seq<nat>, keep: nat -> bool)
    ensures Keep(first + rest, keep) == Keep(first, keep) + Keep(rest, keep)
  {
    if first == [] {
      assert first + rest == rest;
    } else {
      assert (first + rest)[1..] == first[1..] + rest;
      KeepSplits(first[1..], rest, keep);
    }
  }

  /** The descendants whose parent is the node are exactly its children, in order. */
  lemma {:induction false} FilteredDescendantsAreTheChildren(nodes: seq<UiNode>, k: nat)
    requires IsTree(nodes) && k < |nodes|
    ensures Keep(Descendants(nodes, k), (d: nat) => d < |nodes| && Parent(nodes, d) == Some(k)) == Children(nodes, k)
  {
    ChildrenAreExact(nodes, k);
    FilteredSubtrees(nodes, k, Children(nodes, k), (d: nat) => d < |nodes| && Parent(nodes, d) == Some(k));
  }

  lemma {:induction false} FilteredSubtrees(nodes: seq<UiNode>, k: nat, among: seq<nat>, keep: nat -> bool)
    requires IsTree(nodes) && k < |nodes|
    requires forall d: nat :: keep(d) == (d < |nodes| && Parent(nodes, d) == Some(k))
    requires forall i | 0 <= i < |among| :: k < among[i] < |nodes| && Parent(nodes, among[i]) == Some(k)
    ensures Keep(WithDescendants(nodes, k, among), keep) == among
    decreases |among|
  {
    hide IsTree, Parent, Descendants;
    if among != [] {
      var c := among[0];
      FilteredSubtrees(nodes, k, among[1..], keep);
      NoChildFurtherDown(nodes, k, c, keep);
      var inside, rest := Descendants(nodes, c), WithDescendants(nodes, k, among[1..]);
      assert WithDescendants(nodes, k, among) == [c] + inside + rest;
      hide WithDescendants;
      KeepSplits([c] + inside, rest, keep);
      KeepSplits([c], inside, keep);
      assert Keep([c], keep) == [c];
      assert among == [c] + among[1..];
    }
  }

  lemma {:induction false} NoChildFurtherDown(nodes: seq<UiNode>, k: nat, c: nat, keep: nat -> bool)
    requires IsTree(nodes) && k < c < |nodes|
    requires forall d: nat :: keep(d) == (d < |nodes| && Parent(nodes, d) == Some(k))
    ensures Keep(Descendants(nodes, c), keep) == []
  {
    var inside := Keep(Descendants(nodes, c), keep);
    if inside != [] {
      var d := inside[0];
      assert d in inside;
      assert Ancestors(nodes, d) == [k] + Ancestors(nodes, k);
      DescendantsHaveItAbove(nodes, c, d);
    }
  }
}
