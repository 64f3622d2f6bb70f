/** What the descriptor recorded for a node says of it, field by field. */
module SynthesisLaws {
  import opened Outcomes
  import opened Snapshots
  import opened Targets
  import opened Trees
  import opened Targeting
  import opened Resolving
  import opened Synthesis
  import R = ResolvingLaws

  predicate IsNamed(node: UiNode) {
    node.name.Some? && node.name.value != ""
  }

  /** Another cell, with a name. */
  ghost predicate IsRowName(nodes: seq<UiNode>, d: nat, k: nat) {
    d < |nodes| && d != k && nodes[d].role == "cell" && IsNamed(nodes[d])
  }

  /** The text names the first named cell of the closest row around the node. */
  ghost predicate HeadsItsRow(nodes: seq<UiNode>, k: nat, text: string)
    requires IsTree(nodes) && k < |nodes|
  {
    exists r :: R.Encloses(nodes, r, k, "row") && IsFirstName(nodes, Descendants(nodes, r), k, text)
  }

  ghost predicate IsFirstName(nodes: seq<UiNode>, among: seq<nat>, k: nat, text: string) {
    exists i :: 0 <= i < |among| && IsFirstNameAt(nodes, among, k, text, i)
  }

  ghost predicate IsFirstNameAt(nodes: seq<UiNode>, among: seq<nat>, k: nat, text: string, i: nat)
    requires i < |among|
  {
    && IsRowName(nodes, among[i], k) && nodes[among[i]].name == Some(text)
    && forall j | 0 <= j < i :: !IsRowName(nodes, among[j], k)
  }

  /** Named, and not with what reads as a value. */
  predicate IsWording(t: Texts, node: UiNode) {
    IsNamed(node) && !t.looksLikeValue(node.name.value)
  }

  /** The text names the closest of the children before it that is worded as a label. */
  ghost predicate StandsBefore(t: Texts, nodes: seq<UiNode>, k: nat, text: string)
    requires IsTree(nodes) && k < |nodes|
  {
    exists p: nat :: p < |nodes| && nodes[k].parentId == Some(nodes[p].nodeId)
                     && IsLastWording(t, nodes, Children(nodes, p), k, text)
  }

  ghost predicate IsLastWording(t: Texts, nodes: seq<UiNode>, kids: seq<nat>, k: nat, text: string) {
    exists i, j :: 0 <= j < i < |kids| && kids[i] == k && IsWordingAt(t, nodes, kids, i, j, text)
  }

  ghost predicate IsWordingAt(t: Texts, nodes: seq<UiNode>, kids: seq<nat>, i: nat, j: nat, text: string)
    requires j < i < |kids|
  {
    && kids[j] < |nodes| && IsWording(t, nodes[kids[j]]) && nodes[kids[j]].name == Some(text)
    && forall m | j < m < i :: kids[m] < |nodes| && !IsWording(t, nodes[kids[m]])
  }

  /** What is read is known by the label before it; what is acted on, by its row. */
  ghost predicate IsItsLabel(t: Texts, nodes: seq<UiNode>, k: nat, text: string)
    requires IsTree(nodes) && k < |nodes|
  {
    if nodes[k].role in {"cell", "text", "heading"} then StandsBefore(t, nodes, k, text)
    else HeadsItsRow(nodes, k, text)
  }

  // ---------------------------------------------------------------- labels

  lemma {:induction false} FirstNameMeans(nodes: seq<UiNode>, among: seq<nat>, k: nat, text: string)
    requires DistinctIds(nodes) && k < |nodes| && forall i | 0 <= i < |among| :: among[i] < |nodes|
    ensures FirstNamedCell(nodes, among, k) == Some(text) <==> IsFirstName(nodes, among, k, text)
  {
    if among != [] {
      var rest := among[1..];
      SameIdsSameNode(nodes, among[0], k);
      if IsRowName(nodes, among[0], k) {
        if nodes[among[0]].name == Some(text) { assert IsFirstNameAt(nodes, among, k, text, 0); }
      } else {
        FirstNameMeans(nodes, rest, k, text);
        assert forall i | 0 <= i < |rest| :: rest[i] == among[i + 1];
        if IsFirstName(nodes, rest, k, text) {
          var i :| 0 <= i < |rest| && IsFirstNameAt(nodes, rest, k, text, i);
          assert forall j | 0 < j <= i :: among[j] == rest[j - 1];
          assert IsFirstNameAt(nodes, among, k, text, i + 1);
        }
        if IsFirstName(nodes, among, k, text) {
          var i :| 0 <= i < |among| && IsFirstNameAt(nodes, among, k, text, i);
          assert IsFirstNameAt(nodes, rest, k, text, i - 1);
        }
      }
    }
  }

  lemma SameIdsSameNode(nodes: seq<UiNode>, a: nat, b: nat)
    requires DistinctIds(nodes) && a < |nodes| && b < |nodes|
    ensures nodes[a].nodeId == nodes[b].nodeId <==> a == b
  {
  }

  lemma {:induction false} RowLabelMeans(nodes: seq<UiNode>, k: nat, text: string)
    requires IsTree(nodes) && k < |nodes|
    ensures RowLabel(nodes, k) == Some(text) <==> HeadsItsRow(nodes, k, text)
  {
    R.NearestEncloses(nodes, k, "row");
    assert DistinctIds(nodes);
    hide IsTree, R.Encloses, IsFirstName, Descendants, NearestAncestor;
    var row := NearestAncestor(nodes, k, "row");
    if row.Some? { FirstNameMeans(nodes, Descendants(nodes, row.value), k, text); }
  }

  lemma {:induction false} LastWordingMeans(t: Texts, nodes: seq<UiNode>, kids: seq<nat>, k: nat, text: string)
    requires DistinctIds(nodes) && k < |nodes| && forall i | 0 <= i < |kids| :: kids[i] < |nodes|
    requires forall a, b | 0 <= a < b < |kids| :: kids[a] != kids[b]
    ensures var i := IndexAmong(nodes, kids, k);
            var j := if i == |kids| then None else LabelBefore(t, nodes, kids, i);
            (j.Some? && nodes[kids[j.value]].name == Some(text)) <==> IsLastWording(t, nodes, kids, k, text)
  {
    var i := IndexAmong(nodes, kids, k);
    forall a | 0 <= a < |kids| ensures kids[a] == k <==> a == i {
      SameIdsSameNode(nodes, kids[a], k);
      if i < |kids| { SameIdsSameNode(nodes, kids[i], k); }
    }
    if i < |kids| {
      var j := LabelBefore(t, nodes, kids, i);
      if j.Some? && nodes[kids[j.value]].name == Some(text) {
        assert IsWordingAt(t, nodes, kids, i, j.value, text);
      }
    }
  }

  lemma {:induction false} PrecedingLabelMeans(t: Texts, nodes: seq<UiNode>, k: nat, text: string)
    requires IsTree(nodes) && k < |nodes|
    ensures PrecedingLabel(t, nodes, k) == Some(text) <==> StandsBefore(t, nodes, k, text)
  {
    forall p: nat | p < |nodes| ensures Parent(nodes, k) == Some(p) <==> nodes[k].parentId == Some(nodes[p].nodeId) {
      ParentIsTheLister(nodes, p, k);
    }
    assert DistinctIds(nodes);
    var parent := Parent(nodes, k);
    if parent.Some? {
      FilteredDescendantsAreTheChildren(nodes, parent.value);
      ChildrenAreExact(nodes, parent.value);
      hide IsTree, Children, Descendants, IsLastWording, LabelBefore, IndexAmong, Parent;
      LastWordingMeans(t, nodes, Siblings(nodes, parent.value), k, text);
    } else {
      hide IsTree, Parent;
    }
  }

  // ---------------------------------------------------------------- the descriptor

  /** No label, or one of the wording and the relation the node's role calls for. */
  ghost predicate AnchoredBy(t: Texts, nodes: seq<UiNode>, k: nat, anchor: Option<Anchor>)
    requires IsTree(nodes) && k < |nodes|
  {
    match anchor
    case None => forall text | text != "" :: !IsItsLabel(t, nodes, k, text)
    case Some(a) =>
      && a.text != "" && a.mode == MatchMode.Normalized && IsItsLabel(t, nodes, k, a.text)
      && a.relation == if nodes[k].role in {"cell", "text", "heading"} then AdjacentTo else RowOf
  }

  lemma {:induction false} AnchorsAreLabels(t: Texts, nodes: seq<UiNode>, k: nat)
    requires IsTree(nodes) && k < |nodes|
    ensures AnchoredBy(t, nodes, k, AnchorFor(t, nodes, k))
  {
    hide IsTree, RowLabel, PrecedingLabel, StandsBefore, HeadsItsRow;
    forall text ensures IsItsLabel(t, nodes, k, text) <==>
                          (if IsReadable(nodes[k].role) then PrecedingLabel(t, nodes, k) else RowLabel(nodes, k))
                          == Some(text)
    {
      RowLabelMeans(nodes, k, text);
      PrecedingLabelMeans(t, nodes, k, text);
    }
  }

  /** Of the node's role, in its frame and its region where it has them. */
  predicate IsLike(node: UiNode, other: UiNode) {
    && other.role == node.role
    && (node.scope.frame.None? || other.scope.frame == node.scope.frame)
    && (node.scope.region.None? || other.scope.region == node.scope.region)
  }

  ghost predicate OnlyOneSoNamed(nodes: seq<UiNode>, k: nat)
    requires k < |nodes|
  {
    forall i | 0 <= i < |nodes| && IsLike(nodes[k], nodes[i]) && nodes[i].name == nodes[k].name :: i == k
  }

  /** The nodes like it that stand before it. */
  ghost function LikeBefore(nodes: seq<UiNode>, k: nat): set<nat>
    requires k < |nodes|
  {
    LikeAmongFirst(nodes, k, k)
  }

  ghost function LikeAmongFirst(nodes: seq<UiNode>, k: nat, n: nat): set<nat>
    requires n <= |nodes| && k < |nodes|
  {
    set i: nat | i < n && IsLike(nodes[k], nodes[i])
  }

  /** A descriptor always says the node's role, frame and region, and carries its hints
      and fingerprint. It says the name when that is the node's alone among its like,
      with the label beside it if there is one; else that label; else its position, and
      the name if it has any. The strategy recorded is the one it is to be found by. */
  lemma {:induction false} TheDescriptorSays(t: Texts, nodes: seq<UiNode>, k: nat)
    requires IsTree(nodes) && k < |nodes|
    ensures var node, s := nodes[k], Synthesize(t, nodes, k);
            var d := s.descriptor;
            var name := if IsNamed(node) then Some(NameMatch(node.name.value, MatchMode.Exact)) else None;
            && d.role == node.role && d.scope == node.scope && d.hints == node.hints
            && d.fingerprint == node.fingerprint && d.recordedStrategy == Some(s.strategy)
            && if IsNamed(node) && OnlyOneSoNamed(nodes, k) then
                 && s.strategy == SemanticExact && s.unique && d.name == name && d.ordinal.None?
                 && AnchoredBy(t, nodes, k, d.anchor)
               else if exists text :: text != "" && IsItsLabel(t, nodes, k, text) then
                 && s.strategy == StructuralAnchor && s.unique && d.name.None? && d.ordinal.None?
                 && d.anchor.Some? && AnchoredBy(t, nodes, k, d.anchor)
               else
                 && s.strategy == OrdinalInRegion && !s.unique && d.name == name && d.anchor.None?
                 && d.ordinal == Some(|LikeBefore(nodes, k)|)
  {
    AnchorsAreLabels(t, nodes, k);
    NamedAlone(nodes, k);
    assert DistinctIds(nodes);
    PoolAreNodes(nodes, ScopeOf(nodes[k]));
    PositionIsCounted(nodes, k);
    hide IsTree, AnchorFor, IsItsLabel, SameName, OnlyOneSoNamed, Pool, LikeBefore, IndexAmong;
  }

  lemma {:induction false} NamedAlone(nodes: seq<UiNode>, k: nat)
    requires k < |nodes|
    ensures |SameName(nodes, k)| == 1 <==> OnlyOneSoNamed(nodes, k)
  {
    var same := SameName(nodes, k);
    ItselfFits(nodes[k]);
    assert k in same;
    OneMember(same, k);
    forall i: nat | i < |nodes| ensures i in same <==> IsLike(nodes[k], nodes[i]) && nodes[i].name == nodes[k].name {
    }
  }

  lemma {:induction false} PositionIsCounted(nodes: seq<UiNode>, k: nat)
    requires DistinctIds(nodes) && k < |nodes|
    requires forall i | 0 <= i < |Pool(nodes, ScopeOf(nodes[k]))| :: Pool(nodes, ScopeOf(nodes[k]))[i] < |nodes|
    ensures var pool := Pool(nodes, ScopeOf(nodes[k]));
            IndexAmong(nodes, pool, k) == |LikeBefore(nodes, k)| < |pool|
  {
    var scope := ScopeOf(nodes[k]);
    var keep := (i: nat) => i < |nodes| && Fits(nodes[i], scope);
    var pool := Pool(nodes, scope);
    ItselfFits(nodes[k]);
    IndexInWhere(|nodes|, keep, k);
    CountedByWhere(nodes, k, keep, k);
    var n := |Where(k, keep)|;
    var i := IndexAmong(nodes, pool, k);
    assert pool == Where(|nodes|, keep) && pool[n] == k;
    forall a | 0 <= a < |pool| ensures pool[a] == k <==> a == i {
      SameIdsSameNode(nodes, pool[a], k);
      if i < |pool| { SameIdsSameNode(nodes, pool[i], k); }
    }
  }

  lemma {:induction false} CountedByWhere(nodes: seq<UiNode>, k: nat, keep: nat -> bool, n: nat)
    requires n <= k < |nodes| && forall i: nat :: keep(i) == (i < |nodes| && Fits(nodes[i], ScopeOf(nodes[k])))
    ensures |LikeAmongFirst(nodes, k, n)| == |Where(n, keep)|
  {
    hide LikeAmongFirst;
    if n == 0 {
      NoneYet(nodes, k);
    } else {
      CountedByWhere(nodes, k, keep, n - 1);
      OneMoreLike(nodes, k, n);
      LikeIsFitting(nodes[k], nodes[n - 1]);
      hide IsLike, Fits;
    }
  }

  lemma NoneYet(nodes: seq<UiNode>, k: nat)
    requires k < |nodes|
    ensures |LikeAmongFirst(nodes, k, 0)| == 0
  {
  }

  lemma OneMoreLike(nodes: seq<UiNode>, k: nat, n: nat)
    requires 0 < n <= |nodes| && k < |nodes|
    ensures |LikeAmongFirst(nodes, k, n)|
            == |LikeAmongFirst(nodes, k, n - 1)| + if IsLike(nodes[k], nodes[n - 1]) then 1 else 0
  {
    hide IsLike;
    var before, now := LikeAmongFirst(nodes, k, n - 1), LikeAmongFirst(nodes, k, n);
    if IsLike(nodes[k], nodes[n - 1]) {
      assert now == before + {n - 1};
    } else {
      assert now == before;
    }
  }

  lemma LikeIsFitting(node: UiNode, other: UiNode)
    ensures IsLike(node, other) <==> Fits(other, ScopeOf(node))
  {
  }
}
