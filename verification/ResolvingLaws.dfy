/** What resolution returns, said of the fields of the nodes and of the descriptor. */
module ResolvingLaws {
  import opened Outcomes
  import opened Snapshots
  import opened Targets
  import opened Trees
  import opened Targeting
  import opened Resolving
  import Names
  import TL = TargetingLaws

  // ---------------------------------------------------------------- what a rung asks of a node

  /** The role asked for, in the frame and the region asked for, where any is. */
  predicate InPlace(node: UiNode, target: TargetDescriptor) {
    && node.role == target.role
    && (target.scope.frame.None? || node.scope.frame == target.scope.frame)
    && (target.scope.region.None? || node.scope.region == target.scope.region)
  }

  /** A text with case, spacing and punctuation folded; no text folds to the empty one. */
  function Plain(t: Texts, text: Option<string>): string {
    match text
    case None => ""
    case Some(s) => if s == "" then "" else t.fold(s)
  }

  /** The name asked for, matched as the descriptor says. */
  predicate IsNamed(t: Texts, node: UiNode, asked: NameMatch) {
    match asked.mode
    case Exact => Names.NormalizeName(node.name) == Names.NormalizeName(Some(asked.value))
    case Contains =>
      Names.NormalizeName(Some(asked.value)).Some?
      && t.contains(Names.NormalizeName(Some(asked.value)).value, node.name.GetOr(""))
    case Regex => node.name.Some? && node.name.value != "" && t.search(asked.value, node.name.value) == Some(true)
    case Normalized => false
  }

  predicate IsAnchor(t: Texts, node: UiNode, anchor: Anchor) {
    match anchor.mode
    case Exact => Names.NormalizeName(node.name) == Names.NormalizeName(Some(anchor.text))
    case Contains => node.name.Some? && node.name.value != "" && t.contains(anchor.text, node.name.value)
    case Normalized => Plain(t, node.name) == Plain(t, Some(anchor.text))
    case Regex => Plain(t, node.name) == Plain(t, Some(anchor.text))
  }

  /** `r` is the closest node of this role that encloses `a`. */
  ghost predicate Encloses(nodes: seq<UiNode>, r: nat, a: nat, role: string)
    requires IsTree(nodes)
  {
    && r < |nodes| && a < |nodes| && r in Ancestors(nodes, a) && nodes[r].role == role
    && forall x: nat | x in Ancestors(nodes, a) && nodes[x].role == role :: x <= r
  }

  /** The table around `a`, or where there is none its parent. */
  ghost predicate IsSection(nodes: seq<UiNode>, s: nat, a: nat)
    requires IsTree(nodes)
  {
    || Encloses(nodes, s, a, "table")
    || (&& s < |nodes| && a < |nodes| && nodes[a].parentId == Some(nodes[s].nodeId)
        && forall x: nat | x in Ancestors(nodes, a) :: nodes[x].role != "table")
  }

  /** The node is the anchor, or its id says that the anchor lies inside it. */
  predicate AtOrInside(nodes: seq<UiNode>, a: nat, kid: nat) {
    a < |nodes| && kid < |nodes| && (nodes[kid].nodeId == nodes[a].nodeId || nodes[kid].nodeId + "/" <= nodes[a].nodeId)
  }

  /** Of the children of the row `c`, `k` is the first in place after the one at or
      around the anchor. */
  ghost predicate NextInRow(nodes: seq<UiNode>, target: TargetDescriptor, a: nat, c: nat, k: nat)
    requires IsTree(nodes) && c < |nodes|
  {
    var kids := Children(nodes, c);
    exists i, n :: 0 <= i < n < |kids| && kids[n] == k && IsNextAfter(nodes, target, a, kids, i, n)
  }

  ghost predicate IsNextAfter(nodes: seq<UiNode>, target: TargetDescriptor, a: nat, kids: seq<nat>, i: nat, n: nat)
    requires i < n < |kids|
  {
    && AtOrInside(nodes, a, kids[i]) && (forall j | 0 <= j < i :: !AtOrInside(nodes, a, kids[j]))
    && forall m | i < m < n :: kids[m] < |nodes| && !InPlace(nodes[kids[m]], target)
  }

  /** Where the relation leads from one anchor. */
  ghost predicate Leads(nodes: seq<UiNode>, target: TargetDescriptor, relation: AnchorRelation, a: nat, k: nat)
    requires IsTree(nodes) && a < |nodes| && k < |nodes|
  {
    match relation
    case RowOf => k != a && exists r :: Encloses(nodes, r, a, "row") && r in Ancestors(nodes, k)
    case WithinSection => k != a && exists s: nat :: IsSection(nodes, s, a) && s in Ancestors(nodes, k)
    case AdjacentTo => exists c :: Encloses(nodes, c, a, "row") && NextInRow(nodes, target, a, c, k)
  }

  ghost predicate Anchored(t: Texts, target: TargetDescriptor, nodes: seq<UiNode>, anchor: Anchor, k: nat)
    requires IsTree(nodes) && k < |nodes|
  {
    exists a: nat :: a < |nodes| && IsAnchor(t, nodes[a], anchor) && Leads(nodes, target, anchor.relation, a, k)
  }

  /** How many nodes in place stand before this one. */
  function InPlaceBefore(nodes: seq<UiNode>, target: TargetDescriptor, k: nat): nat
    requires k <= |nodes|
  {
    if k == 0 then 0 else InPlaceBefore(nodes, target, k - 1) + if InPlace(nodes[k - 1], target) then 1 else 0
  }

  /** The rung offers this node. */
  ghost predicate Offers(t: Texts, strategy: Strategy, target: TargetDescriptor, nodes: seq<UiNode>, k: nat)
    requires IsTree(nodes)
  {
    && k < |nodes| && InPlace(nodes[k], target)
    && match strategy
       case SemanticExact => target.name.Some? && IsNamed(t, nodes[k], target.name.value)
       case SemanticNormalized =>
         target.name.Some? && Plain(t, nodes[k].name) == Plain(t, Some(target.name.value.value)) != ""
       case StructuralAnchor => target.anchor.Some? && Anchored(t, target, nodes, target.anchor.value, k)
       case HintCached =>
         && "css" in target.hints && target.hints["css"] != ""
         && "css" in nodes[k].hints && nodes[k].hints["css"] == target.hints["css"]
         && (target.name.Some? ==> Plain(t, nodes[k].name) == Plain(t, Some(target.name.value.value)))
       case OrdinalInRegion => target.ordinal == Some(InPlaceBefore(nodes, target, k))
       case Vision => false
  }

  // ---------------------------------------------------------------- the rungs offer just these

  lemma {:induction false} InPlaceIsFitting(nodes: seq<UiNode>, target: TargetDescriptor)
    ensures forall k: nat | k < |nodes| :: InPlace(nodes[k], target) <==> Fits(nodes[k], target)
  {
  }

  lemma {:induction false} TheNameRungs(t: Texts, target: TargetDescriptor, nodes: seq<UiNode>)
    requires IsTree(nodes)
    ensures forall k: nat :: k in SemanticExactRung(t, target, nodes) <==> Offers(t, SemanticExact, target, nodes, k)
    ensures forall k: nat ::
              k in SemanticNormalizedRung(t, target, nodes) <==> Offers(t, SemanticNormalized, target, nodes, k)
    ensures forall k: nat :: k in HintRung(t, target, nodes) <==> Offers(t, HintCached, target, nodes, k)
  {
    hide IsTree, Names.NormalizeName;
  }

  lemma {:induction false} CountedBefore(nodes: seq<UiNode>, target: TargetDescriptor, keep: nat -> bool, k: nat)
    requires k <= |nodes| && forall i: nat :: keep(i) == (i < |nodes| && Fits(nodes[i], target))
    ensures InPlaceBefore(nodes, target, k) == |Where(k, keep)|
  {
    hide InPlace, Fits;
    if k > 0 {
      CountedBefore(nodes, target, keep, k - 1);
      WhereGrows(k - 1, keep);
      OneFits(nodes[k - 1], target);
      hide Where;
    }
  }

  lemma WhereGrows(n: nat, keep: nat -> bool)
    ensures |Where(n + 1, keep)| == |Where(n, keep)| + if keep(n) then 1 else 0
  {
  }

  lemma OneFits(node: UiNode, target: TargetDescriptor)
    ensures InPlace(node, target) <==> Fits(node, target)
  {
  }

  lemma {:induction false} PlaceInWhere(n: nat, keep: nat -> bool, k: nat)
    requires k < n && keep(k)
    ensures |Where(k, keep)| < |Where(n, keep)| && Where(n, keep)[|Where(k, keep)|] == k
  {
    if k < n - 1 { PlaceInWhere(n - 1, keep, k); }
  }

  lemma {:induction false} PlacedInThePool(nodes: seq<UiNode>, target: TargetDescriptor, k: nat)
    requires k < |nodes| && InPlace(nodes[k], target)
    ensures var pool, i := Pool(nodes, target), InPlaceBefore(nodes, target, k); i < |pool| && pool[i] == k
  {
    OneFits(nodes[k], target);
    hide Fits, InPlace;
    var keep := (i: nat) => i < |nodes| && Fits(nodes[i], target);
    assert Pool(nodes, target) == Where(|nodes|, keep) by {
      WhereAgrees(|nodes|, keep, (i: nat) => i < |nodes| && Fits(nodes[i], target));
    }
    hide Pool;
    CountedBefore(nodes, target, keep, k);
    PlaceInWhere(|nodes|, keep, k);
  }

  lemma ThePoolIsInPlace(nodes: seq<UiNode>, target: TargetDescriptor)
    ensures forall k: nat :: k in Pool(nodes, target) <==> k < |nodes| && InPlace(nodes[k], target)
    ensures Ascending(Pool(nodes, target))
  {
    InPlaceIsFitting(nodes, target);
    hide Fits, InPlace;
  }

  lemma {:induction false} TheOrdinalRung(t: Texts, target: TargetDescriptor, nodes: seq<UiNode>)
    requires IsTree(nodes)
    ensures forall k: nat :: k in OrdinalRung(target, nodes) <==> Offers(t, OrdinalInRegion, target, nodes, k)
  {
    ThePoolIsInPlace(nodes, target);
    hide IsTree, InPlace, Pool, InPlaceBefore;
    var pool := Pool(nodes, target);
    forall k: nat ensures k in OrdinalRung(target, nodes) <==> Offers(t, OrdinalInRegion, target, nodes, k) {
      if k < |nodes| && InPlace(nodes[k], target) { PlacedInThePool(nodes, target, k); }
      if k in OrdinalRung(target, nodes) { assert k in pool; }
    }
  }

  // ---------------------------------------------------------------- anchors

  lemma {:induction false} AncestorsDescend(nodes: seq<UiNode>, k: nat)
    requires IsTree(nodes) && k < |nodes|
    ensures forall i, j | 0 <= i < j < |Ancestors(nodes, k)| :: Ancestors(nodes, k)[i] > Ancestors(nodes, k)[j]
    decreases k
  {
    hide IsTree, Parent;
    var p := Parent(nodes, k);
    if p.Some? {
      ParentIsTheLister(nodes, p.value, k);
      AncestorsDescend(nodes, p.value);
    }
  }

  lemma {:induction false} FirstIsGreatest(nodes: seq<UiNode>, among: seq<nat>, role: string)
    requires forall i | 0 <= i < |among| :: among[i] < |nodes|
    requires forall i, j | 0 <= i < j < |among| :: among[i] > among[j]
    ensures var r := FirstWithRole(nodes, among, role);
            && (r.Some? ==> forall x: nat | x in among && nodes[x].role == role :: x <= r.value)
            && (r.None? ==> forall x: nat | x in among :: nodes[x].role != role)
  {
    if among != [] && nodes[among[0]].role != role {
      FirstIsGreatest(nodes, among[1..], role);
      assert among == [among[0]] + among[1..];
    }
  }

  lemma {:induction false} NearestEncloses(nodes: seq<UiNode>, a: nat, role: string)
    requires IsTree(nodes) && a < |nodes|
    ensures forall r: nat :: NearestAncestor(nodes, a, role) == Some(r) <==> Encloses(nodes, r, a, role)
    ensures NearestAncestor(nodes, a, role).None? <==>
              forall x: nat | x in Ancestors(nodes, a) :: nodes[x].role != role
  {
    hide IsTree, Ancestors;
    AncestorsDescend(nodes, a);
    FirstIsGreatest(nodes, Ancestors(nodes, a), role);
  }

  lemma {:induction false} BelowMeans(nodes: seq<UiNode>, target: TargetDescriptor, top: Option<nat>, a: nat, k: nat)
    requires IsTree(nodes) && a < |nodes| && k < |nodes| && (top.Some? ==> top.value < |nodes|)
    ensures k in FittingBelow(nodes, target, top, a) <==>
              top.Some? && top.value in Ancestors(nodes, k) && InPlace(nodes[k], target) && k != a
  {
    if top.Some? { DescendantsHaveItAbove(nodes, top.value, k); }
    InPlaceIsFitting(nodes, target);
    if nodes[k].nodeId == nodes[a].nodeId { SameIdSameNode(nodes, k, a); }
    hide IsTree, Descendants, Ancestors, Fits, InPlace;
  }

  lemma {:induction false} SectionMeans(nodes: seq<UiNode>, a: nat)
    requires IsTree(nodes) && a < |nodes|
    ensures forall s: nat :: Section(nodes, a) == Some(s) <==> IsSection(nodes, s, a)
  {
    NearestEncloses(nodes, a, "table");
    hide Ancestors, NearestAncestor;
    forall s: nat | s < |nodes| ensures Parent(nodes, a) == Some(s) <==> nodes[a].parentId == Some(nodes[s].nodeId) {
      ParentIsTheLister(nodes, s, a);
    }
    hide IsTree, Parent;
  }

  lemma {:induction false} ContainerMeans(nodes: seq<UiNode>, a: nat)
    requires IsTree(nodes) && a < |nodes|
    ensures forall c: nat :: Container(nodes, a) == Some(c) <==> Encloses(nodes, c, a, "row")
  {
    NearestEncloses(nodes, a, "row");
    if Container(nodes, a).Some? { TL.ContainersEnclose(nodes, a); }
    hide IsTree, Ancestors, Parent, NearestAncestor;
  }

  /** The two searches along a row find the one pair of places there is. */
  lemma {:induction false} NextIsUnique(nodes: seq<UiNode>, target: TargetDescriptor, a: nat, kids: seq<nat>, k: nat)
    requires a < |nodes| && k < |nodes| && forall j | 0 <= j < |kids| :: kids[j] < |nodes|
    ensures var i := FirstHolding(nodes, kids, a);
            var n := if i < |kids| then FirstFitting(nodes, target, kids, i + 1) else |kids|;
            (i < |kids| && n < |kids| && kids[n] == k) <==>
              exists p, q :: 0 <= p < q < |kids| && kids[q] == k && InPlace(nodes[k], target)
                             && IsNextAfter(nodes, target, a, kids, p, q)
  {
    InPlaceIsFitting(nodes, target);
    hide InPlace, Fits;
    assert forall j | 0 <= j < |kids| :: AtOrInside(nodes, a, kids[j]) <==> Holds(nodes, kids[j], a);
    var i := FirstHolding(nodes, kids, a);
    var n := if i < |kids| then FirstFitting(nodes, target, kids, i + 1) else |kids|;
    if i < |kids| && n < |kids| && kids[n] == k {
      assert IsNextAfter(nodes, target, a, kids, i, n);
    }
    if p, q :| 0 <= p < q < |kids| && kids[q] == k && InPlace(nodes[k], target)
               && IsNextAfter(nodes, target, a, kids, p, q) {
      assert p == i;
      assert q == n;
    }
  }

  lemma {:induction false} FollowingIs(nodes: seq<UiNode>, target: TargetDescriptor, a: nat, c: nat, k: nat)
    requires IsTree(nodes) && a < |nodes| && Container(nodes, a) == Some(c)
    ensures var kids := Siblings(nodes, c);
            var i := FirstHolding(nodes, kids, a);
            var n := if i < |kids| then FirstFitting(nodes, target, kids, i + 1) else |kids|;
            k in Following(nodes, target, a) <==> i < |kids| && n < |kids| && kids[n] == k
  {
    hide IsTree, Container, Siblings, FirstHolding, FirstFitting;
  }

  lemma {:induction false} LeadsInItsRow(nodes: seq<UiNode>, target: TargetDescriptor, a: nat, c: nat, k: nat)
    requires IsTree(nodes) && a < |nodes| && k < |nodes| && Encloses(nodes, c, a, "row")
    requires forall other: nat | Encloses(nodes, other, a, "row") :: other == c
    ensures Leads(nodes, target, AdjacentTo, a, k) <==> NextInRow(nodes, target, a, c, k)
  {
    hide IsTree, NextInRow;
  }

  lemma {:induction false} FollowingMeans(nodes: seq<UiNode>, target: TargetDescriptor, a: nat, k: nat)
    requires IsTree(nodes) && a < |nodes| && k < |nodes|
    ensures k in Following(nodes, target, a) <==>
              InPlace(nodes[k], target) && Leads(nodes, target, AdjacentTo, a, k)
  {
    ContainerMeans(nodes, a);
    if Container(nodes, a).Some? {
      FollowingIn(nodes, target, a, Container(nodes, a).value, k);
    } else {
      hide IsTree, Children, Siblings, InPlace, Encloses;
    }
  }

  lemma NextInRowIs(nodes: seq<UiNode>, target: TargetDescriptor, a: nat, c: nat, k: nat)
    requires IsTree(nodes) && c < |nodes| && k < |nodes|
    ensures var kids := Children(nodes, c);
            (InPlace(nodes[k], target) && NextInRow(nodes, target, a, c, k)) <==>
              exists p, q :: 0 <= p < q < |kids| && kids[q] == k && InPlace(nodes[k], target)
                             && IsNextAfter(nodes, target, a, kids, p, q)
  {
    hide IsTree, Children, InPlace, IsNextAfter;
  }

  lemma {:induction false} FollowingIn(nodes: seq<UiNode>, target: TargetDescriptor, a: nat, c: nat, k: nat)
    requires IsTree(nodes) && a < |nodes| && k < |nodes| && Container(nodes, a) == Some(c)
    requires Encloses(nodes, c, a, "row") && forall other: nat | Encloses(nodes, other, a, "row") :: other == c
    ensures k in Following(nodes, target, a) <==>
              InPlace(nodes[k], target) && Leads(nodes, target, AdjacentTo, a, k)
  {
    hide IsTree, Container, Children, Siblings, InPlace, IsNextAfter, Encloses, Following, FirstHolding, FirstFitting;
    hide Leads, NextInRow;
    FollowingIs(nodes, target, a, c, k);
    TL.SiblingsAreChildren(nodes, c);
    NextIsUnique(nodes, target, a, Children(nodes, c), k);
    LeadsInItsRow(nodes, target, a, c, k);
    NextInRowIs(nodes, target, a, c, k);
  }

  lemma {:induction false} ReachedMeans(nodes: seq<UiNode>, target: TargetDescriptor, relation: AnchorRelation, a: nat,
                                        k: nat)
    requires IsTree(nodes) && a < |nodes| && k < |nodes|
    ensures k in Reached(nodes, target, relation, a) <==>
              InPlace(nodes[k], target) && Leads(nodes, target, relation, a, k)
  {
    hide IsTree, Ancestors, InPlace, Following, Encloses, IsSection, FittingBelow, NearestAncestor, Section;
    match relation
    case RowOf =>
      NearestEncloses(nodes, a, "row");
      BelowMeans(nodes, target, NearestAncestor(nodes, a, "row"), a, k);
    case AdjacentTo => FollowingMeans(nodes, target, a, k);
    case WithinSection =>
      SectionMeans(nodes, a);
      BelowMeans(nodes, target, Section(nodes, a), a, k);
  }

  lemma {:induction false} TheAnchorRung(t: Texts, target: TargetDescriptor, nodes: seq<UiNode>)
    requires IsTree(nodes)
    ensures forall k: nat :: k in StructuralRung(t, target, nodes) <==> Offers(t, StructuralAnchor, target, nodes, k)
  {
    hide IsTree, InPlace, Leads, Reached, Names.NormalizeName;
    if target.anchor.Some? {
      var anchor := target.anchor.value;
      forall k: nat | k < |nodes|
        ensures ReachedBySome(t, nodes, target, anchor, k) <==>
                  InPlace(nodes[k], target) && Anchored(t, target, nodes, anchor, k)
      {
        forall a: nat | a < |nodes|
          ensures AnchorMatches(t, nodes[a], anchor) <==> IsAnchor(t, nodes[a], anchor)
          ensures k in Reached(nodes, target, anchor.relation, a) <==>
                    InPlace(nodes[k], target) && Leads(nodes, target, anchor.relation, a, k)
        {
          ReachedMeans(nodes, target, anchor.relation, a, k);
        }
      }
    }
  }

  // ---------------------------------------------------------------- resolution

  lemma {:induction false} EveryRung(t: Texts, strategy: Strategy, target: TargetDescriptor, nodes: seq<UiNode>)
    requires IsTree(nodes)
    ensures Ascending(Candidates(t, strategy, target, nodes))
    ensures forall k: nat :: k in Candidates(t, strategy, target, nodes) <==> Offers(t, strategy, target, nodes, k)
  {
    CandidatesAreOrderedAndFit(t, strategy, target, nodes);
    hide IsTree, Offers, SemanticExactRung, SemanticNormalizedRung, StructuralRung, HintRung, OrdinalRung;
    match strategy
    case StructuralAnchor => TheAnchorRung(t, target, nodes);
    case OrdinalInRegion => TheOrdinalRung(t, target, nodes);
    case Vision => VisionOffersNothing(t, target, nodes);
    case _ => TheNameRungs(t, target, nodes);
  }

  lemma VisionOffersNothing(t: Texts, target: TargetDescriptor, nodes: seq<UiNode>)
    requires IsTree(nodes)
    ensures forall k: nat :: !Offers(t, Vision, target, nodes, k)
  {
  }

  /** The first rung available, from `j` on, that offers anything. */
  lemma {:induction false} FirstAvailable(t: Texts, resolver: Resolver, target: TargetDescriptor, nodes: seq<UiNode>,
                                          j: nat)
    returns (i: nat)
    requires IsTree(nodes) && j <= |resolver.available|
    ensures j <= i <= |resolver.available|
    ensures forall m | j <= m < i :: Candidates(t, resolver.available[m], target, nodes) == []
    ensures var ladder := Ladder(resolver, j);
            var first := FirstOffer(t, ladder, target, nodes);
            if i == |resolver.available| then first == |ladder|
            else first < |ladder| && ladder[first] == resolver.available[i]
                 && Candidates(t, resolver.available[i], target, nodes) != []
    decreases |resolver.available| - j
  {
    hide IsTree, FirstOffer, Candidates;
    if j == |resolver.available| {
      i := j;
    } else {
      var first, rest := resolver.available[j], Ladder(resolver, j + 1);
      VisionHasNoRung(t, target, nodes);
      FirstOrLater(t, first, rest, target, nodes);
      LadderFrom(resolver, j);
      hide Ladder;
      i := j;
      if Candidates(t, first, target, nodes) == [] {
        i := FirstAvailable(t, resolver, target, nodes, j + 1);
      }
    }
  }

  lemma LadderFrom(resolver: Resolver, j: nat)
    requires j < |resolver.available|
    ensures var first, rest := resolver.available[j], Ladder(resolver, j + 1);
            Ladder(resolver, j) == if resolver.allowVision || first != Vision then [first] + rest else rest
  {
    var rest := Ladder(resolver, j + 1);
    assert [] + rest == rest;
  }

  lemma VisionHasNoRung(t: Texts, target: TargetDescriptor, nodes: seq<UiNode>)
    requires IsTree(nodes)
    ensures Candidates(t, Vision, target, nodes) == []
  {
    hide IsTree;
  }

  lemma FirstOrLater(t: Texts, first: Strategy, rest: seq<Strategy>, target: TargetDescriptor, nodes: seq<UiNode>)
    requires IsTree(nodes)
    ensures FirstOffer(t, [first] + rest, target, nodes)
            == if Candidates(t, first, target, nodes) != [] then 0 else 1 + FirstOffer(t, rest, target, nodes)
  {
    hide IsTree, Candidates, FirstFilled;
    var ladder := [first] + rest;
    assert ladder[0] == first && forall m | 0 <= m < |rest| :: ladder[m + 1] == rest[m];
    var n, k := FirstOffer(t, ladder, target, nodes), FirstOffer(t, rest, target, nodes);
    hide FirstOffer;
    if Candidates(t, first, target, nodes) == [] {
      assert k < |rest| ==> Candidates(t, ladder[k + 1], target, nodes) != [];
      assert 0 < n <= k + 1;
      assert n - 1 < |rest| ==> Candidates(t, rest[n - 1], target, nodes) != [];
    }
  }

  /** What resolution means. The rungs available are tried in their order, and the first
      that offers anything decides. If it offers one node, that node is returned; if
      several, the descriptor's ordinal picks among them in document order; and if it
      has none, or it is out of range, they are refused as ambiguous. When no rung
      offers anything, nothing matched. */
  lemma {:induction false} WhatResolutionMeans(t: Texts, resolver: Resolver, target: TargetDescriptor,
                                               nodes: seq<UiNode>)
    returns (i: nat, offered: seq<nat>)
    requires IsTree(nodes)
    ensures i <= |resolver.available|
    ensures forall j, k: nat | 0 <= j < i :: !Offers(t, resolver.available[j], target, nodes, k)
    ensures i < |resolver.available| ==>
              && offered != [] && Ascending(offered)
              && forall k: nat :: k in offered <==> Offers(t, resolver.available[i], target, nodes, k)
    ensures Resolved(t, resolver, target, nodes) ==
              if i == |resolver.available| then Err(NothingMatched)
              else if |offered| == 1 then Ok(Resolution(offered[0], resolver.available[i], 1))
              else if target.ordinal.Some? && 0 <= target.ordinal.value < |offered| then
                Ok(Resolution(offered[target.ordinal.value], resolver.available[i], |offered|))
              else Err(Ambiguous(offered))
  {
    hide IsTree, Candidates, Offers, Ladder, FirstOffer;
    i := FirstAvailable(t, resolver, target, nodes, 0);
    offered := if i < |resolver.available| then Candidates(t, resolver.available[i], target, nodes) else [];
    forall j, k: nat | 0 <= j < i ensures !Offers(t, resolver.available[j], target, nodes, k) {
      EveryRung(t, resolver.available[j], target, nodes);
      assert k !in Candidates(t, resolver.available[j], target, nodes);
    }
    if i < |resolver.available| { EveryRung(t, resolver.available[i], target, nodes); }
  }

  /** In particular a node found by its folded name has that very name, folded, and it
      is not the empty one; and what it was picked from is all the nodes in place that
      have it. */
  lemma {:induction false} FoundByItsFoldedName(t: Texts, resolver: Resolver, target: TargetDescriptor,
                                                nodes: seq<UiNode>)
    requires IsTree(nodes) && Resolved(t, resolver, target, nodes).Ok?
    requires Resolved(t, resolver, target, nodes).value.strategy == SemanticNormalized
    ensures var k := Resolved(t, resolver, target, nodes).value.node;
            && k < |nodes| && InPlace(nodes[k], target) && target.name.Some? && target.name.value.value != ""
            && nodes[k].name.Some? && nodes[k].name.value != ""
            && t.fold(nodes[k].name.value) == t.fold(target.name.value.value) != ""
  {
    hide IsTree, Resolved, InPlace;
    var i, offered := WhatResolutionMeans(t, resolver, target, nodes);
    var k := Resolved(t, resolver, target, nodes).value.node;
    assert k in offered;
  }
}
