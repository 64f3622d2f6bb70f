/** What the structural relations mean on snapshots the builder wrote. */
module TargetingLaws {
  import opened Outcomes
  import opened Snapshots
  import opened Targets
  import opened Trees
  import opened Targeting
  import Build = SnapshotBuild
  import Laws = SnapshotLaws

  /** Every tree of the snapshot lives in one frame. */
  ghost predicate OneFramePerTree(nodes: seq<UiNode>)
    requires IsTree(nodes)
  {
    forall k | 0 <= k < |nodes| && Parent(nodes, k).Some? ::
      nodes[k].scope.frame == nodes[Parent(nodes, k).value].scope.frame
  }

  /** A snapshot as the builder leaves it, one frame to a tree. */
  ghost predicate BuiltInOneFrame(lex: Build.Lexicon, elements: seq<Build.Raw>, nodes: seq<UiNode>) {
    && Build.WellReported(elements) && Laws.PlainRoles(lex, elements) && nodes == Build.Nodes(lex, elements)
    && IsTree(nodes) && OneFramePerTree(nodes)
  }

  lemma {:induction false} FrameRunsDown(nodes: seq<UiNode>, k: nat, d: nat)
    requires IsTree(nodes) && OneFramePerTree(nodes) && k < |nodes| && d < |nodes|
    requires k == d || k in Ancestors(nodes, d)
    ensures nodes[k].scope.frame == nodes[d].scope.frame
    decreases d
  {
    if k != d {
      var p := Parent(nodes, d).value;
      ParentIsTheLister(nodes, p, d);
      FrameRunsDown(nodes, k, p);
    }
  }

  /** The id prefix test finds exactly the anchor and what encloses it. */
  lemma {:induction false} HoldsIsAtOrAbove(lex: Build.Lexicon, elements: seq<Build.Raw>, nodes: seq<UiNode>, s: nat,
                                            a: nat)
    requires BuiltInOneFrame(lex, elements, nodes) && s < |nodes| && a < |nodes|
    requires nodes[s].scope.frame == nodes[a].scope.frame
    ensures Holds(nodes, s, a) <==> s == a || s in Ancestors(nodes, a)
  {
    hide IsTree, Build.Nodes, Build.WellReported, Laws.PlainRoles;
    Laws.IdsShowDescent(lex, elements, s, a);
    if nodes[s].nodeId == nodes[a].nodeId { SameIdSameNode(nodes, s, a); }
  }

  /** Of a node and the container above it, exactly one child of the container is on
      the way, and it is the one the prefix test stops at. */
  lemma {:induction false} TheBranchIsHeld(lex: Build.Lexicon, elements: seq<Build.Raw>, nodes: seq<UiNode>, c: nat,
                                           a: nat)
    returns (i: nat)
    requires BuiltInOneFrame(lex, elements, nodes) && c < |nodes| && a < |nodes| && c in Ancestors(nodes, a)
    ensures Siblings(nodes, c) == Children(nodes, c) && i == FirstHolding(nodes, Children(nodes, c), a)
    ensures i < |Children(nodes, c)|
    ensures forall k | 0 <= k < |Children(nodes, c)| ::
              k == i <==> Children(nodes, c)[k] == a || Children(nodes, c)[k] in Ancestors(nodes, a)
  {
    hide BuiltInOneFrame, IsTree, Parent, Ancestors, Children, OneFramePerTree, Holds, Siblings;
    TreeOf(lex, elements, nodes);
    SiblingsAreChildren(nodes, c);
    ChildrenAreExact(nodes, c);
    var kids := Children(nodes, c);
    forall k | 0 <= k < |kids| ensures Holds(nodes, kids[k], a) <==> kids[k] == a || kids[k] in Ancestors(nodes, a) {
      ChildSharesFrame(nodes, c, kids[k], a);
      HoldsIsAtOrAbove(lex, elements, nodes, kids[k], a);
    }
    var branch := BranchTowards(nodes, c, a);
    assert branch in kids;
    i := FirstHolding(nodes, kids, a);
    forall k | 0 <= k < |kids| && (kids[k] == a || kids[k] in Ancestors(nodes, a)) ensures k == i {
      OneBranchOnly(nodes, c, kids[k], kids[i], a);
    }
  }

  lemma TreeOf(lex: Build.Lexicon, elements: seq<Build.Raw>, nodes: seq<UiNode>)
    requires BuiltInOneFrame(lex, elements, nodes)
    ensures IsTree(nodes) && OneFramePerTree(nodes)
  {
  }

  lemma SiblingsAreChildren(nodes: seq<UiNode>, c: nat)
    requires IsTree(nodes) && c < |nodes|
    ensures Siblings(nodes, c) == Children(nodes, c)
  {
    hide IsTree, Descendants, Children;
    FilteredDescendantsAreTheChildren(nodes, c);
  }

  lemma ChildSharesFrame(nodes: seq<UiNode>, c: nat, kid: nat, a: nat)
    requires IsTree(nodes) && OneFramePerTree(nodes) && c < |nodes| && kid < |nodes| && a < |nodes|
    requires Parent(nodes, kid) == Some(c) && c in Ancestors(nodes, a)
    ensures nodes[kid].scope.frame == nodes[a].scope.frame
  {
    hide IsTree, Ancestors;
    FrameRunsDown(nodes, c, a);
  }

  lemma {:induction false} OneBranchOnly(nodes: seq<UiNode>, c: nat, s: nat, u: nat, a: nat)
    requires IsTree(nodes) && c < |nodes| && s < |nodes| && u < |nodes| && a < |nodes|
    requires Parent(nodes, s) == Some(c) && Parent(nodes, u) == Some(c)
    requires s == a || s in Ancestors(nodes, a)
    requires u == a || u in Ancestors(nodes, a)
    ensures s == u
    decreases a
  {
    hide IsTree, Parent;
    ParentIsTheLister(nodes, c, s);
    ParentIsTheLister(nodes, c, u);
    assert Ancestors(nodes, s) == Ancestors(nodes, u) == [c] + Ancestors(nodes, c);
    // were one of the two at the anchor, the other would be above it: at or above `c`
    if s != u && s != a && u != a {
      var p := Parent(nodes, a).value;
      ParentIsTheLister(nodes, p, a);
      OneBranchOnly(nodes, c, s, u, p);
    }
  }

  /** ADJACENT_TO: of the container's children in order, the first after the one that
      is or encloses the anchor to match role and scope, and never another. */
  lemma {:induction false} AdjacentIsTheFirstLaterChild(lex: Build.Lexicon, elements: seq<Build.Raw>,
                                                        nodes: seq<UiNode>,
                                                        target: TargetDescriptor, a: nat, c: nat) returns (i: nat,
                                                               next: nat)
    requires BuiltInOneFrame(lex, elements, nodes) && a < |nodes| && Container(nodes, a) == Some(c)
    ensures var kids := Children(nodes, c);
            && i < next <= |kids| && (kids[i] == a || kids[i] in Ancestors(nodes, a))
            && (forall k | 0 <= k < |kids| && k != i :: kids[k] != a && kids[k] !in Ancestors(nodes, a))
            && (forall k | i < k < next :: kids[k] < |nodes| && !Fits(nodes[kids[k]], target))
            && (next < |kids| ==> kids[next] < |nodes| && Fits(nodes[kids[next]], target))
            && Reached(nodes, target, AdjacentTo, a) == if next < |kids| then [kids[next]] else []
  {
    hide BuiltInOneFrame, IsTree, Ancestors, Children, Siblings, Fits;
    TreeOf(lex, elements, nodes);
    ContainersEnclose(nodes, a);
    i := TheBranchIsHeld(lex, elements, nodes, c, a);
    next := FirstFitting(nodes, target, Children(nodes, c), i + 1);
  }

  lemma ContainersEnclose(nodes: seq<UiNode>, a: nat)
    requires IsTree(nodes) && a < |nodes| && Container(nodes, a).Some?
    ensures Container(nodes, a).value in Ancestors(nodes, a) && nodes[Container(nodes, a).value].role == "row"
    ensures Container(nodes, a) == NearestAncestor(nodes, a, "row")
  {
    hide IsTree, Parent;
  }
}
