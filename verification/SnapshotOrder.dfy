/** A built snapshot is in document order: what lies below a node is the block of
    nodes that follows it. */
module SnapshotOrder {
  import opened Outcomes
  import opened Snapshots
  import opened NodeIds
  import opened SnapshotBuild
  import opened SnapshotLaws
  import opened Trees

  /** Every entry is followed by all that was visited from it. */
  ghost predicate InBlocks(lex: Lexicon, known: Elements, entries: seq<Entry>) {
    Acyclic(known) && forall k | 0 <= k < |entries| :: HasBlock(lex, known, entries, k)
  }

  ghost predicate HasBlock(lex: Lexicon, known: Elements, entries: seq<Entry>, k: nat)
    requires Acyclic(known) && k < |entries|
  {
    entries[k].id in known && Visit(lex, known, entries[k]) <= entries[k..]
  }

  lemma {:induction false} BlocksInTurn(lex: Lexicon, known: Elements, first: seq<Entry>, rest: seq<Entry>)
    requires InBlocks(lex, known, first) && InBlocks(lex, known, rest)
    ensures InBlocks(lex, known, first + rest)
  {
    hide Visit, Acyclic;
    var all := first + rest;
    forall k | 0 <= k < |all| ensures HasBlock(lex, known, all, k) {
      if k < |first| {
        assert HasBlock(lex, known, first, k);
        assert all[k..] == first[k..] + rest;
      } else {
        assert HasBlock(lex, known, rest, k - |first|);
        assert all[k..] == rest[k - |first|..];
      }
    }
  }

  lemma {:induction false} NoBlocks(lex: Lexicon, known: Elements)
    requires Acyclic(known)
    ensures InBlocks(lex, known, [])
  {
  }

  lemma {:induction false} VisitInBlocks(lex: Lexicon, known: Elements, at: Entry)
    requires Acyclic(known) && at.id in known
    ensures InBlocks(lex, known, Visit(lex, known, at))
    decreases Heights(known)[at.id], |known[at.id].childIds| + 1
  {
    hide Acyclic;
    ChildrenInBlocks(lex, known, at, 0);
    AllFromTheFirst(lex, known, at);
    var below, all := VisitChildren(lex, known, at, 0), Visit(lex, known, at);
    hide Visit, VisitChildren;
    forall k | 0 <= k < |all| ensures HasBlock(lex, known, all, k) {
      if k == 0 {
        assert all[0..] == all;
      } else {
        assert HasBlock(lex, known, below, k - 1);
        assert all[k..] == below[k - 1..];
      }
    }
  }

  lemma {:induction false} ChildrenInBlocks(lex: Lexicon, known: Elements, at: Entry, i: nat)
    requires Acyclic(known) && at.id in known && i <= |known[at.id].childIds|
    ensures InBlocks(lex, known, VisitChildren(lex, known, at, i))
    decreases Heights(known)[at.id], |known[at.id].childIds| - i
  {
    hide Acyclic, InBlocks, Visit;
    var ids := known[at.id].childIds;
    if i == |ids| {
      NoBlocks(lex, known);
    } else {
      ChildrenInBlocks(lex, known, at, i + 1);
      OneMoreChild(lex, known, at, i);
      var rest := VisitChildren(lex, known, at, i + 1);
      if Kept(lex, known, ids[i]) {
        var child := Entry(ids[i], ChildPlace(lex, known, at, i));
        VisitInBlocks(lex, known, child);
        BlocksInTurn(lex, known, Visit(lex, known, child), rest);
      } else {
        assert [] + rest == rest;
      }
    }
  }

  lemma {:induction false} RootsInBlocks(lex: Lexicon, known: Elements, roots: seq<string>, i: nat)
    requires Acyclic(known) && i <= |roots| && forall id | id in roots :: id in known
    ensures InBlocks(lex, known, VisitRoots(lex, known, roots, i))
    decreases |roots| - i
  {
    hide Acyclic, InBlocks, Visit;
    if i == |roots| {
      NoBlocks(lex, known);
    } else {
      RootsInBlocks(lex, known, roots, i + 1);
      OneMoreRoot(lex, known, roots, i);
      var rest := VisitRoots(lex, known, roots, i + 1);
      if lex.isNoise(known[roots[i]].role) {
        assert [] + rest == rest;
      } else {
        var root := Entry(roots[i], Place([(lex.role(known[roots[i]].role), i)], [], None, None));
        VisitInBlocks(lex, known, root);
        BlocksInTurn(lex, known, Visit(lex, known, root), rest);
      }
    }
  }

  // ---------------------------------------------------------------- from entries to nodes

  /** The numbers from `from`, `count` of them. */
  function From(from: nat, count: nat): (run: seq<nat>)
    ensures |run| == count && forall i | 0 <= i < count :: run[i] == from + i
  {
    seq(count, (i: nat) => from + i)
  }

  /** All that ties nodes to the entries they were written from. */
  ghost predicate Drawn(lex: Lexicon, known: Elements, roots: seq<string>, entries: seq<Entry>,
                        nodeIds: map<string, string>, nodes: seq<UiNode>) {
    && Laid(lex, known, roots, entries) && Built(lex, known, entries, nodeIds, nodes)
    && LooksUp(known, entries, nodeIds) && IsTree(nodes) && InBlocks(lex, known, entries)
  }

  /** A child listed by a visited element was itself visited exactly when it is kept. */
  lemma {:induction false} VisitedWasKept(lex: Lexicon, known: Elements, roots: seq<string>, entries: seq<Entry>,
                                          i: nat, j: nat)
    requires Laid(lex, known, roots, entries) && i < |entries| && j < |entries|
    requires entries[j].id in known[entries[i].id].childIds
    ensures Kept(lex, known, entries[j].id)
  {
    hide DistinctPaths, Plain;
    assert Placed(lex, known, roots, entries, j);
    assert forall r | 0 <= r < |roots| :: roots[r] in roots;
    if HasParent(lex, known, entries, j) {
      var p :| 0 <= p < j && Linked(lex, known, entries[p], entries[j]);
      var c :| 0 <= c < |known[entries[p].id].childIds| && IsChildAt(lex, known, entries[p], entries[j], c);
    }
  }

  lemma {:induction false} FoundAt(known: Elements, entries: seq<Entry>, nodeIds: map<string, string>, lex: Lexicon,
                                   nodes: seq<UiNode>, j: nat)
    requires Built(lex, known, entries, nodeIds, nodes) && LooksUp(known, entries, nodeIds) && IsTree(nodes)
    requires j < |nodes|
    ensures entries[j].id in nodeIds && IndexOf(nodes, nodeIds[entries[j].id]) == Some(j)
  {
    hide IdAt, ResolveChildren, IsTree, RegionAt, HintsOf, IndexOf;
    assert nodes[j].nodeId == IdAt(known, entries[j]);
    hide Built, LooksUp;
    if IndexOf(nodes, nodes[j].nodeId).Some? { SameIdSameNode(nodes, j, IndexOf(nodes, nodes[j].nodeId).value); }
  }

  lemma {:induction false} BlockBelow(lex: Lexicon, known: Elements, roots: seq<string>, entries: seq<Entry>,
                                      nodeIds: map<string, string>, nodes: seq<UiNode>, k: nat)
    requires Drawn(lex, known, roots, entries, nodeIds, nodes) && k < |nodes|
    ensures entries[k].id in known
    ensures Descendants(nodes, k) == From(k + 1, |Visit(lex, known, entries[k])| - 1)
    ensures k + |Visit(lex, known, entries[k])| <= |nodes|
    decreases Heights(known)[entries[k].id], |known[entries[k].id].childIds| + 1
  {
    hide Acyclic, Laid, LooksUp, IsTree, From, Descendants, WithDescendants, ResolveChildren, NodeAt, Visit;
    hide VisitChildren, Positions;
    assert HasBlock(lex, known, entries, k);
    var at := entries[k];
    AllFromTheFirst(lex, known, at);
    DropsOne(at, VisitChildren(lex, known, at, 0), entries, k);
    assert known[at.id].childIds[0..] == known[at.id].childIds;
    assert Children(nodes, k) == Coming(known, at, nodeIds, nodes, 0);
    BlocksBelow(lex, known, roots, entries, nodeIds, nodes, k, 0, k + 1);
    BelowIsBelowChildren(nodes, k);
  }

  lemma {:induction false} DropsOne(at: Entry, below: seq<Entry>, entries: seq<Entry>, k: nat)
    requires k < |entries| && [at] + below <= entries[k..]
    ensures below <= entries[k + 1..]
  {
    var block := [at] + below;
    assert forall i | 0 <= i < |below| :: below[i] == block[i + 1] == entries[k..][i + 1];
  }

  lemma {:induction false} BelowIsBelowChildren(nodes: seq<UiNode>, k: nat)
    requires IsTree(nodes) && k < |nodes|
    ensures forall i | 0 <= i < |Children(nodes, k)| :: k < Children(nodes, k)[i] < |nodes|
    ensures Descendants(nodes, k) == WithDescendants(nodes, k, Children(nodes, k))
  {
    ChildrenAreExact(nodes, k);
  }

  /** The positions of the listed children from the `i`th on. */
  function Coming(known: Elements, at: Entry, nodeIds: map<string, string>, nodes: seq<UiNode>, i: nat): seq<nat>
    requires at.id in known && i <= |known[at.id].childIds|
  {
    Positions(nodes, ResolveChildren(known[at.id].childIds[i..], nodeIds))
  }

  lemma {:induction false} NextComing(known: Elements, at: Entry, nodeIds: map<string, string>, nodes: seq<UiNode>,
                                      i: nat)
    requires at.id in known && i < |known[at.id].childIds|
    ensures var child := known[at.id].childIds[i];
            var first := if child in nodeIds then IndexOf(nodes, nodeIds[child]) else None;
            Coming(known, at, nodeIds, nodes, i)
            == (if first.Some? then [first.value] else []) + Coming(known, at, nodeIds, nodes, i + 1)
  {
    hide IndexOf;
    var ids := known[at.id].childIds;
    assert ids[i..][0] == ids[i] && ids[i..][1..] == ids[i + 1..];
    var more := ResolveChildren(ids[i + 1..], nodeIds);
    if ids[i] in nodeIds {
      assert ([nodeIds[ids[i]]] + more)[1..] == more;
    } else {
      assert [] + more == more;
    }
  }

  lemma {:induction false} OnlyKeptAreRecorded(lex: Lexicon, known: Elements, roots: seq<string>, entries: seq<Entry>,
                                               nodeIds: map<string, string>, k: nat, i: nat)
    requires Laid(lex, known, roots, entries) && LooksUp(known, entries, nodeIds) && k < |entries|
    requires i < |known[entries[k].id].childIds| && known[entries[k].id].childIds[i] in nodeIds
    ensures Kept(lex, known, known[entries[k].id].childIds[i])
  {
    hide Laid, IdAt, Kept;
    var j :| 0 <= j < |entries| && entries[j].id == known[entries[k].id].childIds[i];
    VisitedWasKept(lex, known, roots, entries, k, j);
  }

  lemma {:induction false} SplitBlock(child: Entry, tree: seq<Entry>, rest: seq<Entry>, entries: seq<Entry>, p: nat)
    requires p <= |entries| && tree + rest <= entries[p..] && tree != [] && tree[0] == child
    ensures p + |tree| <= |entries| && entries[p] == child && rest <= entries[p + |tree|..]
  {
    var both := tree + rest;
    assert entries[p] == entries[p..][0] == both[0];
    assert forall i | 0 <= i < |rest| :: rest[i] == both[|tree| + i] == entries[p..][|tree| + i];
  }

  lemma {:induction false} RunsJoin(p: nat, first: nat, rest: nat)
    requires first > 0
    ensures [p] + From(p + 1, first - 1) + From(p + first, rest) == From(p, first + rest)
  {
  }

  /** What is visited from the `i`th child of entry `k` on starts at position `p`. */
  ghost predicate ComeFrom(lex: Lexicon, known: Elements, entries: seq<Entry>, k: nat, i: nat, p: nat) {
    && Acyclic(known) && k < p <= |entries| && entries[k].id in known && i <= |known[entries[k].id].childIds|
    && VisitChildren(lex, known, entries[k], i) <= entries[p..]
  }

  /** The children of node `k` from the `i`th on, and all below them, fill one block
      from position `p`. */
  ghost predicate FillFrom(lex: Lexicon, known: Elements, entries: seq<Entry>, nodeIds: map<string, string>,
                           nodes: seq<UiNode>, k: nat, i: nat, p: nat) {
    && Acyclic(known) && IsTree(nodes) && k < |nodes| == |entries|
    && entries[k].id in known && i <= |known[entries[k].id].childIds|
    && (var among := Coming(known, entries[k], nodeIds, nodes, i);
        && (forall a | 0 <= a < |among| :: k < among[a] < |nodes|)
        && WithDescendants(nodes, k, among) == From(p, |VisitChildren(lex, known, entries[k], i)|))
    && p + |VisitChildren(lex, known, entries[k], i)| <= |nodes|
  }

  lemma {:induction false} BlocksBelow(lex: Lexicon, known: Elements, roots: seq<string>, entries: seq<Entry>,
                                       nodeIds: map<string, string>, nodes: seq<UiNode>, k: nat, i: nat, p: nat)
    requires Drawn(lex, known, roots, entries, nodeIds, nodes) && ComeFrom(lex, known, entries, k, i, p)
    ensures FillFrom(lex, known, entries, nodeIds, nodes, k, i, p)
    decreases Heights(known)[entries[k].id], |known[entries[k].id].childIds| - i
  {
    hide Drawn, Acyclic, Laid, LooksUp, IsTree, Built, From, Descendants, NodeAt, Visit, VisitChildren, Coming;
    hide WithDescendants;
    WhatIsDrawn(lex, known, roots, entries, nodeIds, nodes);
    var at, ids := entries[k], known[entries[k].id].childIds;
    if i == |ids| {
      NoneComing(lex, known, entries, nodeIds, nodes, k, p);
    } else {
      OneMoreChild(lex, known, at, i);
      if Kept(lex, known, ids[i]) {
        var child := Entry(ids[i], ChildPlace(lex, known, at, i));
        var tree, rest := Visit(lex, known, child), VisitChildren(lex, known, at, i + 1);
        SplitBlock(child, tree, rest, entries, p);
        hide ChildPlace, Kept;
        FoundAt(known, entries, nodeIds, lex, nodes, p);
        BlockBelow(lex, known, roots, entries, nodeIds, nodes, p);
        BlocksBelow(lex, known, roots, entries, nodeIds, nodes, k, i + 1, p + |tree|);
        OneBlockMore(lex, known, entries, nodeIds, nodes, k, i, p, tree);
      } else {
        if ids[i] in nodeIds { OnlyKeptAreRecorded(lex, known, roots, entries, nodeIds, k, i); }
        var rest := VisitChildren(lex, known, at, i + 1);
        assert [] + rest == rest;
        BlocksBelow(lex, known, roots, entries, nodeIds, nodes, k, i + 1, p);
        NoBlockMore(lex, known, entries, nodeIds, nodes, k, i, p);
      }
    }
  }

  lemma {:induction false} WhatIsDrawn(lex: Lexicon, known: Elements, roots: seq<string>, entries: seq<Entry>,
                    nodeIds: map<string, string>, nodes: seq<UiNode>)
    requires Drawn(lex, known, roots, entries, nodeIds, nodes)
    ensures Laid(lex, known, roots, entries) && Built(lex, known, entries, nodeIds, nodes)
    ensures LooksUp(known, entries, nodeIds) && IsTree(nodes) && |nodes| == |entries|
  {
    hide Laid, LooksUp, IsTree, InBlocks;
  }

  lemma {:induction false} NoBlockMore(lex: Lexicon, known: Elements, entries: seq<Entry>, nodeIds: map<string, string>,
                    nodes: seq<UiNode>, k: nat, i: nat, p: nat)
    requires FillFrom(lex, known, entries, nodeIds, nodes, k, i + 1, p)
    requires known[entries[k].id].childIds[i] !in nodeIds
    requires VisitChildren(lex, known, entries[k], i) == VisitChildren(lex, known, entries[k], i + 1)
    ensures FillFrom(lex, known, entries, nodeIds, nodes, k, i, p)
  {
    hide Acyclic, IsTree, From, VisitChildren, Coming, WithDescendants;
    NextComing(known, entries[k], nodeIds, nodes, i);
    var coming := Coming(known, entries[k], nodeIds, nodes, i + 1);
    assert [] + coming == coming;
  }

  lemma {:induction false} OneBlockMore(lex: Lexicon, known: Elements, entries: seq<Entry>,
                                        nodeIds: map<string, string>, nodes: seq<UiNode>, k: nat, i: nat, p: nat,
                                        tree: seq<Entry>)
    requires FillFrom(lex, known, entries, nodeIds, nodes, k, i + 1, p + |tree|)
    requires tree != [] && k < p < |nodes| && known[entries[k].id].childIds[i] in nodeIds
    requires IndexOf(nodes, nodeIds[known[entries[k].id].childIds[i]]) == Some(p)
    requires VisitChildren(lex, known, entries[k], i) == tree + VisitChildren(lex, known, entries[k], i + 1)
    requires Descendants(nodes, p) == From(p + 1, |tree| - 1)
    ensures FillFrom(lex, known, entries, nodeIds, nodes, k, i, p)
  {
    hide Acyclic, IsTree, From, VisitChildren, Coming, WithDescendants, Descendants, IndexOf;
    NextComing(known, entries[k], nodeIds, nodes, i);
    OneMoreBelow(nodes, k, p, Coming(known, entries[k], nodeIds, nodes, i + 1));
    RunsJoin(p, |tree|, |VisitChildren(lex, known, entries[k], i + 1)|);
  }

  lemma {:induction false} NoneComing(lex: Lexicon, known: Elements, entries: seq<Entry>, nodeIds: map<string, string>,
                   nodes: seq<UiNode>, k: nat, p: nat)
    requires Acyclic(known) && IsTree(nodes) && |nodes| == |entries| && k < p <= |nodes| && entries[k].id in known
    ensures FillFrom(lex, known, entries, nodeIds, nodes, k, |known[entries[k].id].childIds|, p)
  {
    hide Acyclic, IsTree;
    var ids := known[entries[k].id].childIds;
    assert ids[|ids|..] == [];
  }

  lemma {:induction false} OneMoreBelow(nodes: seq<UiNode>, k: nat, p: nat, among: seq<nat>)
    requires IsTree(nodes) && k < p < |nodes| && forall a | 0 <= a < |among| :: k < among[a] < |nodes|
    ensures WithDescendants(nodes, k, [p] + among) == [p] + Descendants(nodes, p) + WithDescendants(nodes, k, among)
  {
    hide IsTree, Descendants;
    assert ([p] + among)[1..] == among;
  }

  /** Depth-first is document order: below a node lie the nodes right after it, as
      many as it has below it, in their order in the snapshot. */
  lemma {:induction false} DescendantsAreTheNodesThatFollow(lex: Lexicon, elements: seq<Raw>, k: nat)
    requires WellReported(elements) && PlainRoles(lex, elements) && k < |Nodes(lex, elements)|
    ensures IsTree(Nodes(lex, elements))
    ensures var nodes := Nodes(lex, elements);
            var below := Descendants(nodes, k);
            && k + |below| < |nodes|
            && (forall i | 0 <= i < |below| :: below[i] == k + 1 + i)
            && (forall d: nat | d < |nodes| :: k in Ancestors(nodes, d) <==> k < d <= k + |below|)
  {
    hide WellReported, PlainRoles, Nodes, Entries, ById, Roots, NodeAt, IdAt, ResolveChildren, Recorded, Acyclic;
    hide IsTree, Laid, Built, LooksUp, InBlocks, Visit, Descendants, Ancestors;
    BuiltNodesAreATree(lex, elements);
    var known, entries, nodes := ById(elements), Entries(lex, elements), Nodes(lex, elements);
    var roots, nodeIds := NodesAreDrawn(lex, elements);
    BlockBelow(lex, known, roots, entries, nodeIds, nodes, k);
    forall d: nat | d < |nodes| ensures k in Ancestors(nodes, d) <==> k < d <= k + |Descendants(nodes, k)| {
      DescendantsHaveItAbove(nodes, k, d);
      assert k < d <= k + |Descendants(nodes, k)| ==> Descendants(nodes, k)[d - k - 1] == d;
    }
  }

  lemma {:induction false} NodesAreDrawn(lex: Lexicon, elements: seq<Raw>)
    returns (roots: seq<string>, nodeIds: map<string, string>)
    requires WellReported(elements) && PlainRoles(lex, elements)
    ensures Drawn(lex, ById(elements), roots, Entries(lex, elements), nodeIds, Nodes(lex, elements))
  {
    hide WellReported, PlainRoles, Nodes, VisitRoots, ById, Roots, NodeAt, IdAt, ResolveChildren, Recorded, Acyclic;
    hide IsTree;
    EntriesAreLaid(lex, elements);
    BuiltNodesAreATree(lex, elements);
    var known, entries := ById(elements), Entries(lex, elements);
    ByIdKnowsAll(elements);
    roots, nodeIds := Roots(elements, known), Recorded(map[], known, entries);
    RootsInBlocks(lex, known, roots, 0);
    hide Laid;
    EachElementOnce(lex, known, roots, entries);
    ReportedWhenLaid(lex, known, roots, entries);
    RecordedLooksUp(map[], known, entries);
  }
}
