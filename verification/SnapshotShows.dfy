/** What each node of a built snapshot says of the element it stands for. */
module SnapshotShows {
  import opened Outcomes
  import opened Snapshots
  import opened NodeIds
  import opened SnapshotBuild
  import opened SnapshotLaws
  import Names

  /** The element's own facts: its role and its cleaned name, its contents and states, the
      frame it is in, and what leads back to it on its surface. */
  ghost predicate Shows(lex: Lexicon, element: Raw, node: UiNode) {
    && node.role == lex.role(element.role) && node.name == Names.NormalizeName(element.name)
    && node.value == element.value && node.states == element.states && node.scope.frame == element.frame
    && node.hints.Keys <= {"native", "css"}
    && ("native" in node.hints <==> element.nativeHandle.Some?)
    && (element.nativeHandle.Some? ==> node.hints["native"] == element.nativeHandle.value)
    && var hint := lex.hint(node.role, element.attributes);
       && ("css" in node.hints <==> element.attributes != map[] && hint.Some? && hint.value != "")
       && ("css" in node.hints ==> Some(node.hints["css"]) == hint)
  }

  /** A heading that names a region is in it; anything else is where it stands. */
  ghost predicate IsInRegion(lex: Lexicon, node: UiNode, around: Option<string>) {
    var named := lex.region(node.name);
    if node.role == "heading" && named.Some? && named.value != "" then node.scope.region == named
    else node.scope.region == around
  }

  /** Where a node stands in its tree: its path, and the roles above it. */
  datatype Standing = Standing(path: Path, above: seq<string>)

  ghost predicate StandsAt(lex: Lexicon, node: UiNode, at: Standing) {
    && node.nodeId == MakeNodeId(node.scope.frame, at.path)
    && node.fingerprint == lex.fingerprint(node.role, node.name, at.above, node.scope.frame)
  }

  /** The children before position `i` that are shown and have this role. */
  ghost function SameRoleBefore(lex: Lexicon, known: Elements, ids: seq<string>, i: nat, role: string): set<nat>
    requires i <= |ids|
  {
    set j: nat | j < i && ids[j] in known && !lex.isNoise(known[ids[j]].role) && lex.role(known[ids[j]].role) == role
  }

  lemma {:induction false} EarlierCounts(lex: Lexicon, known: Elements, ids: seq<string>, i: nat, role: string)
    requires i <= |ids|
    ensures |SameRoleBefore(lex, known, ids, i, role)| == Earlier(lex, known, ids, i, role)
  {
    if i > 0 {
      EarlierCounts(lex, known, ids, i - 1, role);
      var before, now := SameRoleBefore(lex, known, ids, i - 1, role), SameRoleBefore(lex, known, ids, i, role);
      if Kept(lex, known, ids[i - 1]) && lex.role(known[ids[i - 1]].role) == role {
        assert now == before + {i - 1};
      } else {
        assert now == before;
      }
    }
  }

  /** A top node: its element has no parent on the surface, its path is its role and its
      place among those that have none, and nothing stands above it. */
  ghost predicate IsTop(lex: Lexicon, known: Elements, roots: seq<string>, element: Raw, node: UiNode, at: Standing) {
    && IsRoot(known, element) && node.parentId.None? && at.above == [] && IsInRegion(lex, node, None)
    && exists i: nat :: i < |roots| && roots[i] == element.elementId && at.path == [(node.role, i)]
  }

  /** A node below another: its element is listed by that one's; its path goes on with its
      role and the number of its like before it; the other's role is the last above it,
      and the other's region is around it. */
  ghost predicate IsBelow(lex: Lexicon, known: Elements, up: (Raw, UiNode, Standing), element: Raw, node: UiNode,
                          at: Standing)
  {
    && node.parentId == Some(up.1.nodeId) && at.above == up.2.above + [up.1.role]
    && IsInRegion(lex, node, up.1.scope.region)
    && exists i: nat :: i < |up.0.childIds| && up.0.childIds[i] == element.elementId
                        && at.path == up.2.path
                                      + [(node.role, |SameRoleBefore(lex, known, up.0.childIds, i, node.role)|)]
  }

  ghost predicate Told(lex: Lexicon, elements: seq<Raw>, known: Elements, roots: seq<string>, nodes: seq<UiNode>,
                       told: seq<Raw>, at: seq<Standing>, k: nat)
    requires k < |nodes| == |told| == |at|
  {
    && told[k] in elements && Shows(lex, told[k], nodes[k]) && StandsAt(lex, nodes[k], at[k])
    && (IsTop(lex, known, roots, told[k], nodes[k], at[k])
        || exists p: nat :: p < k && IsBelow(lex, known, (told[p], nodes[p], at[p]), told[k], nodes[k], at[k]))
  }

  /** These are the elements the nodes stand for, and where each stands. */
  ghost predicate Tell(lex: Lexicon, elements: seq<Raw>, nodes: seq<UiNode>, told: seq<Raw>, at: seq<Standing>) {
    && |told| == |at| == |nodes|
    && forall k | 0 <= k < |nodes| :: Told(lex, elements, ById(elements), RootIds(elements), nodes, told, at, k)
  }

  function RootIds(elements: seq<Raw>): seq<string> {
    ByIdKnowsAll(elements);
    Roots(elements, ById(elements))
  }

  /** Every node of a built snapshot shows the element it stands for, and where that
      stands: under its parent's node, among its like, within the region around it. */
  lemma {:induction false} EveryNodeShowsItsElement(lex: Lexicon, elements: seq<Raw>)
    returns (told: seq<Raw>, at: seq<Standing>)
    requires WellReported(elements) && PlainRoles(lex, elements)
    ensures Tell(lex, elements, Nodes(lex, elements), told, at)
  {
    hide WellReported, PlainRoles, Nodes, Entries, ById, Roots, NodeAt, ResolveChildren, Recorded, Tell;
    EntriesAreLaid(lex, elements);
    ByIdKnowsAll(elements);
    ByIdIsFaithful(elements);
    var known, roots, entries := ById(elements), RootIds(elements), Entries(lex, elements);
    var nodes := Nodes(lex, elements);
    assert Built(lex, known, entries, Recorded(map[], known, entries), nodes);
    told := seq(|entries|, k requires 0 <= k < |entries| => known[entries[k].id]);
    at := seq(|entries|, k requires 0 <= k < |entries| => Standing(entries[k].place.path, entries[k].place.above));
    hide Laid, Built, RootIds;
    forall k | 0 <= k < |nodes| ensures Told(lex, elements, known, roots, nodes, told, at, k) {
      RootsHaveNoParent(elements);
      OneNodeTells(lex, elements, known, roots, entries, Recorded(map[], known, entries), nodes, told, at, k);
    }
    AllTold(lex, elements, nodes, told, at);
  }

  lemma AllTold(lex: Lexicon, elements: seq<Raw>, nodes: seq<UiNode>, told: seq<Raw>, at: seq<Standing>)
    requires |told| == |at| == |nodes|
    requires forall k | 0 <= k < |nodes| :: Told(lex, elements, ById(elements), RootIds(elements), nodes, told, at, k)
    ensures Tell(lex, elements, nodes, told, at)
  {
    hide Told, ById, RootIds;
  }

  lemma {:induction false} RootsHaveNoParent(elements: seq<Raw>)
    requires WellReported(elements)
    ensures forall id | id in RootIds(elements) :: id in ById(elements) && IsRoot(ById(elements), ById(elements)[id])
  {
    ByIdKnowsAll(elements);
    ByIdIsFaithful(elements);
    hide ById, IsRoot, Roots;
    var known := ById(elements);
    forall id | id in RootIds(elements) ensures id in known && IsRoot(known, known[id]) {
      var element :| element in elements && element.elementId == id && IsRoot(known, element);
    }
  }

  lemma NodeShows(lex: Lexicon, known: Elements, at: Entry, childIds: seq<string>)
    requires at.id in known
    ensures var node := NodeAt(lex, known, at).(childIds := childIds);
            && Shows(lex, known[at.id], node) && StandsAt(lex, node, Standing(at.place.path, at.place.above))
            && IsInRegion(lex, node, at.place.region) && node.parentId == at.place.parent
            && node.nodeId == IdAt(known, at) && node.scope.region == RegionAt(lex, known[at.id], at.place)
  {
  }

  lemma {:induction false} OneNodeTells(lex: Lexicon, elements: seq<Raw>, known: Elements, roots: seq<string>,
                                        entries: seq<Entry>, nodeIds: map<string, string>, nodes: seq<UiNode>,
                                        told: seq<Raw>, at: seq<Standing>, k: nat)
    requires Laid(lex, known, roots, entries) && Built(lex, known, entries, nodeIds, nodes) && k < |nodes|
    requires forall id | id in known :: known[id] in elements
    requires forall id | id in roots :: id in known && IsRoot(known, known[id])
    requires |told| == |at| == |entries|
    requires forall j | 0 <= j < |entries| ::
               told[j] == known[entries[j].id] && at[j] == Standing(entries[j].place.path, entries[j].place.above)
    ensures Told(lex, elements, known, roots, nodes, told, at, k)
  {
    hide NodeAt, Shows, StandsAt, IsInRegion, IdAt, ResolveChildren, RegionAt, Separate, DistinctPaths, Plain;
    NodeShows(lex, known, entries[k], nodes[k].childIds);
    assert Placed(lex, known, roots, entries, k);
    if RootAt(lex, known, roots, entries[k]) {
      var i :| 0 <= i < |roots| && IsRootAt(lex, known, roots, entries[k], i);
      assert roots[i] in roots;
      TopRole(lex, told[k], nodes[k]);
      assert IsTop(lex, known, roots, told[k], nodes[k], at[k]);
    } else {
      var p :| 0 <= p < k && Linked(lex, known, entries[p], entries[k]);
      NodeShows(lex, known, entries[p], nodes[p].childIds);
      TopRole(lex, told[k], nodes[k]);
      TopRole(lex, told[p], nodes[p]);
      var i :| 0 <= i < |told[p].childIds| && IsChildAt(lex, known, entries[p], entries[k], i);
      EarlierCounts(lex, known, told[p].childIds, i, nodes[k].role);
      assert IsBelow(lex, known, (told[p], nodes[p], at[p]), told[k], nodes[k], at[k]);
    }
  }

  lemma TopRole(lex: Lexicon, element: Raw, node: UiNode)
    requires Shows(lex, element, node)
    ensures node.role == lex.role(element.role)
  {
  }
}
