/** Small screens on which a description recorded for a node does not lead back to it. */
module SynthesisCases {
  import opened Outcomes
  import opened Snapshots
  import opened Targets
  import opened Trees
  import opened Targeting
  import opened Resolving
  import opened SnapshotBuild
  import opened SnapshotLaws
  import opened Synthesis
  import TL = TargetingLaws
  import Order = SnapshotOrder
  import Names
  import NodeIds

  /** A vocabulary that takes roles as they come and hints at the class of an element. */
  const LEX := Lexicon(
    (role: string) => role,
    (role: string) => false,
    (name: Option<string>) => None,
    (role: string, attributes: map<string, string>) => 
      if "class" in attributes then Some("." + attributes["class"]) else None,
    (role: string, name: Option<string>, above: seq<string>, frame: Option<string>) => "")

  function Lone(id: string, role: string, name: Option<string>, attributes: map<string, string>): Raw {
    Raw(id, role, name, None, {}, [], None, None, attributes, None)
  }

  // ---------------------------------------------------------------- screens without nesting

  ghost predicate Flat(elements: seq<Raw>) {
    && (forall i, j | 0 <= i < j < |elements| :: elements[i].elementId != elements[j].elementId)
    && forall i | 0 <= i < |elements| :: elements[i].childIds == [] && elements[i].parentId.None?
  }

  function RootEntry(element: Raw, i: nat): Entry {
    Entry(element.elementId, Place([(LEX.role(element.role), i)], [], None, None))
  }

  lemma {:induction false} FlatIsWellReported(elements: seq<Raw>)
    requires Flat(elements)
    ensures WellReported(elements)
    ensures forall i | 0 <= i < |elements| ::
              elements[i].elementId in ById(elements) && ById(elements)[elements[i].elementId] == elements[i]
    ensures forall id | id in ById(elements) :: ById(elements)[id].childIds == []
  {
    ByIdIsFaithful(elements);
    ByIdKnowsAll(elements);
    var known := ById(elements);
    forall id | id in known ensures known[id].elementId == id && known[id].childIds == [] {
      IdsAreKeys(elements);
      assert known[id] in elements;
    }
    assert Ranked(known, map id | id in known :: 0);
  }

  lemma {:induction false} IdsAreKeys(elements: seq<Raw>)
    ensures forall id | id in ById(elements) :: ById(elements)[id].elementId == id
  {
    if elements != [] { IdsAreKeys(elements[..|elements| - 1]); }
  }

  lemma {:induction false} FlatRoots(elements: seq<Raw>, known: Elements)
    requires forall i | 0 <= i < |elements| :: elements[i].elementId in known && elements[i].parentId.None?
    ensures (forall element | element in elements :: element.elementId in known)
            && |Roots(elements, known)| == |elements|
            && forall i | 0 <= i < |elements| :: Roots(elements, known)[i] == elements[i].elementId
  {
    if elements != [] { FlatRoots(elements[1..], known); }
  }

  lemma {:induction false} FlatVisits(elements: seq<Raw>, known: Elements, roots: seq<string>, i: nat)
    requires Acyclic(known) && i <= |roots| == |elements| && forall id | id in roots :: id in known
    requires forall k | 0 <= k < |roots| :: known[roots[k]] == elements[k] && roots[k] == elements[k].elementId
    requires forall id | id in known :: known[id].childIds == []
    ensures var entries := VisitRoots(LEX, known, roots, i);
            |entries| == |roots| - i
            && forall k | 0 <= k < |entries| :: entries[k] == RootEntry(elements[i + k], i + k)
    decreases |roots| - i
  {
    hide Acyclic;
    if i < |roots| {
      FlatVisits(elements, known, roots, i + 1);
      OneMoreRoot(LEX, known, roots, i);
      AllFromTheFirst(LEX, known, RootEntry(elements[i], i));
    }
  }

  function FlatNode(element: Raw, k: nat): UiNode {
    UiNode(NodeIds.MakeNodeId(element.frame, [(element.role, k)]), element.role, Names.NormalizeName(element.name),
           element.value, element.states, NodeScope(element.frame, None), None, [], HintsOf(LEX, element), "")
  }

  lemma {:induction false} FlatNodeIs(known: Elements, element: Raw, k: nat)
    requires element.elementId in known && known[element.elementId] == element
    ensures NodeAt(LEX, known, RootEntry(element, k)).(childIds := []) == FlatNode(element, k)
  {
    hide HintsOf, Names.NormalizeName;
  }

  /** Such a report is written down element by element. */
  lemma {:induction false} FlatNodes(elements: seq<Raw>)
    requires Flat(elements)
    ensures WellReported(elements) && |Nodes(LEX, elements)| == |elements|
    ensures forall k | 0 <= k < |elements| :: Nodes(LEX, elements)[k] == FlatNode(elements[k], k)
  {
    FlatIsWellReported(elements);
    FlatEntries(elements);
    hide Acyclic, ById, Entries, WellReported, Traversable, Flat, NodeAt, FlatNode, RootEntry, Recorded, Nodes;
    var known, nodes, entries := ById(elements), Nodes(LEX, elements), Entries(LEX, elements);
    forall k | 0 <= k < |elements| ensures nodes[k] == FlatNode(elements[k], k) {
      FlatNodeIs(known, elements[k], k);
      RootEntryIs(elements[k], k);
      assert known[entries[k].id].childIds == [];
    }
  }

  lemma {:induction false} RootEntryIs(element: Raw, k: nat)
    ensures RootEntry(element, k).id == element.elementId
  {
  }

  lemma {:induction false} FlatEntries(elements: seq<Raw>)
    requires Flat(elements) && WellReported(elements)
    ensures |Entries(LEX, elements)| == |elements|
    ensures forall k | 0 <= k < |elements| :: Entries(LEX, elements)[k] == RootEntry(elements[k], k)
  {
    hide Acyclic, ById, Roots, VisitRoots, Consistent, RootEntry;
    FlatIsWellReported(elements);
    var known := ById(elements);
    ByIdKnowsAll(elements);
    FlatRoots(elements, known);
    FlatVisits(elements, known, Roots(elements, known), 0);
  }

  // ---------------------------------------------------------------- names

  /** Two boxes whose labels differ by a trailing asterisk, as for a required field,
      have two names on the snapshot, so that each is recorded as described uniquely.
      On replay the first name is cleaned once more, becomes the second, and the
      control is refused as ambiguous. */
  lemma {:induction false} ARequiredFieldIsNotFoundAgain(t: Texts, text: string)
    requires Names.NormalizeName(Some(text)) == Some(text)
    ensures var elements := [Lone("1", "textbox", Some(text + ": *"), map[]), Lone("2", "textbox", Some(text), map[])];
            && WellReported(elements) && IsTree(Nodes(LEX, elements))
            && var nodes := Nodes(LEX, elements);
               && |nodes| == 2 && nodes[0].name == Some(text + ":") && nodes[1].name == Some(text)
               && Synthesize(t, nodes, 0).unique && Synthesize(t, nodes, 0).strategy == SemanticExact
               && FoundAgain(t, nodes, 0).Err? && FoundAgain(t, nodes, 0).error.Ambiguous?
  {
    hide Names.NormalizeName, Nodes, IsTree, WellReported, FoundAgain, AnchorFor;
    var elements := [Lone("1", "textbox", Some(text + ": *"), map[]), Lone("2", "textbox", Some(text), map[])];
    assert Flat(elements) && PlainRoles(LEX, elements) by {
      assert elements[0].elementId[0] == '1' && elements[1].elementId[0] == '2';
    }
    Names.SeparatorsComeOffInRounds(text);
    hide Flat, PlainRoles;
    FlatNodes(elements);
    BuiltNodesAreATree(LEX, elements);
    var nodes := Nodes(LEX, elements);
    assert nodes[0] == FlatNode(elements[0], 0) && nodes[1] == FlatNode(elements[1], 1);
    assert nodes[0].name != nodes[1].name by { assert |text + ":"| != |text|; }
    OneMember(SameName(nodes, 0), 0);
    assert CleansAlike(nodes, 0, 1);
    NamedNodesAreFoundAgain(t, nodes, 0);
  }

  // ---------------------------------------------------------------- positions

  lemma {:induction false} NothingHasNoName()
    ensures Names.NormalizeName(None) == None
  {
  }

  lemma {:induction false} WhereOfThree(keep: nat -> bool)
    requires keep(1) && keep(2)
    ensures !keep(0) ==> Where(3, keep) == [1, 2]
    ensures keep(0) ==> |Where(1, keep)| == 1 && |Where(2, keep)| == 2
  {
    assert Where(0, keep) == [];
    assert Where(1, keep) == Where(0, keep) + if keep(0) then [0] else [];
    assert Where(2, keep) == Where(1, keep) + [1];
  }

  /** Three nodes alike in all but the hint of the first. */
  ghost predicate LastTwoAlike(nodes: seq<UiNode>) {
    && |nodes| == 3
    && (forall i | 0 <= i < 3 :: nodes[i].role == nodes[0].role && nodes[i].scope == NodeScope(None, None))
    && (forall i | 0 <= i < 3 :: !HasName(nodes[i]))
    && Css(nodes[0].hints) != Css(nodes[1].hints) == Css(nodes[2].hints)
  }

  lemma {:induction false} AmongThree(nodes: seq<UiNode>, k: nat)
    requires LastTwoAlike(nodes) && 1 <= k < 3
    ensures forall i: nat | i < 3 :: Fits(nodes[i], ScopeOf(nodes[k])) && (OfferedWith(nodes, k, i) <==> i > 0)
  {
    hide Css;
  }

  lemma {:induction false} OfferedAmongThree(nodes: seq<UiNode>, k: nat)
    requires LastTwoAlike(nodes) && 1 <= k < 3
    ensures Offered(nodes, k) == [1, 2] && CountedPlace(nodes, k) == k
  {
    AmongThree(nodes, k);
    hide Where, Fits, OfferedWith;
    WhereOfThree((i: nat) => i < |nodes| && OfferedWith(nodes, k, i));
    WhereOfThree((i: nat) => i < |nodes| && Fits(nodes[i], ScopeOf(nodes[k])));
  }

  function Images(): seq<Raw> {
    [Lone("1", "img", None, map["class" := "logo"]), Lone("2", "img", None, map["class" := "icon"]),
     Lone("3", "img", None, map["class" := "icon"])]
  }

  lemma {:induction false} AnImage(element: Raw, style: string, k: nat)
    requires element == Lone(element.elementId, "img", None, map["class" := style])
    ensures var node := FlatNode(element, k);
            && node.role == "img" && node.scope == NodeScope(None, None) && node.parentId.None? && !HasName(node)
            && Css(node.hints) == Some("." + style)
  {
    NothingHasNoName();
    hide Names.NormalizeName;
    assert "class" in element.attributes && element.attributes["class"] == style;
    var hint := LEX.hint("img", element.attributes);
    assert hint == Some("." + style) && hint.value != "";
    assert HintsOf(LEX, element) == map["css" := "." + style];
  }

  lemma {:induction false} ImagesAreFlat()
    ensures Flat(Images()) && PlainRoles(LEX, Images())
  {
    var elements := Images();
    assert elements[0].elementId[0] == '1' && elements[1].elementId[0] == '2' && elements[2].elementId[0] == '3';
  }

  /** What the screen of these images looks like. */
  ghost predicate ShowsImages(nodes: seq<UiNode>) {
    && LastTwoAlike(nodes) && Css(nodes[1].hints).Some?
    && forall i | 0 <= i < 3 :: nodes[i].parentId.None? && nodes[i].role == "img"
  }

  lemma {:induction false} ImagesShow(nodes: seq<UiNode>)
    requires |nodes| == 3 && forall k | 0 <= k < 3 :: nodes[k] == FlatNode(Images()[k], k)
    ensures ShowsImages(nodes)
  {
    hide FlatNode, Css, HasName;
    var elements := Images();
    AnImage(elements[0], "logo", 0);
    AnImage(elements[1], "icon", 1);
    AnImage(elements[2], "icon", 2);
    assert ("." + "logo")[1] != ("." + "icon")[1];
  }

  lemma {:induction false} ImagesAreShown()
    ensures WellReported(Images()) && IsTree(Nodes(LEX, Images())) && ShowsImages(Nodes(LEX, Images()))
  {
    hide Nodes, IsTree, WellReported, Images, FlatNode, PlainRoles, Flat, ShowsImages;
    ImagesAreFlat();
    FlatNodes(Images());
    BuiltNodesAreATree(LEX, Images());
    assert |Images()| == 3 by { ThreeImages(); }
    ImagesShow(Nodes(LEX, Images()));
  }

  lemma {:induction false} ThreeImages()
    ensures |Images()| == 3
  {
  }

  /** Three nameless images, the last two of one class. The second is described by its
      place among all three, which on replay is looked up among the two of its class:
      the third is taken for it. The third, looked up in the same way, is refused. */
  lemma {:induction false} AnImageIsTakenForItsNeighbour(t: Texts)
    ensures WellReported(Images()) && IsTree(Nodes(LEX, Images()))
    ensures var nodes := Nodes(LEX, Images());
            && |nodes| == 3
            && FoundAgain(t, nodes, 1).Ok? && FoundAgain(t, nodes, 1).value.node == 2
            && FoundAgain(t, nodes, 2) == Err(Ambiguous([1, 2]))
  {
    hide Nodes, IsTree, WellReported, Images, FoundAgain, Css, Fits, OfferedWith, Offered, CountedPlace;
    ImagesAreShown();
    var nodes := Nodes(LEX, Images());
    forall k | 1 <= k < 3
      ensures Offered(nodes, k) == [1, 2] && CountedPlace(nodes, k) == k && PositionDescribes(t, nodes, k)
    {
      OfferedAmongThree(nodes, k);
      AmongThree(nodes, k);
      RootsHaveNoLabel(t, nodes, k);
    }
    PositionedNodesAreFoundAgain(t, nodes, 1);
    PositionedNodesAreFoundAgain(t, nodes, 2);
    assert OfferedWith(nodes, 1, 2) by { AmongThree(nodes, 1); }
    assert !OfferedWith(nodes, 1, 0) && Fits(nodes[0], ScopeOf(nodes[1])) by { AmongThree(nodes, 1); }
  }

  ghost predicate PositionDescribes(t: Texts, nodes: seq<UiNode>, k: nat) {
    IsTree(nodes) && k < |nodes| && Synthesize(t, nodes, k).strategy == OrdinalInRegion
  }

  lemma {:induction false} RootsHaveNoLabel(t: Texts, nodes: seq<UiNode>, k: nat)
    requires IsTree(nodes) && k < |nodes| && nodes[k].parentId.None? && !HasName(nodes[k]) && nodes[k].role == "img"
    ensures PositionDescribes(t, nodes, k)
  {
    hide IsTree;
  }

  // ---------------------------------------------------------------- labels

  function Cell(id: string, name: Option<string>, value: Option<string>): Raw {
    Raw(id, "cell", name, value, {}, [], Some("row"), None, map[], None)
  }

  /** A row of one label and two figures. */
  function Figures(text: string, near: string, far: string): seq<Raw> {
    [Raw("row", "row", None, None, {}, ["label", "near", "far"], None, None, map[], None),
     Cell("label", Some(text), None), Cell("near", None, Some(near)), Cell("far", None, Some(far))]
  }

  ghost predicate RowOfThree(elements: seq<Raw>, known: Elements) {
    && |elements| == 4
    && (forall i | 0 <= i < 4 :: elements[i].elementId in known && known[elements[i].elementId] == elements[i])
    && (forall i, j | 0 <= i < j < 4 :: elements[i].elementId != elements[j].elementId)
    && elements[0].parentId.None? && elements[0].role == "row" && (forall i | 0 <= i < 4 :: elements[i].frame.None?)
    && elements[0].childIds == [elements[1].elementId, elements[2].elementId, elements[3].elementId]
    && (forall i | 1 <= i < 4 :: elements[i].childIds == [] && elements[i].role == "cell"
                                 && elements[i].parentId == Some(elements[0].elementId))
  }

  lemma {:induction false} FiguresAreARow(text: string, near: string, far: string)
    ensures RowOfThree(Figures(text, near, far), ById(Figures(text, near, far)))
    ensures ById(Figures(text, near, far)).Keys == {"row", "label", "near", "far"}
  {
    var elements := Figures(text, near, far);
    assert elements[..3][..2][..1][..0] == [];
    assert ById(elements[..3][..2][..1]) == map["row" := elements[0]];
    assert ById(elements[..3][..2]) == map["row" := elements[0], "label" := elements[1]];
    assert ById(elements[..3]) == map["row" := elements[0], "label" := elements[1], "near" := elements[2]];
    assert |"row"| == 3 && |"label"| == 5 && |"near"| == 4 && "far"[0] != "row"[0];
  }

  lemma {:induction false} ARowIsWellReported(elements: seq<Raw>)
    requires RowOfThree(elements, ById(elements)) && OnlyThese(elements, ById(elements))
    ensures WellReported(elements)
  {
    hide ById;
    ARowIsConsistent(elements, ById(elements));
    ARowIsAcyclic(elements, ById(elements));
    hide OnlyThese, Consistent, Acyclic;
  }

  ghost predicate OnlyThese(elements: seq<Raw>, known: Elements) {
    forall id | id in known :: exists i :: 0 <= i < |elements| && elements[i].elementId == id
  }

  lemma {:induction false} ARowIsConsistent(elements: seq<Raw>, known: Elements)
    requires RowOfThree(elements, known) && OnlyThese(elements, known)
    ensures Consistent(known)
  {
    forall id | id in known
      ensures known[id].elementId == id
      ensures forall i, j | 0 <= i < j < |known[id].childIds| :: known[id].childIds[i] != known[id].childIds[j]
      ensures forall child | child in known[id].childIds && child in known :: known[child].parentId == Some(id)
    {
      var k :| 0 <= k < 4 && elements[k].elementId == id;
    }
  }

  lemma {:induction false} ARowIsAcyclic(elements: seq<Raw>, known: Elements)
    requires RowOfThree(elements, known) && OnlyThese(elements, known)
    ensures Acyclic(known)
  {
    var rank: map<string, nat> := map id | id in known :: if id == elements[0].elementId then 1 else 0;
    forall id, child | id in known && child in known[id].childIds && child in known ensures rank[child] < rank[id] {
      var k :| 0 <= k < 4 && elements[k].elementId == id;
    }
    assert Ranked(known, rank);
  }

  // the walk through the row, and what it leaves

  function RowEntry(row: Raw): Entry {
    Entry(row.elementId, Place([("row", 0)], [], None, None))
  }

  function CellEntry(row: Raw, cell: Raw, i: nat): Entry {
    Entry(cell.elementId, Place([("row", 0), ("cell", i)], ["row"], None,
                                Some(NodeIds.MakeNodeId(row.frame, [("row", 0)]))))
  }

  lemma {:induction false} ARowIsVisited(elements: seq<Raw>, known: Elements)
    requires RowOfThree(elements, known) && Acyclic(known)
    ensures Visit(LEX, known, RowEntry(elements[0]))
            == [RowEntry(elements[0]), CellEntry(elements[0], elements[1], 0), CellEntry(elements[0], elements[2], 1),
                CellEntry(elements[0], elements[3], 2)]
  {
    hide Acyclic, Visit, VisitChildren;
    var row := RowEntry(elements[0]);
    var ids := elements[0].childIds;
    AllFromTheFirst(LEX, known, row);
    forall i | 0 <= i < 3
      ensures VisitChildren(LEX, known, row, i)
              == [CellEntry(elements[0], elements[i + 1], i)] + VisitChildren(LEX, known, row, i + 1)
    {
      OneMoreChild(LEX, known, row, i);
      CellIsPlaced(elements, known, i);
      var cell := CellEntry(elements[0], elements[i + 1], i);
      AllFromTheFirst(LEX, known, cell);
      assert [cell] + [] == [cell];
    }
  }

  lemma {:induction false} CellIsPlaced(elements: seq<Raw>, known: Elements, i: nat)
    requires RowOfThree(elements, known) && i < 3
    ensures var ids, cell := elements[0].childIds, CellEntry(elements[0], elements[i + 1], i);
            && cell.id == elements[i + 1].elementId == ids[i] && Kept(LEX, known, ids[i])
            && cell == Entry(ids[i], ChildPlace(LEX, known, RowEntry(elements[0]), i))
  {
    CellsAreCounted(elements, known, i);
    assert elements[0].childIds[i] == elements[i + 1].elementId;
  }

  lemma {:induction false} CellsAreCounted(elements: seq<Raw>, known: Elements, i: nat)
    requires RowOfThree(elements, known) && i <= 3
    ensures Earlier(LEX, known, elements[0].childIds, i, "cell") == i
  {
    if i > 0 {
      CellsAreCounted(elements, known, i - 1);
      assert elements[0].childIds[i - 1] == elements[i].elementId;
    }
  }

  lemma {:induction false} ARowsRoots(elements: seq<Raw>, known: Elements)
    requires RowOfThree(elements, known)
    ensures (forall element | element in elements :: element.elementId in known)
    ensures Roots(elements, known) == [elements[0].elementId]
  {
    assert forall i | 1 <= i < 4 :: !IsRoot(known, elements[i]);
    assert elements == [elements[0], elements[1], elements[2], elements[3]];
    NoRootsAmong(elements, known, 1);
    assert elements[1..] == [elements[1], elements[2], elements[3]];
  }

  lemma {:induction false} NoRootsAmong(elements: seq<Raw>, known: Elements, i: nat)
    requires i <= |elements| && forall k | i <= k < |elements| :: elements[k].elementId in known
    requires forall k | i <= k < |elements| :: !IsRoot(known, elements[k])
    ensures (forall element | element in elements[i..] :: element.elementId in known)
            && Roots(elements[i..], known) == []
    decreases |elements| - i
  {
    if i < |elements| {
      NoRootsAmong(elements, known, i + 1);
      assert elements[i..][1..] == elements[i + 1..] && elements[i..][0] == elements[i];
    }
  }

  lemma {:induction false} ARowsEntries(elements: seq<Raw>)
    requires RowOfThree(elements, ById(elements)) && WellReported(elements)
    ensures Entries(LEX, elements)
            == [RowEntry(elements[0]), CellEntry(elements[0], elements[1], 0), CellEntry(elements[0], elements[2], 1),
                CellEntry(elements[0], elements[3], 2)]
  {
    var known := ById(elements);
    hide ById, Acyclic, Consistent, Visit, VisitRoots, Roots;
    ARowsRoots(elements, known);
    ARowIsVisited(elements, known);
    var roots := Roots(elements, known);
    OneMoreRoot(LEX, known, roots, 0);
    NoMoreRoots(LEX, known, roots);
    var entries := Visit(LEX, known, RowEntry(elements[0]));
    assert entries + [] == entries;
  }

  /** A row, its label, and two nameless cells. */
  ghost predicate ShowsFigures(nodes: seq<UiNode>, text: string, near: string, far: string) {
    && |nodes| == 4 && nodes[0].role == "row" && nodes[0].name.None? && nodes[0].parentId.None?
    && nodes[1].name == Some(text) && nodes[2].name.None? && nodes[3].name.None?
    && nodes[2].value == Some(near) && nodes[3].value == Some(far)
    && (forall i | 1 <= i < 4 :: nodes[i].role == "cell" && nodes[i].parentId == Some(nodes[0].nodeId))
    && (forall i | 0 <= i < 4 :: nodes[i].scope == NodeScope(None, None))
  }

  lemma {:induction false} RowIsDrawn(known: Elements, row: Raw)
    requires row.elementId in known && known[row.elementId] == row && row.role == "row" && row.frame.None?
    ensures var node := NodeAt(LEX, known, RowEntry(row));
            && node.nodeId == NodeIds.MakeNodeId(None, [("row", 0)]) && node.role == "row" && node.parentId.None?
            && node.scope == NodeScope(None, None) && node.value == row.value
            && node.name == Names.NormalizeName(row.name)
  {
    hide Names.NormalizeName, HintsOf, NodeIds.MakeNodeId;
  }

  lemma {:induction false} CellIsDrawn(known: Elements, row: Raw, cell: Raw, i: nat)
    requires cell.elementId in known && known[cell.elementId] == cell && cell.role == "cell" && cell.frame.None?
    requires row.frame.None?
    ensures var node := NodeAt(LEX, known, CellEntry(row, cell, i));
            && node.role == "cell" && node.parentId == Some(NodeIds.MakeNodeId(None, [("row", 0)]))
            && node.scope == NodeScope(None, None) && node.value == cell.value
            && node.name == Names.NormalizeName(cell.name)
  {
    hide Names.NormalizeName, HintsOf, NodeIds.MakeNodeId;
  }

  lemma {:induction false} DrawnFrom(elements: seq<Raw>, k: nat, entry: Entry)
    requires Traversable(elements) && k < |Entries(LEX, elements)| && Entries(LEX, elements)[k] == entry
    ensures k < |Nodes(LEX, elements)| && entry.id in ById(elements)
    ensures var node := Nodes(LEX, elements)[k];
            node == NodeAt(LEX, ById(elements), entry).(childIds := node.childIds)
  {
    hide Traversable, NodeAt, ById, Entries, Nodes, Recorded, ResolveChildren;
  }

  /** Every node shows its element. */
  ghost predicate Drawn(element: Raw, node: UiNode) {
    && node.role == element.role && node.scope == NodeScope(None, None) && node.value == element.value
    && node.name == Names.NormalizeName(element.name)
  }

  lemma {:induction false} ARowIsDrawn(elements: seq<Raw>)
    requires RowOfThree(elements, ById(elements)) && WellReported(elements)
    ensures var nodes := Nodes(LEX, elements);
            && |nodes| == 4 && Drawn(elements[0], nodes[0]) && nodes[0].parentId.None?
            && nodes[0].nodeId == NodeIds.MakeNodeId(None, [("row", 0)])
  {
    ARowsEntries(elements);
    RowIsDrawn(ById(elements), elements[0]);
    hide NodeAt, ById, Entries, Nodes, WellReported, Names.NormalizeName, NodeIds.MakeNodeId, RowOfThree;
    DrawnFrom(elements, 0, RowEntry(elements[0]));
  }

  lemma {:induction false} ACellIsDrawn(elements: seq<Raw>, i: nat)
    requires RowOfThree(elements, ById(elements)) && WellReported(elements) && i < 3
    ensures var nodes := Nodes(LEX, elements);
            && |nodes| == 4 && Drawn(elements[i + 1], nodes[i + 1])
            && nodes[i + 1].parentId == Some(NodeIds.MakeNodeId(None, [("row", 0)]))
  {
    ARowsEntries(elements);
    CellIsDrawn(ById(elements), elements[0], elements[i + 1], i);
    hide NodeAt, ById, Entries, Nodes, WellReported, Names.NormalizeName, NodeIds.MakeNodeId, RowOfThree;
    DrawnFrom(elements, i + 1, CellEntry(elements[0], elements[i + 1], i));
  }

  lemma {:induction false} FiguresAreReported(text: string, near: string, far: string)
    ensures WellReported(Figures(text, near, far)) && PlainRoles(LEX, Figures(text, near, far))
  {
    var elements := Figures(text, near, far);
    FiguresAreARow(text, near, far);
    hide ById, WellReported, RowOfThree;
    assert OnlyThese(elements, ById(elements)) by {
      assert elements[0].elementId == "row" && elements[1].elementId == "label" && elements[2].elementId == "near"
             && elements[3].elementId == "far";
    }
    ARowIsWellReported(elements);
  }

  lemma {:induction false} FiguresAreShown(text: string, near: string, far: string)
    requires Names.NormalizeName(Some(text)) == Some(text)
    ensures WellReported(Figures(text, near, far)) && PlainRoles(LEX, Figures(text, near, far))
    ensures ShowsFigures(Nodes(LEX, Figures(text, near, far)), text, near, far)
  {
    hide Names.NormalizeName, ById, WellReported, Nodes, PlainRoles, RowOfThree;
    FiguresAreARow(text, near, far);
    FiguresAreReported(text, near, far);
    var elements := Figures(text, near, far);
    assert |elements| == 4;
    hide Figures, Drawn, ShowsFigures, NodeIds.MakeNodeId;
    ARowIsDrawn(elements);
    ACellIsDrawn(elements, 0);
    ACellIsDrawn(elements, 1);
    ACellIsDrawn(elements, 2);
    FiguresShow(elements, Nodes(LEX, elements), text, near, far);
  }

  lemma {:induction false} FiguresShow(elements: seq<Raw>, nodes: seq<UiNode>, text: string, near: string, far: string)
    requires Names.NormalizeName(Some(text)) == Some(text)
    requires elements == Figures(text, near, far) && |elements| == 4 == |nodes|
    requires Drawn(elements[0], nodes[0]) && Drawn(elements[1], nodes[1])
    requires Drawn(elements[2], nodes[2]) && Drawn(elements[3], nodes[3])
    requires nodes[0].parentId.None? && nodes[1].parentId == nodes[2].parentId == nodes[3].parentId
    requires nodes[1].parentId == Some(nodes[0].nodeId)
    ensures ShowsFigures(nodes, text, near, far)
  {
    hide Names.NormalizeName;
    NothingHasNoName();
  }

  // what is read

  lemma {:induction false} KeepAll(below: seq<nat>, keep: nat -> bool)
    requires forall i | 0 <= i < |below| :: keep(below[i])
    ensures Keep(below, keep) == below
  {
    if below != [] {
      KeepAll(below[1..], keep);
      assert below == [below[0]] + below[1..];
    }
  }

  /** A tree of one node and the three below it. */
  ghost predicate OneFamily(nodes: seq<UiNode>) {
    && IsTree(nodes) && |nodes| == 4 && Parent(nodes, 0).None? && Children(nodes, 0) == [1, 2, 3]
    && forall i: nat | 1 <= i < 4 :: Parent(nodes, i) == Some(0)
  }

  lemma {:induction false} FiguresAreBelowTheRow(elements: seq<Raw>)
    requires WellReported(elements) && PlainRoles(LEX, elements)
    requires var nodes := Nodes(LEX, elements);
             && |nodes| == 4 && nodes[0].parentId.None?
             && nodes[1].parentId == nodes[2].parentId == nodes[3].parentId == Some(nodes[0].nodeId)
    ensures OneFamily(Nodes(LEX, elements))
  {
    hide WellReported, PlainRoles, Nodes, IsTree, Parent, Ancestors, Children, OneFamily;
    BuiltNodesAreATree(LEX, elements);
    var nodes := Nodes(LEX, elements);
    ParentsShown(nodes);
    TheRestIsBelow(elements);
    FamilyOf(nodes);
  }

  lemma {:induction false} ParentsShown(nodes: seq<UiNode>)
    requires IsTree(nodes) && |nodes| == 4 && nodes[0].parentId.None?
    requires nodes[1].parentId == nodes[2].parentId == nodes[3].parentId == Some(nodes[0].nodeId)
    ensures Parent(nodes, 0).None? && Parent(nodes, 1) == Parent(nodes, 2) == Parent(nodes, 3) == Some(0)
    ensures 0 in Ancestors(nodes, 3)
  {
    hide IsTree, Parent, Ancestors;
    NoParent(nodes);
    ParentIs(nodes, 1);
    ParentIs(nodes, 2);
    ParentIs(nodes, 3);
  }

  lemma {:induction false} FamilyOf(nodes: seq<UiNode>)
    requires IsTree(nodes) && |nodes| == 4 && Parent(nodes, 0).None? && Children(nodes, 0) == [1, 2, 3]
    requires Parent(nodes, 1) == Parent(nodes, 2) == Parent(nodes, 3) == Some(0)
    ensures OneFamily(nodes)
  {
    hide IsTree, Parent, Children;
  }

  lemma {:induction false} TheRestIsBelow(elements: seq<Raw>)
    requires WellReported(elements) && PlainRoles(LEX, elements)
    requires var nodes := Nodes(LEX, elements);
             && IsTree(nodes) && |nodes| == 4 && 0 in Ancestors(nodes, 3)
             && Parent(nodes, 1) == Parent(nodes, 2) == Parent(nodes, 3) == Some(0)
    ensures Children(Nodes(LEX, elements), 0) == [1, 2, 3]
  {
    hide WellReported, PlainRoles, Nodes, IsTree, Parent, Descendants, Ancestors, Children;
    Order.DescendantsAreTheNodesThatFollow(LEX, elements, 0);
    ThreeBelow(Nodes(LEX, elements));
  }

  lemma {:induction false} ThreeBelow(nodes: seq<UiNode>)
    requires IsTree(nodes) && |nodes| == 4 && 0 in Ancestors(nodes, 3)
    requires forall i: nat | 1 <= i < 4 :: Parent(nodes, i) == Some(0)
    requires var below := Descendants(nodes, 0);
             && |below| < 4 && (forall i | 0 <= i < |below| :: below[i] == 1 + i)
             && (0 in Ancestors(nodes, 3) <==> 0 < 3 <= |below|)
    ensures Children(nodes, 0) == [1, 2, 3]
  {
    hide IsTree, Parent, Descendants, Ancestors, Children;
    var below := Descendants(nodes, 0);
    assert below == [1, 2, 3];
    FilteredDescendantsAreTheChildren(nodes, 0);
    KeepAll(below, (d: nat) => d < |nodes| && Parent(nodes, d) == Some(0));
  }

  lemma {:induction false} ParentIs(nodes: seq<UiNode>, i: nat)
    requires IsTree(nodes) && 1 <= i < |nodes| && nodes[i].parentId == Some(nodes[0].nodeId)
    ensures Parent(nodes, i) == Some(0) && 0 in Ancestors(nodes, i)
  {
    ParentIsTheLister(nodes, 0, i);
    hide IsTree, Parent;
  }

  lemma {:induction false} NoParent(nodes: seq<UiNode>)
    requires 0 < |nodes| && nodes[0].parentId.None?
    ensures Parent(nodes, 0).None?
  {
  }

  /** A label and two figures in a row. The far figure is described by the label, and as
      uniquely; on replay the near one is read for it. */
  lemma {:induction false} TheFigureNextToTheLabelIsReadInstead(t: Texts, text: string, near: string, far: string)
    requires Names.NormalizeName(Some(text)) == Some(text)
    requires !t.looksLikeValue(text) && t.fold(text) != ""
    ensures var elements := Figures(text, near, far);
            && WellReported(elements) && IsTree(Nodes(LEX, elements))
            && var nodes := Nodes(LEX, elements);
               && |nodes| == 4 && nodes[2].value == Some(near) && nodes[3].value == Some(far)
               && Synthesize(t, nodes, 3).unique
               && FoundAgain(t, nodes, 3) == Ok(Resolution(2, Strategy.StructuralAnchor, 1))
  {
    hide Names.NormalizeName, ById, WellReported, Nodes, PlainRoles, IsTree, Figures, Parent, Children, FoundAgain;
    var elements := Figures(text, near, far);
    FiguresAreShown(text, near, far);
    FiguresAreBelowTheRow(elements);
    FiguresAreInOneFrame(elements, text, near, far);
    CleanIsSomething(text);
    hide TL.BuiltInOneFrame, Synthesize;
    TheNearOneIsRead(t, elements, Nodes(LEX, elements), text, near, far);
  }

  lemma {:induction false} TheNearOneIsRead(t: Texts, elements: seq<Raw>, nodes: seq<UiNode>, text: string,
                                            near: string, far: string)
    requires TL.BuiltInOneFrame(LEX, elements, nodes) && OneFamily(nodes) && ShowsFigures(nodes, text, near, far)
    requires text != "" && !t.looksLikeValue(text) && t.fold(text) != ""
    ensures Synthesize(t, nodes, 3).unique
    ensures FoundAgain(t, nodes, 3) == Ok(Resolution(2, Strategy.StructuralAnchor, 1))
  {
    hide IsTree, Parent, Children, FoundAgain, TL.BuiltInOneFrame;
    TheFarOneIsLabelled(t, nodes, text, near, far);
    NearFits(nodes, text, near, far);
    OneLabel(t, nodes, text, near, far);
    assert nodes[3].role == "cell";
    hide Synthesize, Following, NoOtherOffer, Fits, ShowsFigures, SameLabel, LabelledInRow;
    TheNearOneIsOffered(t, elements, nodes);
    OneLabelOneOffer(t, nodes, Synthesize(t, nodes, 3).descriptor);
  }

  lemma {:induction false} TheNearOneIsOffered(t: Texts, elements: seq<Raw>, nodes: seq<UiNode>)
    requires TL.BuiltInOneFrame(LEX, elements, nodes) && OneFamily(nodes) && LabelledInRow(t, nodes, 3, 0, 2, 0)
    requires nodes[3].role == "cell" && Synthesize(t, nodes, 3).strategy == Strategy.StructuralAnchor
    requires Fits(nodes[2], ScopeOf(nodes[3]))
    ensures Synthesize(t, nodes, 3).unique
    ensures Following(nodes, Synthesize(t, nodes, 3).descriptor, 1) == [2]
    ensures NoOtherOffer(t, nodes, Synthesize(t, nodes, 3).descriptor, 1, 2) ==>
              FoundAgain(t, nodes, 3) == Ok(Resolution(2, Strategy.StructuralAnchor, 1))
  {
    hide IsTree, Parent, Children, FoundAgain, TL.BuiltInOneFrame, LabelledInRow, Synthesize, Following, NoOtherOffer;
    hide Fits, ScopeOf;
    var first := LabelledCellsAreFoundAgain(t, LEX, elements, nodes, 3, 0, 2, 0);
    assert Children(nodes, 0)[1] == 2;
    assert first == 1;
  }

  lemma {:induction false} OneLabelOneOffer(t: Texts, nodes: seq<UiNode>, target: TargetDescriptor)
    requires IsTree(nodes) && |nodes| == 4 && Following(nodes, target, 1) == [2]
    requires forall a: nat | SameLabel(t, nodes, a, 1) :: a == 1
    ensures NoOtherOffer(t, nodes, target, 1, 2)
  {
    hide IsTree, Following;
  }

  lemma {:induction false} FiguresAreInOneFrame(elements: seq<Raw>, text: string, near: string, far: string)
    requires WellReported(elements) && PlainRoles(LEX, elements)
    requires ShowsFigures(Nodes(LEX, elements), text, near, far) && OneFamily(Nodes(LEX, elements))
    ensures TL.BuiltInOneFrame(LEX, elements, Nodes(LEX, elements))
  {
    hide WellReported, PlainRoles, Nodes, IsTree, Parent, Children;
  }

  lemma {:induction false} TheFarOneIsLabelled(t: Texts, nodes: seq<UiNode>, text: string, near: string, far: string)
    requires ShowsFigures(nodes, text, near, far) && OneFamily(nodes) && text != "" && !t.looksLikeValue(text)
    ensures LabelledInRow(t, nodes, 3, 0, 2, 0) && IsReadable(nodes[3].role)
    ensures Synthesize(t, nodes, 3).strategy == Strategy.StructuralAnchor
  {
    hide IsTree, Parent, Children, AnchorFor;
    TheLabelIsTheNearest(t, nodes, 3, 0, 2, 0);
  }

  lemma {:induction false} NearFits(nodes: seq<UiNode>, text: string, near: string, far: string)
    requires ShowsFigures(nodes, text, near, far)
    ensures Fits(nodes[2], ScopeOf(nodes[3]))
  {
  }

  /** No other node reads like the label. */
  lemma {:induction false} OneLabel(t: Texts, nodes: seq<UiNode>, text: string, near: string, far: string)
    requires ShowsFigures(nodes, text, near, far) && text != "" && t.fold(text) != ""
    ensures forall a: nat | SameLabel(t, nodes, a, 1) :: a == 1
  {
  }

  lemma {:induction false} CleanIsSomething(text: string)
    requires Names.NormalizeName(Some(text)) == Some(text)
    ensures text != ""
  {
  }
}
