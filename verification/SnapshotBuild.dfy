/** `perception/build.py`: a forest of raw surface elements becomes the flat,
    document-order list of nodes everything above works on. */
module SnapshotBuild {
  import opened Outcomes
  import opened Snapshots
  import opened NodeIds
  import Names

  /** One element as its surface reports it. */
  datatype Raw = Raw(
    elementId: string,
    role: string,
    name: Option<string>,
    value: Option<string>,
    states: set<string>,
    childIds: seq<string>,
    parentId: Option<string>,
    frame: Option<string>,
    attributes: map<string, string>,
    nativeHandle: Option<string>)

  /** The vocabulary tables and the driver's callback, which nothing here looks into. */
  datatype Lexicon = Lexicon(
    role: string -> string,
    isNoise: string -> bool,
    region: Option<string> -> Option<string>,
    hint: (string, map<string, string>) -> Option<string>,
    fingerprint: (string, Option<string>, seq<string>, Option<string>) -> string)

  type Elements = map<string, Raw>

  function ById(elements: seq<Raw>): Elements {
    if elements == [] then map[]
    else
      var last := elements[|elements| - 1];
      ById(elements[..|elements| - 1])[last.elementId := last]
  }

  // ---------------------------------------------------------------- what a surface may report

  /** A listed child that was reported names its lister as its parent, and no list
      repeats itself. */
  ghost predicate Consistent(known: Elements) {
    forall id | id in known ::
      && known[id].elementId == id
      && (forall i, j | 0 <= i < j < |known[id].childIds| :: known[id].childIds[i] != known[id].childIds[j])
      && (forall child | child in known[id].childIds && child in known :: known[child].parentId == Some(id))
  }

  ghost predicate Ranked(known: Elements, rank: map<string, nat>) {
    && rank.Keys == known.Keys
    && forall id, child | id in known && child in known[id].childIds && child in known :: rank[child] < rank[id]
  }

  ghost predicate Acyclic(known: Elements) {
    exists rank :: Ranked(known, rank)
  }

  ghost function Heights(known: Elements): (rank: map<string, nat>)
    requires Acyclic(known)
    ensures Ranked(known, rank)
  {
    var rank :| Ranked(known, rank);
    rank
  }

  // ---------------------------------------------------------------- the traversal

  /** Where a traversal has got to: the arguments of `visit` besides the element. */
  datatype Place = Place(path: Path, above: seq<string>, region: Option<string>, parent: Option<string>)

  datatype Entry = Entry(id: string, place: Place)

  predicate Kept(lex: Lexicon, known: Elements, id: string) {
    id in known && !lex.isNoise(known[id].role)
  }

  /** How many kept children before position `i` have this role. */
  function Earlier(lex: Lexicon, known: Elements, ids: seq<string>, i: nat, role: string): nat
    requires i <= |ids|
  {
    if i == 0 then 0
    else
      Earlier(lex, known, ids, i - 1, role)
      + if Kept(lex, known, ids[i - 1]) && lex.role(known[ids[i - 1]].role) == role then 1 else 0
  }

  function SegmentAt(lex: Lexicon, known: Elements, ids: seq<string>, i: nat): Segment
    requires i < |ids| && ids[i] in known
  {
    var role := lex.role(known[ids[i]].role);
    (role, Earlier(lex, known, ids, i, role))
  }

  function RegionAt(lex: Lexicon, element: Raw, place: Place): Option<string> {
    if lex.role(element.role) != "heading" then place.region
    else
      var inferred := lex.region(Names.NormalizeName(element.name));
      if inferred.Some? && inferred.value != "" then inferred else place.region
  }

  function IdAt(known: Elements, entry: Entry): string
    requires entry.id in known
  {
    MakeNodeId(known[entry.id].frame, entry.place.path)
  }

  function ChildPlace(lex: Lexicon, known: Elements, at: Entry, i: nat): Place
    requires at.id in known && i < |known[at.id].childIds| && known[at.id].childIds[i] in known
  {
    var element := known[at.id];
    Place(at.place.path + [SegmentAt(lex, known, element.childIds, i)], at.place.above + [lex.role(element.role)],
          RegionAt(lex, element, at.place), Some(IdAt(known, at)))
  }

  function Visit(lex: Lexicon, known: Elements, at: Entry): (entries: seq<Entry>)
    requires Acyclic(known) && at.id in known
    ensures entries != [] && entries[0] == at
    ensures forall entry | entry in entries :: entry.id in known
    decreases Heights(known)[at.id], |known[at.id].childIds| + 1
  {
    [at] + VisitChildren(lex, known, at, 0)
  }

  function VisitChildren(lex: Lexicon, known: Elements, at: Entry, i: nat): (entries: seq<Entry>)
    requires Acyclic(known) && at.id in known && i <= |known[at.id].childIds|
    ensures forall entry | entry in entries :: entry.id in known
    decreases Heights(known)[at.id], |known[at.id].childIds| - i
  {
    var ids := known[at.id].childIds;
    if i == |ids| then []
    else if !Kept(lex, known, ids[i]) then VisitChildren(lex, known, at, i + 1)
    else Visit(lex, known, Entry(ids[i], ChildPlace(lex, known, at, i))) + VisitChildren(lex, known, at, i + 1)
  }

  function Roots(elements: seq<Raw>, known: Elements): (ids: seq<string>)
    requires forall element | element in elements :: element.elementId in known
    ensures forall id | id in ids ::
              exists element :: element in elements && element.elementId == id && IsRoot(known, element)
  {
    if elements == [] then []
    else
      (if IsRoot(known, elements[0]) then [elements[0].elementId] else []) + Roots(elements[1..], known)
  }

  predicate IsRoot(known: Elements, element: Raw) {
    element.parentId.None? || element.parentId.value !in known
  }

  function VisitRoots(lex: Lexicon, known: Elements, roots: seq<string>, i: nat): (entries: seq<Entry>)
    requires Acyclic(known) && i <= |roots| && forall id | id in roots :: id in known
    ensures forall entry | entry in entries :: entry.id in known
    decreases |roots| - i
  {
    if i == |roots| then []
    else if lex.isNoise(known[roots[i]].role) then VisitRoots(lex, known, roots, i + 1)
    else
      Visit(lex, known, Entry(roots[i], Place([(lex.role(known[roots[i]].role), i)], [], None, None)))
      + VisitRoots(lex, known, roots, i + 1)
  }

  // ---------------------------------------------------------------- the nodes written down

  function HintsOf(lex: Lexicon, element: Raw): map<string, string> {
    var hint := if element.attributes == map[] then None else lex.hint(lex.role(element.role), element.attributes);
    var css := if hint.Some? && hint.value != "" then map["css" := hint.value] else map[];
    if element.nativeHandle.Some? then css["native" := element.nativeHandle.value] else css
  }

  function NodeAt(lex: Lexicon, known: Elements, at: Entry): UiNode
    requires at.id in known
  {
    var element := known[at.id];
    var role, name := lex.role(element.role), Names.NormalizeName(element.name);
    UiNode(IdAt(known, at), role, name, element.value, element.states,
           NodeScope(element.frame, RegionAt(lex, element, at.place)), at.place.parent, [], HintsOf(lex, element),
           lex.fingerprint(role, name, at.place.above, element.frame))
  }

  function Written(lex: Lexicon, known: Elements, entries: seq<Entry>): (built: seq<(UiNode, string)>)
    requires forall entry | entry in entries :: entry.id in known
    ensures |built| == |entries|
    ensures forall k | 0 <= k < |entries| :: built[k] == (NodeAt(lex, known, entries[k]), entries[k].id)
  {
    if entries == [] then []
    else [(NodeAt(lex, known, entries[0]), entries[0].id)] + Written(lex, known, entries[1..])
  }

  function Recorded(nodeIds: map<string, string>, known: Elements, entries: seq<Entry>): map<string, string>
    requires forall entry | entry in entries :: entry.id in known
    decreases |entries|
  {
    if entries == [] then nodeIds
    else Recorded(nodeIds[entries[0].id := IdAt(known, entries[0])], known, entries[1..])
  }

  function ResolveChildren(childIds: seq<string>, nodeIds: map<string, string>): seq<string> {
    if childIds == [] then []
    else (if childIds[0] in nodeIds then [nodeIds[childIds[0]]] else []) + ResolveChildren(childIds[1..], nodeIds)
  }

  function Resolved(known: Elements, nodeIds: map<string, string>, built: seq<(UiNode, string)>): (nodes: seq<UiNode>)
    requires forall pair | pair in built :: pair.1 in known
    ensures |nodes| == |built|
    ensures forall k | 0 <= k < |built| ::
              nodes[k] == built[k].0.(childIds := ResolveChildren(known[built[k].1].childIds, nodeIds))
  {
    if built == [] then []
    else
      [built[0].0.(childIds := ResolveChildren(known[built[0].1].childIds, nodeIds))]
      + Resolved(known, nodeIds, built[1..])
  }

  /** What the traversal itself needs: handles that tell elements apart, and an end. */
  ghost predicate Traversable(elements: seq<Raw>) {
    && (forall i, j | 0 <= i < j < |elements| :: elements[i].elementId != elements[j].elementId)
    && Acyclic(ById(elements))
  }

  /** What the laws of the built tree rest on besides. */
  ghost predicate WellReported(elements: seq<Raw>): (well: bool)
    ensures well ==> Traversable(elements)
  {
    Traversable(elements) && Consistent(ById(elements))
  }

  lemma {:induction false} ByIdKnowsAll(elements: seq<Raw>)
    ensures forall element | element in elements :: element.elementId in ById(elements)
    ensures forall id | id in ById(elements) :: ById(elements)[id] in elements
  {
    if elements != [] { ByIdKnowsAll(elements[..|elements| - 1]); }
  }

  function Entries(lex: Lexicon, elements: seq<Raw>): (entries: seq<Entry>)
    requires Traversable(elements)
    ensures forall entry | entry in entries :: entry.id in ById(elements)
  {
    ByIdKnowsAll(elements);
    VisitRoots(lex, ById(elements), Roots(elements, ById(elements)), 0)
  }

  function Nodes(lex: Lexicon, elements: seq<Raw>): (nodes: seq<UiNode>)
    requires Traversable(elements)
    ensures |nodes| == |Entries(lex, elements)|
    ensures var known, entries := ById(elements), Entries(lex, elements);
            forall k | 0 <= k < |nodes| ::
              nodes[k] == NodeAt(lex, known, entries[k]).(
                childIds := ResolveChildren(known[entries[k].id].childIds, Recorded(map[], known, entries)))
  {
    var known, entries := ById(elements), Entries(lex, elements);
    Resolved(known, Recorded(map[], known, entries), Written(lex, known, entries))
  }

  // ---------------------------------------------------------------- the traversal in its own form

  lemma {:induction false} RecordedInTurn(nodeIds: map<string, string>, known: Elements, first: seq<Entry>,
                                          rest: seq<Entry>)
    requires forall entry | entry in first + rest :: entry.id in known
    ensures Recorded(nodeIds, known, first + rest) == Recorded(Recorded(nodeIds, known, first), known, rest)
    decreases |first|
  {
    if first == [] {
      assert first + rest == rest;
    } else {
      assert (first + rest)[1..] == first[1..] + rest;
      RecordedInTurn(nodeIds[first[0].id := IdAt(known, first[0])], known, first[1..], rest);
    }
  }

  /** What is written down and recorded after `entries`, given what was before. */
  ghost predicate Adds(lex: Lexicon, known: Elements, entries: seq<Entry>, before: (seq<(UiNode, string)>, map<string,
                       string>),
                       after: (seq<(UiNode, string)>, map<string, string>))
  {
    && (forall entry | entry in entries :: entry.id in known)
    && after.0 == before.0 + Written(lex, known, entries) && after.1 == Recorded(before.1, known, entries)
  }

  lemma {:induction false} AddsNothing(lex: Lexicon, known: Elements, now: (seq<(UiNode, string)>, map<string, string>))
    ensures Adds(lex, known, [], now, now)
  {
  }

  lemma {:induction false} AddsOne(lex: Lexicon, known: Elements, at: Entry, before: (seq<(UiNode, string)>,
                                   map<string, string>))
    requires at.id in known
    ensures Adds(lex, known, [at], before,
                 (before.0 + [(NodeAt(lex, known, at), at.id)], before.1[at.id := IdAt(known, at)]))
  {
    hide NodeAt, IdAt;
    assert Written(lex, known, [at]) == [(NodeAt(lex, known, at), at.id)];
    assert [at][1..] == [];
    var next := before.1[at.id := IdAt(known, at)];
    assert Recorded(before.1, known, [at]) == Recorded(next, known, []) == next;
  }

  lemma {:induction false} AddsInTurn(lex: Lexicon, known: Elements, first: seq<Entry>, rest: seq<Entry>,
                                      before: (seq<(UiNode, string)>, map<string, string>),
                                      between: (seq<(UiNode, string)>, map<string, string>),
                                      after: (seq<(UiNode, string)>, map<string, string>))
    requires Adds(lex, known, first, before, between) && Adds(lex, known, rest, between, after)
    ensures Adds(lex, known, first + rest, before, after)
  {
    hide NodeAt, IdAt, Written, Recorded;
    assert forall entry | entry in first + rest :: entry in first || entry in rest;
    RecordedInTurn(before.1, known, first, rest);
    WrittenInTurn(lex, known, first, rest);
  }

  lemma WrittenInTurn(lex: Lexicon, known: Elements, first: seq<Entry>, rest: seq<Entry>)
    requires forall entry | entry in first + rest :: entry.id in known
    ensures Written(lex, known, first + rest) == Written(lex, known, first) + Written(lex, known, rest)
  {
    hide NodeAt, Written;
  }

  ghost predicate Counts(lex: Lexicon, known: Elements, ids: seq<string>, i: nat, seen: map<string, nat>)
    requires i <= |ids|
  {
    forall role | role in seen || Earlier(lex, known, ids, i, role) > 0 ::
      role in seen && seen[role] == Earlier(lex, known, ids, i, role)
  }

  lemma CountsNext(lex: Lexicon, known: Elements, ids: seq<string>, i: nat, seen: map<string, nat>)
    requires i < |ids| && Counts(lex, known, ids, i, seen)
    ensures if Kept(lex, known, ids[i]) then
              var role := lex.role(known[ids[i]].role);
              var index := if role in seen then seen[role] else 0;
              SegmentAt(lex, known, ids, i) == (role, index) && Counts(lex, known, ids, i + 1, seen[role := index + 1])
            else Counts(lex, known, ids, i + 1, seen)
  {
  }

  lemma {:induction false} NoneCounted(lex: Lexicon, known: Elements, ids: seq<string>)
    ensures Counts(lex, known, ids, 0, map[])
  {
  }

  lemma {:induction false} OneMoreChild(lex: Lexicon, known: Elements, at: Entry, i: nat)
    requires Acyclic(known) && at.id in known && i < |known[at.id].childIds|
    ensures var child := known[at.id].childIds[i];
            VisitChildren(lex, known, at, i) ==
              (if Kept(lex, known, child) then Visit(lex, known, Entry(child, ChildPlace(lex, known, at, i))) else [])
              + VisitChildren(lex, known, at, i + 1)
  {
    hide Acyclic, Visit;
  }

  lemma {:induction false} AllFromTheFirst(lex: Lexicon, known: Elements, at: Entry)
    requires Acyclic(known) && at.id in known
    ensures Visit(lex, known, at) == [at] + VisitChildren(lex, known, at, 0)
    ensures VisitChildren(lex, known, at, |known[at.id].childIds|) == []
  {
    hide Acyclic;
  }

  class Builder {
    const lex: Lexicon
    const known: Elements
    var built: seq<(UiNode, string)>
    var nodeIds: map<string, string>

    constructor (lex: Lexicon, known: Elements)
      ensures this.lex == lex && this.known == known && built == [] && nodeIds == map[]
    {
      this.lex, this.known, built, nodeIds := lex, known, [], map[];
    }

    method VisitElement(at: Entry)
      requires Acyclic(known) && at.id in known
      modifies this
      ensures Adds(lex, known, Visit(lex, known, at), old((built, nodeIds)), (built, nodeIds))
      decreases Heights(known)[at.id]
    {
      hide Acyclic, Visit, VisitChildren, Adds, Counts, NodeAt, Earlier;
      var element := known[at.id];
      var role := lex.role(element.role);
      var nodeId := IdAt(known, at);
      nodeIds := nodeIds[at.id := nodeId];
      built := built + [(NodeAt(lex, known, at), at.id)];
      var seen: map<string, nat> := map[];
      ghost var entries := [at];
      AllFromTheFirst(lex, known, at);
      AddsOne(lex, known, at, old((built, nodeIds)));
      NoneCounted(lex, known, element.childIds);
      hide IdAt, RegionAt;
      var i := 0;
      while i < |element.childIds|
        invariant 0 <= i <= |element.childIds|
        invariant Adds(lex, known, entries, old((built, nodeIds)), (built, nodeIds))
        invariant Visit(lex, known, at) == entries + VisitChildren(lex, known, at, i)
        invariant Counts(lex, known, element.childIds, i, seen)
      {
        var child := element.childIds[i];
        OneMoreChild(lex, known, at, i);
        CountsNext(lex, known, element.childIds, i, seen);
        if child in known && !lex.isNoise(known[child].role) {
          var childRole := lex.role(known[child].role);
          var index := if childRole in seen then seen[childRole] else 0;
          seen := seen[childRole := index + 1];
          var place := Place(at.place.path + [(childRole, index)], at.place.above + [role],
                             RegionAt(lex, element, at.place), Some(nodeId));
          ghost var below, between := Visit(lex, known, Entry(child, place)), (built, nodeIds);
          VisitElement(Entry(child, place));
          AddsInTurn(lex, known, entries, below, old((built, nodeIds)), between, (built, nodeIds));
          entries := entries + below;
        }
        i := i + 1;
      }
      assert entries + [] == entries;
    }

    method VisitEach(roots: seq<string>)
      requires Acyclic(known) && forall id | id in roots :: id in known
      modifies this
      ensures Adds(lex, known, VisitRoots(lex, known, roots, 0), old((built, nodeIds)), (built, nodeIds))
    {
      hide Acyclic, Visit, VisitRoots, Adds;
      ghost var entries: seq<Entry> := [];
      AddsNothing(lex, known, (built, nodeIds));
      var index := 0;
      while index < |roots|
        invariant 0 <= index <= |roots|
        invariant Adds(lex, known, entries, old((built, nodeIds)), (built, nodeIds))
        invariant VisitRoots(lex, known, roots, 0) == entries + VisitRoots(lex, known, roots, index)
      {
        var root := roots[index];
        OneMoreRoot(lex, known, roots, index);
        if !lex.isNoise(known[root].role) {
          var at := Entry(root, Place([(lex.role(known[root].role), index)], [], None, None));
          ghost var between := (built, nodeIds);
          VisitElement(at);
          AddsInTurn(lex, known, entries, Visit(lex, known, at), old((built, nodeIds)), between, (built, nodeIds));
          entries := entries + Visit(lex, known, at);
        }
        index := index + 1;
      }
      NoMoreRoots(lex, known, roots);
      assert entries + [] == entries;
    }
  }

  /** `build_snapshot`, up to the page's own facts. */
  method BuildSnapshot(lex: Lexicon, elements: seq<Raw>) returns (nodes: seq<UiNode>)
    requires Traversable(elements)
    ensures nodes == Nodes(lex, elements)
  {
    hide VisitRoots, Adds, Roots, ById, Resolved, Nodes, Acyclic;
    ByIdKnowsAll(elements);
    var known := ById(elements);
    var builder := new Builder(lex, known);
    builder.VisitEach(Roots(elements, known));
    NodesFrom(lex, elements, builder.built, builder.nodeIds);
    nodes := Resolved(known, builder.nodeIds, builder.built);
  }

  lemma {:induction false} NodesFrom(lex: Lexicon, elements: seq<Raw>, built: seq<(UiNode, string)>,
                                     nodeIds: map<string, string>)
    requires Traversable(elements) && forall element | element in elements :: element.elementId in ById(elements)
    requires Adds(lex, ById(elements), VisitRoots(lex, ById(elements), Roots(elements, ById(elements)), 0), ([], map[]),
                  (built, nodeIds))
    ensures (forall pair | pair in built :: pair.1 in ById(elements))
            && Nodes(lex, elements) == Resolved(ById(elements), nodeIds, built)
  {
    var known, entries := ById(elements), Entries(lex, elements);
    AddedToNothing(lex, known, entries, built, nodeIds);
    hide Traversable, Adds, VisitRoots, Roots, ById, Recorded, Resolved, Written, NodeAt, ResolveChildren, IdAt;
  }

  lemma AddedToNothing(lex: Lexicon, known: Elements, entries: seq<Entry>, built: seq<(UiNode, string)>,
                       nodeIds: map<string, string>)
    requires Adds(lex, known, entries, ([], map[]), (built, nodeIds))
    ensures forall entry | entry in entries :: entry.id in known
    ensures built == Written(lex, known, entries) && nodeIds == Recorded(map[], known, entries)
    ensures forall pair | pair in built :: pair.1 in known
  {
    hide NodeAt, Recorded, Written;
    assert forall k | 0 <= k < |built| :: entries[k] in entries;
  }

  lemma {:induction false} OneMoreRoot(lex: Lexicon, known: Elements, roots: seq<string>, i: nat)
    requires Acyclic(known) && i < |roots| && forall id | id in roots :: id in known
    ensures var root := roots[i];
            VisitRoots(lex, known, roots, i) ==
              (if lex.isNoise(known[root].role) then []
               else Visit(lex, known, Entry(root, Place([(lex.role(known[root].role), i)], [], None, None))))
              + VisitRoots(lex, known, roots, i + 1)
  {
    hide Acyclic, Visit;
  }

  lemma {:induction false} NoMoreRoots(lex: Lexicon, known: Elements, roots: seq<string>)
    requires Acyclic(known) && forall id | id in roots :: id in known
    ensures VisitRoots(lex, known, roots, |roots|) == []
  {
    hide Acyclic;
  }
}
