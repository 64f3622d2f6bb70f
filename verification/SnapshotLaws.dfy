/** What `build_snapshot` promises of the tree it writes down. */
module SnapshotLaws {
  import opened Outcomes
  import opened Snapshots
  import opened NodeIds
  import opened SnapshotBuild
  import opened Trees

  // ---------------------------------------------------------------- the shape of a traversal

  ghost predicate DistinctPaths(entries: seq<Entry>) {
    forall i, j | 0 <= i < j < |entries| :: entries[i].place.path != entries[j].place.path
  }

  ghost predicate Reported(known: Elements, entries: seq<Entry>) {
    forall entry | entry in entries :: entry.id in known
  }

  /** `child` was visited from `parent`, as one of the children it lists. */
  ghost predicate Linked(lex: Lexicon, known: Elements, parent: Entry, child: Entry) {
    && parent.id in known
    && exists i :: 0 <= i < |known[parent.id].childIds| && IsChildAt(lex, known, parent, child, i)
  }

  ghost predicate IsChildAt(lex: Lexicon, known: Elements, parent: Entry, child: Entry, i: nat)
    requires parent.id in known && i < |known[parent.id].childIds|
  {
    && known[parent.id].childIds[i] == child.id && Kept(lex, known, child.id)
    && child.place == ChildPlace(lex, known, parent, i)
  }

  ghost predicate HasParent(lex: Lexicon, known: Elements, entries: seq<Entry>, k: nat)
    requires k < |entries|
  {
    exists j :: 0 <= j < k && Linked(lex, known, entries[j], entries[k])
  }

  ghost predicate AllHaveParents(lex: Lexicon, known: Elements, entries: seq<Entry>) {
    forall k | 1 <= k < |entries| :: HasParent(lex, known, entries, k)
  }

  /** Below `path`, at or after position `i` of the children counted so far. */
  ghost predicate Beyond(lex: Lexicon, known: Elements, ids: seq<string>, i: nat, path: Path, below: Path)
    requires i <= |ids|
  {
    path < below && below[|path|].1 >= Earlier(lex, known, ids, i, below[|path|].0)
  }

  lemma {:induction false} EarlierGrows(lex: Lexicon, known: Elements, ids: seq<string>, i: nat, j: nat, role: string)
    requires i <= j <= |ids|
    ensures Earlier(lex, known, ids, i, role) <= Earlier(lex, known, ids, j, role)
  {
    if i < j { EarlierGrows(lex, known, ids, i, j - 1, role); }
  }

  lemma {:induction false} VisitLaw(lex: Lexicon, known: Elements, at: Entry)
    requires Acyclic(known) && at.id in known
    ensures var entries := Visit(lex, known, at);
            && DistinctPaths(entries) && AllHaveParents(lex, known, entries)
            && forall k | 1 <= k < |entries| :: at.place.path < entries[k].place.path
    decreases Heights(known)[at.id], |known[at.id].childIds| + 1
  {
    hide Acyclic, HasParent, Earlier;
    ChildrenLaw(lex, known, at, 0);
    var below := VisitChildren(lex, known, at, 0);
    var entries := Visit(lex, known, at);
    assert entries == [at] + below;
    assert forall k | 1 <= k < |entries| :: entries[k] == below[k - 1] && below[k - 1] in below;
  }

  lemma {:induction false} ChildrenLaw(lex: Lexicon, known: Elements, at: Entry, i: nat)
    requires Acyclic(known) && at.id in known && i <= |known[at.id].childIds|
    ensures var entries := VisitChildren(lex, known, at, i);
            && DistinctPaths(entries) && AllHaveParents(lex, known, [at] + entries)
            && (forall e | e in entries :: Beyond(lex, known, known[at.id].childIds, i, at.place.path, e.place.path))
    decreases Heights(known)[at.id], |known[at.id].childIds| - i
  {
    hide HasParent, AllHaveParents, DistinctPaths;
    var ids := known[at.id].childIds;
    if i == |ids| {
      Nothing(lex, known, at);
    } else {
      ChildrenLaw(lex, known, at, i + 1);
      var rest := VisitChildren(lex, known, at, i + 1);
      assert forall role :: Earlier(lex, known, ids, i, role) <= Earlier(lex, known, ids, i + 1, role);
      if Kept(lex, known, ids[i]) {
        var child := Entry(ids[i], ChildPlace(lex, known, at, i));
        VisitLaw(lex, known, child);
        Graft(lex, known, at, child, i, Visit(lex, known, child), rest);
      }
    }
  }

  lemma Nothing(lex: Lexicon, known: Elements, at: Entry)
    ensures DistinctPaths([]) && AllHaveParents(lex, known, [at] + [])
  {
  }

  /** A child's whole subtree goes in front of the children that follow it. */
  lemma {:induction false} Graft(lex: Lexicon, known: Elements, at: Entry, child: Entry, i: nat, tree: seq<Entry>,
                                 rest: seq<Entry>)
    requires at.id in known && i < |known[at.id].childIds| && Kept(lex, known, child.id)
    requires IsChildAt(lex, known, at, child, i)
    requires tree != [] && tree[0] == child && DistinctPaths(tree) && AllHaveParents(lex, known, tree)
    requires forall k | 1 <= k < |tree| :: child.place.path < tree[k].place.path
    requires DistinctPaths(rest) && AllHaveParents(lex, known, [at] + rest)
    requires forall e | e in rest :: Beyond(lex, known, known[at.id].childIds, i + 1, at.place.path, e.place.path)
    ensures DistinctPaths(tree + rest) && AllHaveParents(lex, known, [at] + (tree + rest))
    ensures forall e | e in tree + rest :: Beyond(lex, known, known[at.id].childIds, i, at.place.path, e.place.path)
  {
    var ids, path := known[at.id].childIds, at.place.path;
    var segment := SegmentAt(lex, known, ids, i);
    assert child.place.path == path + [segment];
    assert Earlier(lex, known, ids, i + 1, segment.0) == segment.1 + 1;
    assert forall k | 0 <= k < |tree| :: path < tree[k].place.path && tree[k].place.path[|path|] == segment;
    assert forall k | 0 <= k < |rest| :: rest[k] in rest && rest[k].place.path[|path|] != segment;
    assert forall e | e in tree :: Beyond(lex, known, ids, i, path, e.place.path);
    forall e | e in rest ensures Beyond(lex, known, ids, i, path, e.place.path) {
      EarlierGrows(lex, known, ids, i, i + 1, e.place.path[|path|].0);
    }
    GraftDistinct(tree, rest, |path|, segment);
    GraftLinks(lex, known, at, child, i, tree, rest);
  }

  lemma GraftDistinct(tree: seq<Entry>, rest: seq<Entry>, at: nat, segment: Segment)
    requires DistinctPaths(tree) && DistinctPaths(rest)
    requires forall k | 0 <= k < |tree| :: at < |tree[k].place.path| && tree[k].place.path[at] == segment
    requires forall k | 0 <= k < |rest| :: at < |rest[k].place.path| && rest[k].place.path[at] != segment
    ensures DistinctPaths(tree + rest)
  {
  }

  lemma {:induction false} GraftLinks(lex: Lexicon, known: Elements, at: Entry, child: Entry, i: nat, tree: seq<Entry>,
                                      rest: seq<Entry>)
    requires at.id in known && i < |known[at.id].childIds| && Kept(lex, known, child.id)
    requires IsChildAt(lex, known, at, child, i)
    requires tree != [] && tree[0] == child && AllHaveParents(lex, known, tree)
    requires AllHaveParents(lex, known, [at] + rest)
    ensures AllHaveParents(lex, known, [at] + (tree + rest))
  {
    hide Linked, Kept, IsChildAt;
    var all := [at] + (tree + rest);
    assert Linked(lex, known, at, child) by { IsLinked(lex, known, at, child, i); }
    forall k | 1 <= k < |all| ensures HasParent(lex, known, all, k) {
      if k == 1 {
        assert all[0] == at && all[1] == child;
      } else if k <= |tree| {
        assert HasParent(lex, known, tree, k - 1);
        var j :| 0 <= j < k - 1 && Linked(lex, known, tree[j], tree[k - 1]);
        assert all[j + 1] == tree[j] && all[k] == tree[k - 1];
      } else {
        var m := k - |tree|;
        assert HasParent(lex, known, [at] + rest, m);
        var j :| 0 <= j < m && Linked(lex, known, ([at] + rest)[j], ([at] + rest)[m]);
        assert all[k] == ([at] + rest)[m];
        assert all[if j == 0 then 0 else j + |tree|] == ([at] + rest)[j];
      }
    }
  }

  lemma IsLinked(lex: Lexicon, known: Elements, parent: Entry, child: Entry, i: nat)
    requires parent.id in known && i < |known[parent.id].childIds| && IsChildAt(lex, known, parent, child, i)
    ensures Linked(lex, known, parent, child)
  {
  }

  // ---------------------------------------------------------------- the whole forest

  ghost predicate RootAt(lex: Lexicon, known: Elements, roots: seq<string>, entry: Entry) {
    exists i :: 0 <= i < |roots| && IsRootAt(lex, known, roots, entry, i)
  }

  ghost predicate IsRootAt(lex: Lexicon, known: Elements, roots: seq<string>, entry: Entry, i: nat)
    requires i < |roots|
  {
    entry.id == roots[i] && entry.id in known
    && entry.place == Place([(lex.role(known[entry.id].role), i)], [], None, None)
  }

  ghost predicate Placed(lex: Lexicon, known: Elements, roots: seq<string>, entries: seq<Entry>, k: nat)
    requires k < |entries|
  {
    RootAt(lex, known, roots, entries[k]) || HasParent(lex, known, entries, k)
  }

  ghost predicate AllPlaced(lex: Lexicon, known: Elements, roots: seq<string>, entries: seq<Entry>) {
    forall k | 0 <= k < |entries| :: Placed(lex, known, roots, entries, k)
  }

  lemma {:induction false} RootsLaw(lex: Lexicon, known: Elements, roots: seq<string>, i: nat)
    requires Acyclic(known) && i <= |roots| && forall id | id in roots :: id in known
    ensures var entries := VisitRoots(lex, known, roots, i);
            && DistinctPaths(entries) && AllPlaced(lex, known, roots, entries)
            && forall k | 0 <= k < |entries| :: entries[k].place.path != [] && entries[k].place.path[0].1 >= i
    decreases |roots| - i
  {
    hide Acyclic, Visit, DistinctPaths, AllPlaced, AllHaveParents;
    if i == |roots| {
      assert DistinctPaths([]) && AllPlaced(lex, known, roots, []) by { NothingPlaced(lex, known, roots); }
    } else {
      RootsLaw(lex, known, roots, i + 1);
      if !lex.isNoise(known[roots[i]].role) {
        var root := Entry(roots[i], Place([(lex.role(known[roots[i]].role), i)], [], None, None));
        VisitLaw(lex, known, root);
        OneTreeMore(lex, known, roots, i, root, Visit(lex, known, root), VisitRoots(lex, known, roots, i + 1));
      }
    }
  }

  lemma NothingPlaced(lex: Lexicon, known: Elements, roots: seq<string>)
    ensures DistinctPaths([]) && AllPlaced(lex, known, roots, [])
  {
  }

  lemma {:induction false} OneTreeMore(lex: Lexicon, known: Elements, roots: seq<string>, i: nat, root: Entry,
                                       tree: seq<Entry>, rest: seq<Entry>)
    requires i < |roots| && IsRootAt(lex, known, roots, root, i)
    requires tree != [] && tree[0] == root && DistinctPaths(tree) && AllHaveParents(lex, known, tree)
    requires forall k | 1 <= k < |tree| :: root.place.path < tree[k].place.path
    requires DistinctPaths(rest) && AllPlaced(lex, known, roots, rest)
    requires forall k | 0 <= k < |rest| :: rest[k].place.path != [] && rest[k].place.path[0].1 >= i + 1
    ensures DistinctPaths(tree + rest) && AllPlaced(lex, known, roots, tree + rest)
    ensures forall k | 0 <= k < |tree + rest| ::
              (tree + rest)[k].place.path != [] && (tree + rest)[k].place.path[0].1 >= i
  {
    hide Linked, IsRootAt;
    assert root.place.path[0].1 == i by { RootsStandAlone(lex, known, roots, i, root); }
    GraftDistinct(tree, rest, 0, root.place.path[0]);
    var all := tree + rest;
    forall k | 0 <= k < |all| ensures Placed(lex, known, roots, all, k) {
      if k == 0 {
        assert all[0] == root;
      } else if k < |tree| {
        assert HasParent(lex, known, tree, k);
        var j :| 0 <= j < k && Linked(lex, known, tree[j], tree[k]);
        assert all[j] == tree[j] && all[k] == tree[k];
      } else {
        assert Placed(lex, known, roots, rest, k - |tree|);
        if HasParent(lex, known, rest, k - |tree|) {
          var j :| 0 <= j < k - |tree| && Linked(lex, known, rest[j], rest[k - |tree|]);
          assert all[j + |tree|] == rest[j] && all[k] == rest[k - |tree|];
        }
      }
    }
  }

  lemma RootsStandAlone(lex: Lexicon, known: Elements, roots: seq<string>, i: nat, root: Entry)
    requires i < |roots| && IsRootAt(lex, known, roots, root, i)
    ensures |root.place.path| == 1 && root.place.path[0].1 == i
  {
  }

  // ---------------------------------------------------------------- nothing lost

  ghost predicate Visited(entries: seq<Entry>, id: string) {
    exists k :: 0 <= k < |entries| && entries[k].id == id
  }

  /** The kept children of `id` listed from position `i` on have been visited. */
  ghost predicate ChildrenVisited(lex: Lexicon, known: Elements, entries: seq<Entry>, id: string, i: nat)
    requires id in known
  {
    forall j | i <= j < |known[id].childIds| && Kept(lex, known, known[id].childIds[j]) ::
      Visited(entries, known[id].childIds[j])
  }

  ghost predicate Closed(lex: Lexicon, known: Elements, entries: seq<Entry>) {
    forall k | 0 <= k < |entries| :: entries[k].id in known && ChildrenVisited(lex, known, entries, entries[k].id, 0)
  }

  lemma ClosedInTurn(lex: Lexicon, known: Elements, first: seq<Entry>, rest: seq<Entry>)
    requires Closed(lex, known, first) && Closed(lex, known, rest)
    ensures Closed(lex, known, first + rest)
    ensures forall id | Visited(first, id) || Visited(rest, id) :: Visited(first + rest, id)
  {
    hide Kept;
    var all := first + rest;
    forall id | Visited(first, id) || Visited(rest, id) ensures Visited(all, id) {
      if Visited(first, id) {
        var k :| 0 <= k < |first| && first[k].id == id;
        assert all[k].id == id;
      } else {
        var k :| 0 <= k < |rest| && rest[k].id == id;
        assert all[|first| + k].id == id;
      }
    }
    hide Visited;
    forall k | 0 <= k < |all| ensures all[k].id in known && ChildrenVisited(lex, known, all, all[k].id, 0) {
      if k < |first| {
        assert ChildrenVisited(lex, known, first, first[k].id, 0);
      } else {
        assert ChildrenVisited(lex, known, rest, rest[k - |first|].id, 0);
      }
    }
  }

  lemma {:induction false} VisitIsClosed(lex: Lexicon, known: Elements, at: Entry)
    requires Acyclic(known) && at.id in known
    ensures Closed(lex, known, Visit(lex, known, at)) && Visited(Visit(lex, known, at), at.id)
    decreases Heights(known)[at.id], |known[at.id].childIds| + 1
  {
    hide Acyclic, Kept, VisitChildren;
    ChildrenAreClosed(lex, known, at, 0);
    var below, all := VisitChildren(lex, known, at, 0), Visit(lex, known, at);
    assert all == [at] + below && all[0] == at;
    forall id | Visited(below, id) ensures Visited(all, id) {
      var k :| 0 <= k < |below| && below[k].id == id;
      assert all[k + 1].id == id;
    }
    forall k | 0 <= k < |all| ensures all[k].id in known && ChildrenVisited(lex, known, all, all[k].id, 0) {
      if k > 0 { assert ChildrenVisited(lex, known, below, below[k - 1].id, 0); }
    }
  }

  lemma {:induction false} ChildrenAreClosed(lex: Lexicon, known: Elements, at: Entry, i: nat)
    requires Acyclic(known) && at.id in known && i <= |known[at.id].childIds|
    ensures var entries := VisitChildren(lex, known, at, i);
            Closed(lex, known, entries) && ChildrenVisited(lex, known, entries, at.id, i)
    decreases Heights(known)[at.id], |known[at.id].childIds| - i
  {
    hide Acyclic, Visit, Closed, Visited;
    var ids := known[at.id].childIds;
    if i == |ids| {
      NothingIsClosed(lex, known);
    } else {
      ChildrenAreClosed(lex, known, at, i + 1);
      OneMoreChild(lex, known, at, i);
      var rest := VisitChildren(lex, known, at, i + 1);
      if Kept(lex, known, ids[i]) {
        var child := Entry(ids[i], ChildPlace(lex, known, at, i));
        VisitIsClosed(lex, known, child);
        ClosedInTurn(lex, known, Visit(lex, known, child), rest);
      } else {
        assert [] + rest == rest;
      }
    }
  }

  lemma NothingIsClosed(lex: Lexicon, known: Elements)
    ensures Closed(lex, known, [])
  {
  }

  lemma {:induction false} RootsAreClosed(lex: Lexicon, known: Elements, roots: seq<string>, i: nat)
    requires Acyclic(known) && i <= |roots| && forall id | id in roots :: id in known
    ensures var entries := VisitRoots(lex, known, roots, i);
            && Closed(lex, known, entries)
            && forall j | i <= j < |roots| && Kept(lex, known, roots[j]) :: Visited(entries, roots[j])
    decreases |roots| - i
  {
    hide Acyclic, Visit, Closed, Visited;
    if i == |roots| {
      NothingIsClosed(lex, known);
    } else {
      RootsAreClosed(lex, known, roots, i + 1);
      OneMoreRoot(lex, known, roots, i);
      assert roots[i] in roots;
      var rest := VisitRoots(lex, known, roots, i + 1);
      if Kept(lex, known, roots[i]) {
        var root := Entry(roots[i], Place([(lex.role(known[roots[i]].role), i)], [], None, None));
        VisitIsClosed(lex, known, root);
        ClosedInTurn(lex, known, Visit(lex, known, root), rest);
      } else {
        assert [] + rest == rest;
      }
    }
  }

  /** Every root that is not noise is in the snapshot, and with an element every child
      of its that was reported and is not noise: only noise, and what is below noise or
      claims a parent that does not list it, is dropped. */
  lemma {:induction false} OnlyNoiseIsDropped(lex: Lexicon, elements: seq<Raw>)
    requires Traversable(elements)
    ensures var known, entries := ById(elements), Entries(lex, elements);
            && Closed(lex, known, entries)
            && (forall j | 0 <= j < |elements| && IsRoot(known, elements[j]) && !lex.isNoise(elements[j].role) ::
                  Visited(entries, elements[j].elementId))
  {
    hide Acyclic, VisitRoots, Closed, Visited;
    var known := ById(elements);
    ByIdKnowsAll(elements);
    ByIdIsFaithful(elements);
    var roots := Roots(elements, known);
    RootsAreClosed(lex, known, roots, 0);
    forall j | 0 <= j < |elements| && IsRoot(known, elements[j]) && !lex.isNoise(elements[j].role)
      ensures Visited(Entries(lex, elements), elements[j].elementId)
    {
      RootsAreListed(elements, known, j);
      var i :| 0 <= i < |roots| && roots[i] == elements[j].elementId;
      assert Kept(lex, known, roots[i]);
    }
  }

  lemma {:induction false} RootsAreListed(elements: seq<Raw>, known: Elements, j: nat)
    requires forall element | element in elements :: element.elementId in known
    requires j < |elements| && IsRoot(known, elements[j])
    ensures elements[j].elementId in Roots(elements, known)
  {
    if j > 0 { RootsAreListed(elements[1..], known, j - 1); }
  }

  // ---------------------------------------------------------------- no element twice

  ghost predicate Separate(known: Elements, roots: seq<string>) {
    && (forall i, j | 0 <= i < j < |roots| :: roots[i] != roots[j])
    && forall id | id in roots :: id in known && IsRoot(known, known[id])
  }

  lemma LinkedElements(lex: Lexicon, known: Elements, parent: Entry, child: Entry)
    requires Consistent(known) && Linked(lex, known, parent, child)
    ensures child.id in known && known[child.id].parentId == Some(parent.id) && parent.id in known
    ensures !IsRoot(known, known[child.id])
  {
  }

  lemma LinkedPlaces(lex: Lexicon, known: Elements, parent: Entry, child: Entry, other: Entry)
    requires Consistent(known) && Linked(lex, known, parent, child) && Linked(lex, known, parent, other)
    requires child.id == other.id
    ensures child == other
  {
    hide ChildPlace;
    var i :| 0 <= i < |known[parent.id].childIds| && IsChildAt(lex, known, parent, child, i);
    var j :| 0 <= j < |known[parent.id].childIds| && IsChildAt(lex, known, parent, other, j);
    assert i == j;
  }

  /** An element is visited from the one parent that lists it, so it is visited once. */
  lemma {:induction false} SameElementSameEntry(lex: Lexicon, known: Elements, roots: seq<string>, entries: seq<Entry>,
                                                a: nat, b: nat)
    requires Consistent(known) && Separate(known, roots) && AllPlaced(lex, known, roots, entries)
    requires a < |entries| && b < |entries| && entries[a].id == entries[b].id
    ensures entries[a] == entries[b]
    decreases a + b
  {
    hide Linked, Consistent, IsRoot;
    assert Placed(lex, known, roots, entries, a) && Placed(lex, known, roots, entries, b);
    if RootAt(lex, known, roots, entries[a]) {
      var i :| 0 <= i < |roots| && IsRootAt(lex, known, roots, entries[a], i);
      assert roots[i] in roots;
      if HasParent(lex, known, entries, b) {
        var p :| 0 <= p < b && Linked(lex, known, entries[p], entries[b]);
        LinkedElements(lex, known, entries[p], entries[b]);
      }
    } else {
      var p :| 0 <= p < a && Linked(lex, known, entries[p], entries[a]);
      LinkedElements(lex, known, entries[p], entries[a]);
      assert forall i | 0 <= i < |roots| :: roots[i] in roots;
      var q :| 0 <= q < b && Linked(lex, known, entries[q], entries[b]);
      LinkedElements(lex, known, entries[q], entries[b]);
      SameElementSameEntry(lex, known, roots, entries, p, q);
      LinkedPlaces(lex, known, entries[p], entries[a], entries[b]);
    }
  }

  lemma {:induction false} ByIdIsFaithful(elements: seq<Raw>)
    requires forall i, j | 0 <= i < j < |elements| :: elements[i].elementId != elements[j].elementId
    ensures forall i | 0 <= i < |elements| ::
              elements[i].elementId in ById(elements) && ById(elements)[elements[i].elementId] == elements[i]
  {
    if elements != [] {
      var front := elements[..|elements| - 1];
      ByIdIsFaithful(front);
      assert forall i | 0 <= i < |front| :: front[i] == elements[i];
    }
  }

  lemma {:induction false} RootsAreSeparate(elements: seq<Raw>, known: Elements)
    requires forall i, j | 0 <= i < j < |elements| :: elements[i].elementId != elements[j].elementId
    requires forall i | 0 <= i < |elements| ::
               elements[i].elementId in known && known[elements[i].elementId] == elements[i]
    ensures Separate(known, Roots(elements, known))
    ensures forall id | id in Roots(elements, known) :: exists i :: 0 <= i < |elements| && elements[i].elementId == id
  {
    if elements != [] {
      var rest := elements[1..];
      RootsAreSeparate(rest, known);
      assert forall i | 0 <= i < |rest| :: rest[i] == elements[i + 1];
      assert elements[0] in elements;
      var found, more := Roots(elements, known), Roots(rest, known);
      assert forall id | id in more :: id != elements[0].elementId;
      assert forall k | 0 <= k < |more| :: more[k] in more;
      assert IsRoot(known, elements[0]) ==> forall k | 1 <= k < |found| :: found[k] == more[k - 1];
    }
  }

  // ---------------------------------------------------------------- what the snapshot is built from

  /** All that the laws of the built nodes rest on. */
  ghost predicate Laid(lex: Lexicon, known: Elements, roots: seq<string>, entries: seq<Entry>) {
    && Consistent(known) && Separate(known, roots) && Reported(known, entries)
    && DistinctPaths(entries) && AllPlaced(lex, known, roots, entries)
    && forall k | 0 <= k < |entries| :: Plain(entries[k].place.path)
  }

  ghost predicate PlainRoles(lex: Lexicon, elements: seq<Raw>) {
    forall element | element in elements :: '/' !in lex.role(element.role)
  }

  ghost predicate PlainElements(lex: Lexicon, known: Elements) {
    forall id | id in known :: '/' !in lex.role(known[id].role)
  }

  lemma {:induction false} PathsArePlain(lex: Lexicon, known: Elements, roots: seq<string>, entries: seq<Entry>, k: nat)
    requires PlainElements(lex, known) && AllPlaced(lex, known, roots, entries) && k < |entries|
    ensures Plain(entries[k].place.path)
  {
    assert Placed(lex, known, roots, entries, k);
    if RootAt(lex, known, roots, entries[k]) {
      var i :| 0 <= i < |roots| && IsRootAt(lex, known, roots, entries[k], i);
    } else {
      var j :| 0 <= j < k && Linked(lex, known, entries[j], entries[k]);
      PathsArePlain(lex, known, roots, entries, j);
      var i :| 0 <= i < |known[entries[j].id].childIds| && IsChildAt(lex, known, entries[j], entries[k], i);
    }
  }

  lemma ReportsArePlain(lex: Lexicon, elements: seq<Raw>)
    requires PlainRoles(lex, elements)
    ensures PlainElements(lex, ById(elements))
  {
    ByIdKnowsAll(elements);
  }

  lemma {:induction false} EntriesAreLaid(lex: Lexicon, elements: seq<Raw>)
    requires WellReported(elements) && PlainRoles(lex, elements)
    ensures var known := ById(elements);
            (forall element | element in elements :: element.elementId in known)
            && Laid(lex, known, Roots(elements, known), Entries(lex, elements))
  {
    hide PlainRoles, PlainElements, VisitRoots, Acyclic, Consistent, Separate, DistinctPaths, AllPlaced, Plain, Roots;
    var known := ById(elements);
    ByIdKnowsAll(elements);
    ByIdIsFaithful(elements);
    var roots := Roots(elements, known);
    RootsAreSeparate(elements, known);
    ReportsArePlain(lex, elements);
    hide ById;
    RootsLaw(lex, known, roots, 0);
    var entries := Entries(lex, elements);
    forall k | 0 <= k < |entries| ensures Plain(entries[k].place.path) {
      PathsArePlain(lex, known, roots, entries, k);
    }
  }

  lemma {:induction false} EachElementOnce(lex: Lexicon, known: Elements, roots: seq<string>, entries: seq<Entry>)
    requires Laid(lex, known, roots, entries)
    ensures forall a, b | 0 <= a < b < |entries| :: entries[a].id != entries[b].id
    ensures forall a, b | 0 <= a < b < |entries| :: IdAt(known, entries[a]) != IdAt(known, entries[b])
  {
    hide AllPlaced;
    forall a, b | 0 <= a < b < |entries|
      ensures entries[a].id != entries[b].id && IdAt(known, entries[a]) != IdAt(known, entries[b])
    {
      if entries[a].id == entries[b].id {
        SameElementSameEntry(lex, known, roots, entries, a, b);
      }
      if IdAt(known, entries[a]) == IdAt(known, entries[b]) {
        IdsGiveBackPaths(known[entries[a].id].frame, entries[a].place.path, known[entries[b].id].frame,
               entries[b].place.path);
      }
    }
  }

  // ---------------------------------------------------------------- the id dictionary

  lemma {:induction false} RecordedLooksUp(nodeIds: map<string, string>, known: Elements, entries: seq<Entry>)
    requires Reported(known, entries)
    requires forall a, b | 0 <= a < b < |entries| :: entries[a].id != entries[b].id
    ensures var ids := Recorded(nodeIds, known, entries);
            && (forall k | 0 <= k < |entries| :: entries[k].id in ids && ids[entries[k].id] == IdAt(known, entries[k]))
            && (forall id | id in ids :: id in nodeIds || exists k :: 0 <= k < |entries| && entries[k].id == id)
            && (forall id | id in nodeIds && (forall k | 0 <= k < |entries| :: entries[k].id != id) ::
                  id in ids && ids[id] == nodeIds[id])
    decreases |entries|
  {
    hide IdAt;
    if entries != [] {
      var rest, next := entries[1..], nodeIds[entries[0].id := IdAt(known, entries[0])];
      assert forall k | 1 <= k < |entries| :: entries[k] == rest[k - 1];
      RecordedLooksUp(next, known, rest);
    }
  }

  /** The ids a node lists are those of its element's children that were visited. */
  lemma {:induction false} ResolvedChildren(childIds: seq<string>, nodeIds: map<string, string>)
    requires forall a, b | a in nodeIds && b in nodeIds && nodeIds[a] == nodeIds[b] :: a == b
    ensures forall id | id in nodeIds :: id in childIds <==> nodeIds[id] in ResolveChildren(childIds, nodeIds)
    ensures forall x | x in ResolveChildren(childIds, nodeIds) :: x in nodeIds.Values
  {
    if childIds != [] {
      ResolvedChildren(childIds[1..], nodeIds);
      assert childIds == [childIds[0]] + childIds[1..];
    }
  }

  ghost predicate NoRepeats(ids: seq<string>) {
    forall a, b | 0 <= a < b < |ids| :: ids[a] != ids[b]
  }

  lemma {:induction false} ResolvedOnce(childIds: seq<string>, nodeIds: map<string, string>)
    requires NoRepeats(childIds)
    requires forall a, b | a in nodeIds && b in nodeIds && nodeIds[a] == nodeIds[b] :: a == b
    ensures NoRepeats(ResolveChildren(childIds, nodeIds))
  {
    if childIds != [] {
      var rest := childIds[1..];
      assert forall k | 0 <= k < |rest| :: rest[k] == childIds[k + 1];
      ResolvedOnce(rest, nodeIds);
      ResolvedChildren(rest, nodeIds);
      var more := ResolveChildren(rest, nodeIds);
      if childIds[0] in nodeIds {
        assert childIds[0] !in rest;
        NoRepeatInFront(nodeIds[childIds[0]], more);
      } else {
        assert [] + more == more;
      }
    }
  }

  lemma NoRepeatInFront(x: string, more: seq<string>)
    requires x !in more && NoRepeats(more)
    ensures NoRepeats([x] + more)
  {
  }

  // ---------------------------------------------------------------- the built nodes

  /** What `build_snapshot` writes down is a tree: every id its own, parents first,
      `parent_id` and `child_ids` exact inverses. */
  lemma {:induction false} BuiltNodesAreATree(lex: Lexicon, elements: seq<Raw>)
    requires WellReported(elements) && PlainRoles(lex, elements)
    ensures IsTree(Nodes(lex, elements))
  {
    hide WellReported, PlainRoles, Nodes, Entries, ById, Roots, NodeAt, IdAt, ResolveChildren, Recorded;
    EntriesAreLaid(lex, elements);
    var known := ById(elements);
    var roots, entries := Roots(elements, known), Entries(lex, elements);
    var nodes := Nodes(lex, elements);
    var nodeIds := Recorded(map[], known, entries);
    assert Built(lex, known, entries, nodeIds, nodes);
    hide Laid, Built;
    assert LooksUp(known, entries, nodeIds) by {
      EachElementOnce(lex, known, roots, entries);
      ReportedWhenLaid(lex, known, roots, entries);
      RecordedLooksUp(map[], known, entries);
    }
    hide LooksUp;
    ParentsStandFirst(lex, known, roots, entries, nodeIds, nodes);
    LinksAreInverse(lex, known, roots, entries, nodeIds, nodes);
    IdsStayApart(lex, known, entries, nodeIds, nodes);
  }

  lemma ReportedWhenLaid(lex: Lexicon, known: Elements, roots: seq<string>, entries: seq<Entry>)
    requires Laid(lex, known, roots, entries)
    ensures Reported(known, entries)
  {
  }

  lemma IdsStayApart(lex: Lexicon, known: Elements, entries: seq<Entry>, nodeIds: map<string, string>,
                     nodes: seq<UiNode>)
    requires Built(lex, known, entries, nodeIds, nodes) && LooksUp(known, entries, nodeIds)
    ensures DistinctIds(nodes)
  {
    hide IdAt, ResolveChildren;
  }

  ghost predicate Built(lex: Lexicon, known: Elements, entries: seq<Entry>, nodeIds: map<string, string>,
                        nodes: seq<UiNode>) {
    && Reported(known, entries) && |nodes| == |entries|
    && forall k | 0 <= k < |nodes| ::
         nodes[k] == NodeAt(lex, known, entries[k]).(childIds := ResolveChildren(known[entries[k].id].childIds,
                nodeIds))
  }

  ghost predicate LooksUp(known: Elements, entries: seq<Entry>, nodeIds: map<string, string>) {
    && Reported(known, entries)
    && (forall k | 0 <= k < |entries| :: entries[k].id in nodeIds && nodeIds[entries[k].id] == IdAt(known, entries[k]))
    && (forall id | id in nodeIds :: exists k :: 0 <= k < |entries| && entries[k].id == id)
    && (forall a, b | 0 <= a < b < |entries| :: entries[a].id != entries[b].id)
    && (forall a, b | 0 <= a < b < |entries| :: IdAt(known, entries[a]) != IdAt(known, entries[b]))
  }

  lemma {:induction false} ParentsStandFirst(lex: Lexicon, known: Elements, roots: seq<string>, entries: seq<Entry>,
                                             nodeIds: map<string, string>, nodes: seq<UiNode>)
    requires Laid(lex, known, roots, entries) && Built(lex, known, entries, nodeIds, nodes)
    ensures ParentsFirst(nodes) && forall k | 0 <= k < |nodes| :: nodes[k].nodeId != ""
  {
    hide IdAt, ResolveChildren;
    forall k | 0 <= k < |nodes| && nodes[k].parentId.Some?
      ensures exists j :: 0 <= j < k && nodes[j].nodeId == nodes[k].parentId.value
    {
      assert Placed(lex, known, roots, entries, k);
      var j :| 0 <= j < k && Linked(lex, known, entries[j], entries[k]);
      assert nodes[j].nodeId == IdAt(known, entries[j]);
    }
    forall k | 0 <= k < |nodes| ensures nodes[k].nodeId != "" {
      assert nodes[k].nodeId == IdAt(known, entries[k]);
      IdsAreNotEmpty(known, entries[k]);
    }
  }

  lemma IdsAreNotEmpty(known: Elements, entry: Entry)
    requires entry.id in known
    ensures IdAt(known, entry) != ""
  {
  }

  lemma {:induction false} LinksAreInverse(lex: Lexicon, known: Elements, roots: seq<string>, entries: seq<Entry>,
                                           nodeIds: map<string, string>, nodes: seq<UiNode>)
    requires Laid(lex, known, roots, entries) && Built(lex, known, entries, nodeIds, nodes)
    requires LooksUp(known, entries, nodeIds)
    ensures LinksInvert(nodes)
  {
    hide IdAt, Laid, ResolveChildren, Built, LooksUp;
    forall i | 0 <= i < |nodes|
      ensures forall j | 0 <= j < |nodes| ::
                nodes[j].nodeId in nodes[i].childIds <==> nodes[j].parentId == Some(nodes[i].nodeId)
      ensures forall id | id in nodes[i].childIds :: exists j :: 0 <= j < |nodes| && nodes[j].nodeId == id
      ensures forall a, b | 0 <= a < b < |nodes[i].childIds| :: nodes[i].childIds[a] != nodes[i].childIds[b]
    {
      ListsOnlyNodes(lex, known, roots, entries, nodeIds, nodes, i);
      forall j | 0 <= j < |nodes|
        ensures nodes[j].nodeId in nodes[i].childIds <==> nodes[j].parentId == Some(nodes[i].nodeId)
      {
        ListsItsOwn(lex, known, roots, entries, nodeIds, nodes, i, j);
      }
    }
  }

  lemma NodeIdsAreInjective(known: Elements, entries: seq<Entry>, nodeIds: map<string, string>)
    requires LooksUp(known, entries, nodeIds)
    ensures forall a, b | a in nodeIds && b in nodeIds && nodeIds[a] == nodeIds[b] :: a == b
  {
    hide IdAt;
  }

  lemma {:induction false} ListsOnlyNodes(lex: Lexicon, known: Elements, roots: seq<string>, entries: seq<Entry>,
                                          nodeIds: map<string, string>, nodes: seq<UiNode>, i: nat)
    requires Laid(lex, known, roots, entries) && Built(lex, known, entries, nodeIds, nodes)
    requires LooksUp(known, entries, nodeIds) && i < |nodes|
    ensures forall id | id in nodes[i].childIds :: exists j :: 0 <= j < |nodes| && nodes[j].nodeId == id
    ensures forall a, b | 0 <= a < b < |nodes[i].childIds| :: nodes[i].childIds[a] != nodes[i].childIds[b]
  {
    hide IdAt, AllPlaced, ResolveChildren, DistinctPaths;
    var childIds := known[entries[i].id].childIds;
    NodeIdsAreInjective(known, entries, nodeIds);
    ResolvedChildren(childIds, nodeIds);
    ResolvedOnce(childIds, nodeIds);
    assert nodes[i].childIds == ResolveChildren(childIds, nodeIds);
    forall id | id in nodes[i].childIds ensures exists j :: 0 <= j < |nodes| && nodes[j].nodeId == id {
      var k :| k in nodeIds && nodeIds[k] == id;
      var j :| 0 <= j < |entries| && entries[j].id == k;
      assert nodes[j].nodeId == IdAt(known, entries[j]);
    }
  }

  lemma {:induction false} ListsItsOwn(lex: Lexicon, known: Elements, roots: seq<string>, entries: seq<Entry>,
                                       nodeIds: map<string, string>, nodes: seq<UiNode>, i: nat, j: nat)
    requires Laid(lex, known, roots, entries) && Built(lex, known, entries, nodeIds, nodes)
    requires LooksUp(known, entries, nodeIds) && i < |nodes| && j < |nodes|
    ensures nodes[j].nodeId in nodes[i].childIds <==> nodes[j].parentId == Some(nodes[i].nodeId)
  {
    hide IdAt, AllPlaced, ResolveChildren, DistinctPaths;
    NodeIdsAreInjective(known, entries, nodeIds);
    ResolvedChildren(known[entries[i].id].childIds, nodeIds);
    ListedIsLinked(lex, known, roots, entries, i, j);
    assert nodes[j].nodeId == IdAt(known, entries[j]) && nodes[i].nodeId == IdAt(known, entries[i]);
  }

  /** An element's listing of a visited child and the visit from it are one thing. */
  lemma {:induction false} ListedIsLinked(lex: Lexicon, known: Elements, roots: seq<string>, entries: seq<Entry>,
                                          i: nat, j: nat)
    requires Laid(lex, known, roots, entries) && i < |entries| && j < |entries|
    requires forall a, b | 0 <= a < b < |entries| :: entries[a].id != entries[b].id
    requires forall a, b | 0 <= a < b < |entries| :: IdAt(known, entries[a]) != IdAt(known, entries[b])
    ensures entries[j].id in known[entries[i].id].childIds <==> entries[j].place.parent == Some(IdAt(known, entries[i]))
  {
    hide IdAt, DistinctPaths;
    assert Placed(lex, known, roots, entries, j);
    if RootAt(lex, known, roots, entries[j]) {
      assert forall k | 0 <= k < |roots| :: roots[k] in roots;
    } else {
      var p :| 0 <= p < j && Linked(lex, known, entries[p], entries[j]);
      LinkedElements(lex, known, entries[p], entries[j]);
      assert entries[j].place.parent == Some(IdAt(known, entries[p]));
    }
  }

  // ---------------------------------------------------------------- ids and descent

  /** The ids show the tree: within a frame, an id that continues another's after a
      slash is the id of something below it, and the other way round. */
  lemma {:induction false} IdsShowDescent(lex: Lexicon, elements: seq<Raw>, i: nat, j: nat)
    requires WellReported(elements) && PlainRoles(lex, elements)
    requires i < |Nodes(lex, elements)| && j < |Nodes(lex, elements)|
    requires Nodes(lex, elements)[i].scope.frame == Nodes(lex, elements)[j].scope.frame
    ensures IsTree(Nodes(lex, elements))
    ensures var nodes := Nodes(lex, elements);
            nodes[i].nodeId + "/" <= nodes[j].nodeId <==> i in Ancestors(nodes, j)
  {
    hide WellReported, PlainRoles, Nodes, Entries, ById, Roots, ResolveChildren, Recorded, IsTree, RegionAt;
    EntriesAreLaid(lex, elements);
    BuiltNodesAreATree(lex, elements);
    var known := ById(elements);
    var roots, entries := Roots(elements, known), Entries(lex, elements);
    var nodes, nodeIds := Nodes(lex, elements), Recorded(map[], known, entries);
    assert Built(lex, known, entries, nodeIds, nodes);
    PathsShowDescent(lex, known, roots, entries, nodeIds, nodes, i, j);
    assert nodes[i].scope.frame == known[entries[i].id].frame && nodes[j].scope.frame == known[entries[j].id].frame;
    assert nodes[i].nodeId == IdAt(known, entries[i]) && nodes[j].nodeId == IdAt(known, entries[j]);
    hide Laid;
    PlainWhenLaid(lex, known, roots, entries, i);
    PlainWhenLaid(lex, known, roots, entries, j);
    IdPrefixIsPathPrefix(nodes[i].scope.frame, entries[i].place.path, entries[j].place.path);
  }

  lemma PlainWhenLaid(lex: Lexicon, known: Elements, roots: seq<string>, entries: seq<Entry>, k: nat)
    requires Laid(lex, known, roots, entries) && k < |entries|
    ensures Plain(entries[k].place.path)
  {
  }

  lemma {:induction false} PathsShowDescent(lex: Lexicon, known: Elements, roots: seq<string>, entries: seq<Entry>,
                                            nodeIds: map<string, string>, nodes: seq<UiNode>, i: nat, j: nat)
    requires Laid(lex, known, roots, entries) && Built(lex, known, entries, nodeIds, nodes) && IsTree(nodes)
    requires i < |nodes| && j < |nodes|
    ensures entries[i].place.path < entries[j].place.path <==> i in Ancestors(nodes, j)
    decreases j
  {
    hide IdAt, ResolveChildren, RegionAt, IsTree, Laid, DistinctPaths, Linked, Plain, Built;
    ParentsAreWritten(lex, known, entries, nodeIds, nodes);
    PlainWhenLaid(lex, known, roots, entries, i);
    PlacedWhenLaid(lex, known, roots, entries, j);
    if RootAt(lex, known, roots, entries[j]) {
      assert Parent(nodes, j).None?;
      PlainIsSomething(entries[i].place.path);
    } else {
      var p :| 0 <= p < j && Linked(lex, known, entries[p], entries[j]);
      LinkShows(lex, known, entries[p], entries[j]);
      TheParentFound(nodes, p, j);
      PathsShowDescent(lex, known, roots, entries, nodeIds, nodes, i, p);
      if entries[i].place.path == entries[p].place.path { SamePathSameIndex(entries, i, p); }
      OneSegmentFurther(entries[i].place.path, entries[p].place.path, entries[j].place.path);
    }
  }

  lemma PlainIsSomething(path: Path)
    requires Plain(path)
    ensures path != []
  {
  }

  lemma OneSegmentFurther(path: Path, above: Path, below: Path)
    requires |below| == |above| + 1 && above < below
    ensures path < below <==> path == above || path < above
  {
    assert below[..|below| - 1] == above;
  }

  lemma ParentsAreWritten(lex: Lexicon, known: Elements, entries: seq<Entry>, nodeIds: map<string, string>,
                          nodes: seq<UiNode>)
    requires Built(lex, known, entries, nodeIds, nodes)
    ensures Reported(known, entries) && |nodes| == |entries|
    ensures forall k | 0 <= k < |nodes| ::
              nodes[k].parentId == entries[k].place.parent && nodes[k].nodeId == IdAt(known, entries[k])
  {
    hide IdAt, ResolveChildren, RegionAt;
  }

  lemma PlacedWhenLaid(lex: Lexicon, known: Elements, roots: seq<string>, entries: seq<Entry>, k: nat)
    requires Laid(lex, known, roots, entries) && k < |entries|
    ensures Placed(lex, known, roots, entries, k) && DistinctPaths(entries)
  {
  }

  lemma SamePathSameIndex(entries: seq<Entry>, i: nat, j: nat)
    requires DistinctPaths(entries) && i < |entries| && j < |entries| && entries[i].place.path == entries[j].place.path
    ensures i == j
  {
  }

  lemma LinkShows(lex: Lexicon, known: Elements, parent: Entry, child: Entry)
    requires Linked(lex, known, parent, child)
    ensures parent.id in known && child.place.parent == Some(IdAt(known, parent))
    ensures |child.place.path| == |parent.place.path| + 1 && parent.place.path < child.place.path
  {
  }

  lemma TheParentFound(nodes: seq<UiNode>, p: nat, j: nat)
    requires IsTree(nodes) && p < j < |nodes| && nodes[j].parentId == Some(nodes[p].nodeId)
    ensures Parent(nodes, j) == Some(p)
  {
    ParentIsTheLister(nodes, p, j);
  }

  // ---------------------------------------------------------------- surface ids leave no trace

  ghost predicate Injective(f: string -> string) {
    forall a, b :: f(a) == f(b) ==> a == b
  }

  function Mapped(f: string -> string, ids: seq<string>): (out: seq<string>)
    ensures |out| == |ids| && forall k | 0 <= k < |ids| :: out[k] == f(ids[k])
  {
    if ids == [] then [] else [f(ids[0])] + Mapped(f, ids[1..])
  }

  /** The same element under other surface ids. */
  function Renamed(f: string -> string, element: Raw): Raw {
    element.(elementId := f(element.elementId), childIds := Mapped(f, element.childIds),
             parentId := if element.parentId.None? then None else Some(f(element.parentId.value)))
  }

  function AllRenamed(f: string -> string, elements: seq<Raw>): (out: seq<Raw>)
    ensures |out| == |elements| && forall k | 0 <= k < |elements| :: out[k] == Renamed(f, elements[k])
  {
    if elements == [] then [] else [Renamed(f, elements[0])] + AllRenamed(f, elements[1..])
  }

  function Moved(f: string -> string, entries: seq<Entry>): (out: seq<Entry>)
    ensures |out| == |entries| && forall k | 0 <= k < |entries| :: out[k] == Entry(f(entries[k].id), entries[k].place)
  {
    if entries == [] then [] else [Entry(f(entries[0].id), entries[0].place)] + Moved(f, entries[1..])
  }

  ghost predicate Matches(f: string -> string, known: Elements, other: Elements) {
    && Injective(f)
    && (forall id | id in known :: f(id) in other && other[f(id)] == Renamed(f, known[id]))
    && (forall id | id in other :: exists k :: k in known && id == f(k))
  }

  lemma {:induction false} RenamedElementsMatch(f: string -> string, elements: seq<Raw>)
    requires Injective(f)
    ensures Matches(f, ById(elements), ById(AllRenamed(f, elements)))
  {
    hide Injective;
    if elements != [] {
      var front := elements[..|elements| - 1];
      RenamedElementsMatch(f, front);
      var out := AllRenamed(f, elements);
      assert out[..|out| - 1] == AllRenamed(f, front);
      var last := elements[|elements| - 1];
      OneMoreMatches(f, ById(front), ById(AllRenamed(f, front)), last);
    }
  }

  lemma OneMoreMatches(f: string -> string, known: Elements, other: Elements, last: Raw)
    requires Matches(f, known, other)
    ensures Matches(f, known[last.elementId := last], other[f(last.elementId) := Renamed(f, last)])
  {
    hide Renamed;
    var more, grown := known[last.elementId := last], other[f(last.elementId) := Renamed(f, last)];
    forall id | id in grown ensures exists k :: k in more && id == f(k) {
      if id == f(last.elementId) {
        assert last.elementId in more;
      } else {
        var k :| k in known && id == f(k);
        assert k in more;
      }
    }
  }

  lemma {:induction false} RenamedAcyclic(f: string -> string, known: Elements, other: Elements)
    requires Matches(f, known, other) && Acyclic(known)
    ensures Acyclic(other)
  {
    hide Matches, Ranked;
    var rank: map<string, nat> :| Ranked(known, rank);
    RenamedRank(f, known, other, rank);
  }

  lemma RenamedElement(f: string -> string, element: Raw)
    ensures var out := Renamed(f, element);
            && out.elementId == f(element.elementId) && out.childIds == Mapped(f, element.childIds)
            && (element.parentId.Some? ==> out.parentId == Some(f(element.parentId.value)))
            && (element.parentId.None? ==> out.parentId == None)
  {
  }

  /** A renamed child was a child before. */
  lemma ListedBefore(f: string -> string, known: Elements, other: Elements, k: string,
                     child: string) returns (c: string)
    requires Matches(f, known, other) && k in known && child in other && child in other[f(k)].childIds
    ensures c in known && child == f(c) && c in known[k].childIds
  {
    var i :| 0 <= i < |other[f(k)].childIds| && other[f(k)].childIds[i] == child;
    c :| c in known && child == f(c);
    assert known[k].childIds[i] == c;
  }

  lemma RenamedRank(f: string -> string, known: Elements, other: Elements, rank: map<string, nat>)
    requires Matches(f, known, other) && Ranked(known, rank)
    ensures Acyclic(other)
  {
    hide Renamed;
    var moved := MovedRank(f, rank);
    assert moved.Keys == other.Keys;
    forall id, child | id in other && child in other[id].childIds && child in other ensures moved[child] < moved[id] {
      var k :| k in known && id == f(k);
      var c := ListedBefore(f, known, other, k, child);
    }
    assert Ranked(other, moved);
  }

  lemma MovedRank(f: string -> string, rank: map<string, nat>) returns (moved: map<string, nat>)
    requires Injective(f)
    ensures forall k | k in rank :: f(k) in moved && moved[f(k)] == rank[k]
    ensures forall id | id in moved :: exists k :: k in rank && id == f(k)
  {
    moved := map k | k in rank :: f(k) := rank[k];
  }

  lemma {:induction false} RenamedRoots(f: string -> string, known: Elements, other: Elements, elements: seq<Raw>)
    requires Matches(f, known, other)
    requires forall element | element in elements :: element.elementId in known
    requires forall element | element in AllRenamed(f, elements) :: element.elementId in other
    ensures Roots(AllRenamed(f, elements), other) == Mapped(f, Roots(elements, known))
  {
    if elements != [] {
      assert AllRenamed(f, elements)[1..] == AllRenamed(f, elements[1..]);
      RenamedRoots(f, known, other, elements[1..]);
      RenamedElement(f, elements[0]);
      var id := elements[0].parentId;
      if id.Some? { RenamedKnown(f, known, other, id.value); }
      MappedInTurn(f, if IsRoot(known, elements[0]) then [elements[0].elementId] else [], Roots(elements[1..], known));
    }
  }

  lemma RenamedKnown(f: string -> string, known: Elements, other: Elements, id: string)
    requires Matches(f, known, other)
    ensures f(id) in other <==> id in known
  {
    if f(id) in other {
      var k :| k in known && f(id) == f(k);
    }
  }

  lemma MappedInTurn(f: string -> string, first: seq<string>, rest: seq<string>)
    ensures Mapped(f, first + rest) == Mapped(f, first) + Mapped(f, rest)
  {
  }

  lemma MovedInTurn(f: string -> string, first: seq<Entry>, rest: seq<Entry>)
    ensures Moved(f, first + rest) == Moved(f, first) + Moved(f, rest)
  {
  }

  lemma {:induction false} RenamedCount(f: string -> string, lex: Lexicon, known: Elements, other: Elements,
                                        ids: seq<string>, i: nat, role: string)
    requires Matches(f, known, other) && i <= |ids|
    ensures Earlier(lex, other, Mapped(f, ids), i, role) == Earlier(lex, known, ids, i, role)
  {
    if i > 0 {
      RenamedCount(f, lex, known, other, ids, i - 1, role);
      RenamedKnown(f, known, other, ids[i - 1]);
    }
  }

  /** One child's place depends on no surface id. */
  lemma {:induction false} RenamedPlace(f: string -> string, lex: Lexicon, known: Elements, other: Elements,
                                        at: Entry, i: nat)
    requires Matches(f, known, other) && at.id in known && i < |known[at.id].childIds|
    ensures var moved := Entry(f(at.id), at.place);
            && moved.id in other && other[moved.id].childIds == Mapped(f, known[at.id].childIds)
            && (Kept(lex, other, other[moved.id].childIds[i]) <==> Kept(lex, known, known[at.id].childIds[i]))
            && (known[at.id].childIds[i] in known ==> ChildPlace(lex, other, moved, i) == ChildPlace(lex, known, at, i))
  {
    var child := known[at.id].childIds[i];
    RenamedKnown(f, known, other, child);
    if child in known {
      RenamedCount(f, lex, known, other, known[at.id].childIds, i, lex.role(known[child].role));
    }
  }

  lemma {:induction false} RenamedVisit(f: string -> string, lex: Lexicon, known: Elements, other: Elements, at: Entry)
    requires Matches(f, known, other) && Acyclic(known) && Acyclic(other) && at.id in known
    ensures f(at.id) in other
    ensures Visit(lex, other, Entry(f(at.id), at.place)) == Moved(f, Visit(lex, known, at))
    decreases Heights(known)[at.id], |known[at.id].childIds| + 1
  {
    hide Acyclic, VisitChildren;
    RenamedChildren(f, lex, known, other, at, 0);
    MovedInTurn(f, [at], VisitChildren(lex, known, at, 0));
  }

  lemma {:induction false} RenamedChildren(f: string -> string, lex: Lexicon, known: Elements, other: Elements,
                                           at: Entry, i: nat)
    requires Matches(f, known, other) && Acyclic(known) && Acyclic(other) && at.id in known
    requires i <= |known[at.id].childIds|
    ensures f(at.id) in other && |other[f(at.id)].childIds| == |known[at.id].childIds|
    ensures VisitChildren(lex, other, Entry(f(at.id), at.place), i) == Moved(f, VisitChildren(lex, known, at, i))
    decreases Heights(known)[at.id], |known[at.id].childIds| - i
  {
    hide Acyclic, Visit, Matches, ChildPlace, Kept;
    var moved, ids := Entry(f(at.id), at.place), known[at.id].childIds;
    RenamedOne(f, known, other, at.id);
    if i < |ids| {
      RenamedChildren(f, lex, known, other, at, i + 1);
      OneMoreChild(lex, known, at, i);
      OneMoreChild(lex, other, moved, i);
      RenamedPlace(f, lex, known, other, at, i);
      hide VisitChildren;
      if Kept(lex, known, ids[i]) {
        var child := Entry(ids[i], ChildPlace(lex, known, at, i));
        RenamedVisit(f, lex, known, other, child);
        MovedInTurn(f, Visit(lex, known, child), VisitChildren(lex, known, at, i + 1));
      } else {
        MovedInTurn(f, [], VisitChildren(lex, known, at, i + 1));
      }
    }
  }

  lemma RenamedOne(f: string -> string, known: Elements, other: Elements, id: string)
    requires Matches(f, known, other) && id in known
    ensures f(id) in other && other[f(id)].childIds == Mapped(f, known[id].childIds)
    ensures other[f(id)] == known[id].(elementId := other[f(id)].elementId, childIds := other[f(id)].childIds,
                                       parentId := other[f(id)].parentId)
  {
  }

  lemma {:induction false} RenamedVisits(f: string -> string, lex: Lexicon, known: Elements, other: Elements,
                                         roots: seq<string>, i: nat)
    requires Matches(f, known, other) && Acyclic(known) && Acyclic(other)
    requires i <= |roots| && forall id | id in roots :: id in known
    ensures forall id | id in Mapped(f, roots) :: id in other
    ensures VisitRoots(lex, other, Mapped(f, roots), i) == Moved(f, VisitRoots(lex, known, roots, i))
    decreases |roots| - i
  {
    hide Acyclic, Visit, Matches;
    RenamedAllKnown(f, known, other, roots);
    if i == |roots| {
      NoMoreRoots(lex, known, roots);
      NoMoreRoots(lex, other, Mapped(f, roots));
    } else {
      RenamedVisits(f, lex, known, other, roots, i + 1);
      assert roots[i] in roots;
      RenamedOne(f, known, other, roots[i]);
      OneMoreRoot(lex, known, roots, i);
      OneMoreRoot(lex, other, Mapped(f, roots), i);
      hide VisitRoots;
      var at := Entry(roots[i], Place([(lex.role(known[roots[i]].role), i)], [], None, None));
      if !lex.isNoise(known[roots[i]].role) {
        RenamedVisit(f, lex, known, other, at);
        MovedInTurn(f, Visit(lex, known, at), VisitRoots(lex, known, roots, i + 1));
      } else {
        MovedInTurn(f, [], VisitRoots(lex, known, roots, i + 1));
      }
    }
  }

  lemma RenamedAllKnown(f: string -> string, known: Elements, other: Elements, roots: seq<string>)
    requires Matches(f, known, other) && forall id | id in roots :: id in known
    ensures forall id | id in Mapped(f, roots) :: id in other
  {
    hide Renamed;
    assert forall k | 0 <= k < |roots| :: roots[k] in roots;
  }

  /** Two dictionaries of node ids that differ only by the renaming. */
  ghost predicate SameIds(f: string -> string, ids: map<string, string>, others: map<string, string>) {
    forall id :: (f(id) in others <==> id in ids) && (id in ids ==> others[f(id)] == ids[id])
  }

  lemma {:induction false} RenamedRecord(f: string -> string, known: Elements, other: Elements, entries: seq<Entry>,
                                         ids: map<string, string>, others: map<string, string>)
    requires Matches(f, known, other) && Reported(known, entries) && SameIds(f, ids, others)
    ensures Reported(other, Moved(f, entries))
    ensures SameIds(f, Recorded(ids, known, entries), Recorded(others, other, Moved(f, entries)))
    decreases |entries|
  {
    hide IdAt, Matches, SameIds;
    if entries != [] {
      var at, moved := entries[0], Moved(f, entries);
      assert at in entries;
      SameIdAt(f, known, other, at);
      SameIdsGrow(f, ids, others, at.id, IdAt(known, at));
      assert moved[1..] == Moved(f, entries[1..]) && moved == [moved[0]] + moved[1..];
      RenamedRecord(f, known, other, entries[1..], ids[at.id := IdAt(known, at)], others[f(at.id) := IdAt(known, at)]);
    }
  }

  lemma SameIdsGrow(f: string -> string, ids: map<string, string>, others: map<string, string>, id: string,
                    value: string)
    requires Injective(f) && SameIds(f, ids, others)
    ensures SameIds(f, ids[id := value], others[f(id) := value])
  {
  }

  lemma SameIdAt(f: string -> string, known: Elements, other: Elements, at: Entry)
    requires Matches(f, known, other) && at.id in known
    ensures Injective(f) && f(at.id) in other && IdAt(other, Entry(f(at.id), at.place)) == IdAt(known, at)
  {
  }

  lemma {:induction false} RenamedResolve(f: string -> string, childIds: seq<string>, ids: map<string, string>,
                                          others: map<string, string>)
    requires SameIds(f, ids, others)
    ensures ResolveChildren(Mapped(f, childIds), others) == ResolveChildren(childIds, ids)
  {
    if childIds != [] {
      assert Mapped(f, childIds)[1..] == Mapped(f, childIds[1..]);
      RenamedResolve(f, childIds[1..], ids, others);
    }
  }

  /** Two reports of one screen that differ only in the surface's handles give the
      same nodes, ids and links included. */
  lemma {:induction false} SurfaceIdsLeaveNoTrace(lex: Lexicon, elements: seq<Raw>, f: string -> string)
    requires Traversable(elements) && Injective(f)
    ensures Traversable(AllRenamed(f, elements))
    ensures Nodes(lex, AllRenamed(f, elements)) == Nodes(lex, elements)
  {
    RenamedReports(elements, f);
    RenamedEntries(lex, elements, f);
    var known, other := ById(elements), ById(AllRenamed(f, elements));
    RenamedElementsMatch(f, elements);
    hide Entries, Traversable, Nodes, ById, Matches, SameIds, NodeAt, ResolveChildren, Recorded;
    var entries := Entries(lex, elements);
    var nodes, others := Nodes(lex, elements), Nodes(lex, AllRenamed(f, elements));
    assert Reported(known, entries);
    assert SameIds(f, map[], map[]) by { NoIds(f); }
    RenamedRecord(f, known, other, entries, map[], map[]);
    var ids, theirs := Recorded(map[], known, entries), Recorded(map[], other, Moved(f, entries));
    assert Built(lex, known, entries, ids, nodes);
    assert Built(lex, other, Moved(f, entries), theirs, others);
    hide Built, Moved;
    SameNodes(f, lex, known, other, entries, ids, theirs, nodes, others);
  }

  lemma NoIds(f: string -> string)
    ensures SameIds(f, map[], map[])
  {
  }

  lemma {:induction false} SameNodes(f: string -> string, lex: Lexicon, known: Elements, other: Elements,
                                     entries: seq<Entry>, ids: map<string, string>, theirs: map<string, string>,
                                     nodes: seq<UiNode>, others: seq<UiNode>)
    requires Matches(f, known, other) && SameIds(f, ids, theirs)
    requires Built(lex, known, entries, ids, nodes) && Built(lex, other, Moved(f, entries), theirs, others)
    ensures nodes == others
  {
    hide Matches, SameIds, ResolveChildren, NodeAt;
    forall k | 0 <= k < |nodes| ensures nodes[k] == others[k] {
      assert entries[k] in entries;
      SameNode(f, lex, known, other, entries[k]);
      RenamedResolve(f, known[entries[k].id].childIds, ids, theirs);
    }
  }

  lemma SameNode(f: string -> string, lex: Lexicon, known: Elements, other: Elements, at: Entry)
    requires Matches(f, known, other) && at.id in known
    ensures f(at.id) in other && other[f(at.id)].childIds == Mapped(f, known[at.id].childIds)
    ensures NodeAt(lex, other, Entry(f(at.id), at.place)) == NodeAt(lex, known, at)
  {
    RenamedOne(f, known, other, at.id);
    hide Matches;
  }

  lemma {:induction false} RenamedReports(elements: seq<Raw>, f: string -> string)
    requires Traversable(elements) && Injective(f)
    ensures Traversable(AllRenamed(f, elements))
  {
    hide Acyclic, ById;
    RenamedElementsMatch(f, elements);
    RenamedAcyclic(f, ById(elements), ById(AllRenamed(f, elements)));
    assert forall i | 0 <= i < |elements| :: AllRenamed(f, elements)[i].elementId == f(elements[i].elementId);
  }

  lemma {:induction false} RenamedEntries(lex: Lexicon, elements: seq<Raw>, f: string -> string)
    requires Traversable(elements) && Traversable(AllRenamed(f, elements)) && Injective(f)
    ensures Entries(lex, AllRenamed(f, elements)) == Moved(f, Entries(lex, elements))
  {
    hide ById, VisitRoots, Roots, Acyclic;
    var known, other := ById(elements), ById(AllRenamed(f, elements));
    RenamedElementsMatch(f, elements);
    ByIdKnowsAll(elements);
    ByIdKnowsAll(AllRenamed(f, elements));
    RenamedRoots(f, known, other, elements);
    RenamedVisits(f, lex, known, other, Roots(elements, known), 0);
  }
}
