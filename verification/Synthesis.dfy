/** `targeting/synthesize.py`: describing a node so that resolution finds it again, and
    when it does. */
module Synthesis {
  import opened Outcomes
  import opened Snapshots
  import opened Targets
  import opened Trees
  import opened Targeting
  import opened Resolving
  import Names
  import Build = SnapshotBuild
  import Laws = TargetingLaws

  datatype Synthesized = Synthesized(descriptor: TargetDescriptor, strategy: Strategy, unique: bool)

  predicate IsReadable(role: string) {
    role == "cell" || role == "text" || role == "heading"
  }

  predicate HasName(node: UiNode) {
    node.name.GetOr("") != ""
  }

  // ---------------------------------------------------------------- labels

  function FirstNamedCell(nodes: seq<UiNode>, among: seq<nat>, k: nat): Option<string>
    requires k < |nodes| && forall i | 0 <= i < |among| :: among[i] < |nodes|
  {
    if among == [] then None
    else
      var node := nodes[among[0]];
      if node.nodeId != nodes[k].nodeId && node.role == "cell" && HasName(node) then node.name
      else FirstNamedCell(nodes, among[1..], k)
  }

  function RowLabel(nodes: seq<UiNode>, k: nat): Option<string>
    requires IsTree(nodes) && k < |nodes|
  {
    var row := NearestAncestor(nodes, k, "row");
    if row.None? then None else FirstNamedCell(nodes, Descendants(nodes, row.value), k)
  }

  predicate IsLabel(t: Texts, node: UiNode) {
    HasName(node) && !t.looksLikeValue(node.name.value)
  }

  /** The last of the siblings before position `i` that reads as a label. */
  function LabelBefore(t: Texts, nodes: seq<UiNode>, siblings: seq<nat>, i: nat): (j: Option<nat>)
    requires i <= |siblings| && forall a | 0 <= a < |siblings| :: siblings[a] < |nodes|
    ensures j.Some? ==> j.value < i && IsLabel(t, nodes[siblings[j.value]])
    ensures forall a | 0 <= a < i && (j.None? || j.value < a) :: !IsLabel(t, nodes[siblings[a]])
  {
    if i == 0 then None
    else if IsLabel(t, nodes[siblings[i - 1]]) then Some(i - 1)
    else LabelBefore(t, nodes, siblings, i - 1)
  }

  function IndexAmong(nodes: seq<UiNode>, siblings: seq<nat>, k: nat): (i: nat)
    requires k < |nodes| && forall a | 0 <= a < |siblings| :: siblings[a] < |nodes|
    ensures i <= |siblings| && (i < |siblings| ==> nodes[siblings[i]].nodeId == nodes[k].nodeId)
    ensures forall a | 0 <= a < i :: nodes[siblings[a]].nodeId != nodes[k].nodeId
  {
    if siblings == [] || nodes[siblings[0]].nodeId == nodes[k].nodeId then 0
    else 1 + IndexAmong(nodes, siblings[1..], k)
  }

  function PrecedingLabel(t: Texts, nodes: seq<UiNode>, k: nat): Option<string>
    requires IsTree(nodes) && k < |nodes|
  {
    var parent := Parent(nodes, k);
    if parent.None? then None
    else
      var siblings := Siblings(nodes, parent.value);
      var i := IndexAmong(nodes, siblings, k);
      if i == |siblings| then None
      else
        var j := LabelBefore(t, nodes, siblings, i);
        if j.None? then None else nodes[siblings[j.value]].name
  }

  function AnchorFor(t: Texts, nodes: seq<UiNode>, k: nat): Option<Anchor>
    requires IsTree(nodes) && k < |nodes|
  {
    var readable := IsReadable(nodes[k].role);
    var text := if readable then PrecedingLabel(t, nodes, k) else RowLabel(nodes, k);
    if text.GetOr("") == "" then None
    else Some(Anchor(if readable then AdjacentTo else RowOf, text.value, MatchMode.Normalized))
  }

  // ---------------------------------------------------------------- the descriptor

  function ScopeOf(node: UiNode): TargetDescriptor {
    TargetDescriptor(node.role, None, NodeScope(node.scope.frame, node.scope.region), None, None, map[], "", None)
  }

  function SameName(nodes: seq<UiNode>, k: nat): seq<nat>
    requires k < |nodes|
  {
    Where(|nodes|, (i: nat) => i < |nodes| && Fits(nodes[i], ScopeOf(nodes[k])) && nodes[i].name == nodes[k].name)
  }

  function Synthesize(t: Texts, nodes: seq<UiNode>, k: nat): Synthesized
    requires IsTree(nodes) && k < |nodes|
  {
    var node := nodes[k];
    var base := ScopeOf(node).(hints := node.hints, fingerprint := node.fingerprint);
    var anchor := AnchorFor(t, nodes, k);
    if HasName(node) && |SameName(nodes, k)| == 1 then
      Synthesized(base.(name := Some(NameMatch(node.name.value, MatchMode.Exact)), anchor := anchor,
                        recordedStrategy := Some(SemanticExact)),
                  SemanticExact, true)
    else if anchor.Some? then
      Synthesized(base.(anchor := anchor, recordedStrategy := Some(StructuralAnchor)), StructuralAnchor, true)
    else
      var pool := Pool(nodes, ScopeOf(node));
      PoolAreNodes(nodes, ScopeOf(node));
      var i := IndexAmong(nodes, pool, k);
      Synthesized(base.(name := if HasName(node) then Some(NameMatch(node.name.value, MatchMode.Exact)) else None,
                        ordinal := Some(if i < |pool| then i else 0),
                        recordedStrategy := Some(OrdinalInRegion)),
                  OrdinalInRegion, false)
  }

  lemma PoolAreNodes(nodes: seq<UiNode>, target: TargetDescriptor)
    ensures forall i | 0 <= i < |Pool(nodes, target)| ::
              Pool(nodes, target)[i] < |nodes| && Fits(nodes[Pool(nodes, target)[i]], target)
  {
    var pool := Pool(nodes, target);
    assert forall i | 0 <= i < |pool| :: pool[i] in pool;
  }

  // ---------------------------------------------------------------- resolution undoes synthesis

  const REPLAY := Resolver(false, LADDER)

  /** What replay makes of the descriptor recorded for a node. */
  function FoundAgain(t: Texts, nodes: seq<UiNode>, k: nat): Result<Resolution, Refusal>
    requires IsTree(nodes) && k < |nodes|
  {
    Resolved(t, REPLAY, Synthesize(t, nodes, k).descriptor, nodes)
  }

  lemma TheReplayLadder()
    ensures Ladder(REPLAY, 0) == [SemanticExact, SemanticNormalized, StructuralAnchor, HintCached, OrdinalInRegion]
  {
    assert Ladder(REPLAY, 6) == [];
    assert Ladder(REPLAY, 5) == [];
    assert Ladder(REPLAY, 4) == [OrdinalInRegion];
    assert Ladder(REPLAY, 3) == [HintCached, OrdinalInRegion];
    assert Ladder(REPLAY, 2) == [StructuralAnchor, HintCached, OrdinalInRegion];
    assert Ladder(REPLAY, 1) == [SemanticNormalized, StructuralAnchor, HintCached, OrdinalInRegion];
  }

  /** The pool nodes whose cleaned names are the same as this one's. */
  predicate CleansAlike(nodes: seq<UiNode>, k: nat, other: nat)
    requires k < |nodes| && other < |nodes|
  {
    && Fits(nodes[other], ScopeOf(nodes[k]))
    && Names.NormalizeName(nodes[other].name) == Names.NormalizeName(nodes[k].name)
  }

  /** A node described by its name is found again, at the rung recorded and without
      drift, exactly when no other node in its pool has a name that cleans to the same
      text; otherwise resolution refuses. */
  lemma {:induction false} NamedNodesAreFoundAgain(t: Texts, nodes: seq<UiNode>, k: nat)
    requires IsTree(nodes) && k < |nodes| && Synthesize(t, nodes, k).strategy == SemanticExact
    ensures var r := FoundAgain(t, nodes, k);
            && (r.Ok? <==> forall other: nat | other < |nodes| && CleansAlike(nodes, k, other) :: other == k)
            && (r.Ok? ==> r.value.node == k && r.value.strategy == SemanticExact
                          && !IsDrift(Synthesize(t, nodes, k).descriptor.recordedStrategy, r.value.strategy))
            && (r.Err? ==> r.error.Ambiguous?)
  {
    hide IsTree, AnchorFor, Candidates, Fits;
    TheReplayLadder();
    var target := Synthesize(t, nodes, k).descriptor;
    var found := SemanticExactRung(t, target, nodes);
    assert Candidates(t, SemanticExact, target, nodes) == found by { RungOf(t, target, nodes); }
    assert forall other: nat | other < |nodes| :: other in found <==> CleansAlike(nodes, k, other) by {
      ScopeDecides(nodes, k, target);
    }
    assert k in found by { ItselfFits(nodes[k]); }
    ResolvesExactlyWhenDistinguishable(t, REPLAY, target, nodes, 0);
    OneMember(found, k);
  }

  lemma RungOf(t: Texts, target: TargetDescriptor, nodes: seq<UiNode>)
    requires IsTree(nodes)
    ensures Candidates(t, SemanticExact, target, nodes) == SemanticExactRung(t, target, nodes)
    ensures Candidates(t, SemanticNormalized, target, nodes) == SemanticNormalizedRung(t, target, nodes)
    ensures Candidates(t, StructuralAnchor, target, nodes) == StructuralRung(t, target, nodes)
    ensures Candidates(t, HintCached, target, nodes) == HintRung(t, target, nodes)
    ensures Candidates(t, OrdinalInRegion, target, nodes) == OrdinalRung(target, nodes)
  {
    hide SemanticExactRung, SemanticNormalizedRung, StructuralRung, HintRung, OrdinalRung;
  }

  /** Only role and scope decide what fits. */
  lemma ScopeDecides(nodes: seq<UiNode>, k: nat, target: TargetDescriptor)
    requires k < |nodes| && target.role == nodes[k].role && target.scope == nodes[k].scope
    ensures forall other: nat | other < |nodes| :: Fits(nodes[other], target) <==> Fits(nodes[other], ScopeOf(nodes[k]))
  {
  }

  lemma ItselfFits(node: UiNode)
    ensures Fits(node, ScopeOf(node))
  {
  }

  lemma OneMember(found: seq<nat>, k: nat)
    requires Ascending(found) && k in found
    ensures |found| == 1 <==> forall other: nat | other in found :: other == k
    ensures |found| == 1 ==> found[0] == k
  {
    if |found| > 1 {
      assert found[0] in found && found[1] in found && found[0] < found[1];
    }
  }

  /** Names the cleaning leaves alone are enough for that. */
  lemma {:induction false} CleanNamesAreFoundAgain(t: Texts, nodes: seq<UiNode>, k: nat)
    requires IsTree(nodes) && k < |nodes| && Synthesize(t, nodes, k).strategy == SemanticExact
    requires forall i | 0 <= i < |nodes| :: Names.NormalizeName(nodes[i].name) == nodes[i].name
    ensures FoundAgain(t, nodes, k) == Ok(Resolution(k, SemanticExact, 1))
  {
    hide IsTree, AnchorFor, Resolved, Names.NormalizeName;
    NamedNodesAreFoundAgain(t, nodes, k);
    var same := SameName(nodes, k);
    forall other: nat | other < |nodes| && CleansAlike(nodes, k, other) ensures other == k {
      ItselfFits(nodes[k]);
      assert k in same && other in same;
      OneMember(same, k);
    }
    NamedOnlyOnce(t, nodes, k);
  }

  lemma NamedOnlyOnce(t: Texts, nodes: seq<UiNode>, k: nat)
    requires IsTree(nodes) && k < |nodes| && Synthesize(t, nodes, k).strategy == SemanticExact
    requires FoundAgain(t, nodes, k).Ok? && FoundAgain(t, nodes, k).value.strategy == SemanticExact
    ensures FoundAgain(t, nodes, k).value.considered == 1
  {
    hide IsTree, AnchorFor, Candidates;
    TheReplayLadder();
  }

  // ---------------------------------------------------------------- positions

  lemma {:induction false} IndexInWhere(n: nat, keep: nat -> bool, k: nat)
    requires k < n && keep(k)
    ensures |Where(k, keep)| < |Where(n, keep)| && Where(n, keep)[|Where(k, keep)|] == k
  {
    if k < n - 1 { IndexInWhere(n - 1, keep, k); }
  }

  lemma {:induction false} FewerAreKept(n: nat, keep: nat -> bool, also: nat -> bool)
    requires forall k: nat :: also(k) ==> keep(k)
    ensures |Where(n, also)| <= |Where(n, keep)|
    ensures |Where(n, also)| == |Where(n, keep)| <==> forall k: nat | k < n && keep(k) :: also(k)
  {
    if n > 0 { FewerAreKept(n - 1, keep, also); }
  }

  /** The place a node has in one list is its place in a shorter one exactly when
      everything before it is in both. */
  lemma {:induction false} SamePlaceInBoth(n: nat, keep: nat -> bool, also: nat -> bool, k: nat)
    requires k < n && also(k) && forall i: nat :: also(i) ==> keep(i)
    ensures var place, shorter := |Where(k, keep)|, Where(n, also);
            && (place < |shorter| && shorter[place] == k <==> forall i: nat | i < k && keep(i) :: also(i))
            && (place < |shorter| ==> shorter[place] >= k)
  {
    IndexInWhere(n, also, k);
    FewerAreKept(k, keep, also);
  }

  lemma PlaceInPool(nodes: seq<UiNode>, k: nat)
    requires DistinctIds(nodes) && k < |nodes|
    ensures var keep := (i: nat) => i < |nodes| && Fits(nodes[i], ScopeOf(nodes[k]));
            && Pool(nodes, ScopeOf(nodes[k])) == Where(|nodes|, keep)
            && (forall i | 0 <= i < |Pool(nodes, ScopeOf(nodes[k]))| :: Pool(nodes, ScopeOf(nodes[k]))[i] < |nodes|)
            && IndexAmong(nodes, Pool(nodes, ScopeOf(nodes[k])), k) == |Where(k, keep)| < |Where(|nodes|, keep)|
    ensures IndexAmong(nodes, Pool(nodes, ScopeOf(nodes[k])), k) == CountedPlace(nodes, k)
  {
    var keep := (i: nat) => i < |nodes| && Fits(nodes[i], ScopeOf(nodes[k]));
    ItselfFits(nodes[k]);
    WhereAgrees(|nodes|, keep, (i: nat) => i < |nodes| && Fits(nodes[i], ScopeOf(nodes[k])));
    WhereAgrees(k, keep, (i: nat) => i < |nodes| && Fits(nodes[i], ScopeOf(nodes[k])));
    IndexInWhere(|nodes|, keep, k);
    PoolAreNodes(nodes, ScopeOf(nodes[k]));
    var pool := Pool(nodes, ScopeOf(nodes[k]));
    var i := IndexAmong(nodes, pool, k);
    assert pool[|Where(k, keep)|] == k;
    assert i <= |Where(k, keep)| && pool[i] == k;
  }

  /** Whether a pool node would be offered alongside the node a position describes. */
  predicate OfferedWith(nodes: seq<UiNode>, k: nat, other: nat)
    requires k < |nodes| && other < |nodes|
  {
    if HasName(nodes[k]) then CleansAlike(nodes, k, other)
    else Fits(nodes[other], ScopeOf(nodes[k])) && Css(nodes[other].hints) == Css(nodes[k].hints)
  }

  /** What is offered on replay beside the node, itself included, in document order. */
  function Offered(nodes: seq<UiNode>, k: nat): seq<nat>
    requires k < |nodes|
  {
    Where(|nodes|, (i: nat) => i < |nodes| && OfferedWith(nodes, k, i))
  }

  /** The position recorded: how many of its role and scope stand before it. */
  function CountedPlace(nodes: seq<UiNode>, k: nat): nat
    requires k < |nodes|
  {
    |Where(k, (i: nat) => i < |nodes| && Fits(nodes[i], ScopeOf(nodes[k])))|
  }

  /** The position was counted over the whole pool, but is applied to whichever rung
      offers several. A node described by position is found again exactly when it is
      offered alone, or everything before it in the pool is offered with it. When it is
      not, resolution refuses if the position is beyond what is offered, and otherwise
      takes another node, further down, without a word. */
  lemma {:induction false} PositionedNodesAreFoundAgain(t: Texts, nodes: seq<UiNode>, k: nat)
    requires IsTree(nodes) && k < |nodes| && Synthesize(t, nodes, k).strategy == OrdinalInRegion
    ensures var r := FoundAgain(t, nodes, k);
            r.Ok? && r.value.node == k <==>
              || (!HasName(nodes[k]) && Css(nodes[k].hints).None?)
              || (forall other: nat | other < |nodes| && OfferedWith(nodes, k, other) :: other == k)
              || (forall other: nat | other < k
                     && Fits(nodes[other], ScopeOf(nodes[k])) :: OfferedWith(nodes, k, other))
    ensures var r, offered := FoundAgain(t, nodes, k), Offered(nodes, k);
            HasName(nodes[k]) || Css(nodes[k].hints).Some? ==>
              && (r.Err? <==> 1 < |offered| <= CountedPlace(nodes, k))
              && (r.Err? ==> r.error == Ambiguous(offered))
              && (r.Ok? && r.value.node != k ==>
                    CountedPlace(nodes, k) < |offered| && r.value.node == offered[CountedPlace(nodes, k)] > k)
  {
    hide IsTree, AnchorFor, FoundAgain, OfferedWith, Fits, Pool, IndexAmong, Css, Offered;
    DistinctWhenTree(nodes);
    PlaceInPool(nodes, k);
    var target := Synthesize(t, nodes, k).descriptor;
    if HasName(nodes[k]) || Css(nodes[k].hints).Some? {
      PositionedAmongOthers(t, nodes, k, target);
    } else {
      PositionedAlone(t, nodes, k, target);
    }
  }

  /** Descriptors made of a position: no anchor, the name only if there is one. */
  ghost predicate DescribesByPosition(t: Texts, nodes: seq<UiNode>, k: nat, target: TargetDescriptor)
    requires IsTree(nodes) && k < |nodes|
  {
    && target == Synthesize(t, nodes, k).descriptor
    && target.role == nodes[k].role && target.scope == nodes[k].scope && target.hints == nodes[k].hints
    && target.name == (if HasName(nodes[k]) then Some(NameMatch(nodes[k].name.value, MatchMode.Exact)) else None)
    && target.anchor.None?
  }

  lemma {:induction false} PositionedAmongOthers(t: Texts, nodes: seq<UiNode>, k: nat, target: TargetDescriptor)
    requires IsTree(nodes) && k < |nodes| && (HasName(nodes[k]) || Css(nodes[k].hints).Some?)
    requires DescribesByPosition(t, nodes, k, target) && target.ordinal == Some(CountedPlace(nodes, k))
    ensures var r, offered := FoundAgain(t, nodes, k), Offered(nodes, k);
            && (r.Ok? && r.value.node == k <==>
                  || (forall other: nat | other < |nodes| && OfferedWith(nodes, k, other) :: other == k)
                  || (forall other: nat | other < k
                         && Fits(nodes[other], ScopeOf(nodes[k])) :: OfferedWith(nodes, k, other)))
            && (r.Err? <==> 1 < |offered| <= CountedPlace(nodes, k)) && (r.Err? ==> r.error == Ambiguous(offered))
            && (r.Ok? && r.value.node != k ==>
                  CountedPlace(nodes, k) < |offered| && r.value.node == offered[CountedPlace(nodes, k)] > k)
  {
    hide IsTree, Fits, Synthesize, Css, SemanticExactRung, HintRung, Resolved, OfferedWith, CountedPlace, Offered;
    PlaceAmongOthers(t, nodes, k, target);
    OfferedAt(t, target, nodes, if HasName(nodes[k]) then 0 else 3, Offered(nodes, k));
  }

  lemma {:induction false} PlaceAmongOthers(t: Texts, nodes: seq<UiNode>, k: nat, target: TargetDescriptor)
    requires IsTree(nodes) && k < |nodes| && (HasName(nodes[k]) || Css(nodes[k].hints).Some?)
    requires DescribesByPosition(t, nodes, k, target)
    ensures var found, place := Offered(nodes, k), CountedPlace(nodes, k);
            && found == (if HasName(nodes[k]) then SemanticExactRung(t, target, nodes) else HintRung(t, target, nodes))
            && found != []
            && (|found| == 1 <==> forall other: nat | other < |nodes| && OfferedWith(nodes, k, other) :: other == k)
            && (|found| == 1 ==> found[0] == k)
            && (place < |found| && found[place] == k <==>
                  forall other: nat | other < k && Fits(nodes[other], ScopeOf(nodes[k])) ::
                    OfferedWith(nodes, k, other))
            && (place < |found| ==> found[place] >= k)
  {
    hide IsTree, Fits, Synthesize, Css, SemanticExactRung, HintRung;
    var also := (i: nat) => i < |nodes| && OfferedWith(nodes, k, i);
    var keep := (i: nat) => i < |nodes| && Fits(nodes[i], ScopeOf(nodes[k]));
    WhereAgrees(|nodes|, also, (i: nat) => i < |nodes| && OfferedWith(nodes, k, i));
    WhereAgrees(k, keep, (i: nat) => i < |nodes| && Fits(nodes[i], ScopeOf(nodes[k])));
    var found := if HasName(nodes[k]) then SemanticExactRung(t, target, nodes) else HintRung(t, target, nodes);
    OffersOf(t, nodes, k, target, found, also);
    hide OfferedWith;
    SamePlaceInBoth(|nodes|, keep, also, k);
    OneMember(found, k);
  }

  /** Resolution of a descriptor without an anchor, by the first rung that offers. */
  lemma {:induction false} OfferedAt(t: Texts, target: TargetDescriptor, nodes: seq<UiNode>, i: nat, found: seq<nat>)
    requires IsTree(nodes) && target.anchor.None? && found != []
    requires match i
             case 0 => found == SemanticExactRung(t, target, nodes)
             case 3 => target.name.None? && found == HintRung(t, target, nodes)
             case 4 => target.name.None? && Css(target.hints).None? && found == OrdinalRung(target, nodes)
             case _ => false
    ensures var r := Resolved(t, REPLAY, target, nodes);
            && (r.Ok? <==> |found| == 1 || (target.ordinal.Some? && 0 <= target.ordinal.value < |found|))
            && (r.Ok? ==> r.value == Resolution(if |found| == 1 then found[0] else found[target.ordinal.value],
                                                if i == 0 then SemanticExact else if i == 3 then HintCached
                                                else OrdinalInRegion, |found|))
            && (r.Err? ==> r.error == Ambiguous(found))
  {
    hide IsTree, Candidates, Css, SemanticExactRung, SemanticNormalizedRung, StructuralRung, HintRung, OrdinalRung;
    hide Resolved, Ladder, Pick;
    TheReplayLadder();
    RungOf(t, target, nodes);
    NothingBeforeTheHint(t, target, nodes);
    var rungs := Ladder(REPLAY, 0);
    assert Candidates(t, rungs[i], target, nodes) == found;
    assert forall j | 0 <= j < i :: Candidates(t, rungs[j], target, nodes) == [] by {
      assert i > 0 ==> Candidates(t, rungs[0], target, nodes) == [] && Candidates(t, rungs[1], target, nodes) == []
                       && Candidates(t, rungs[2], target, nodes) == [];
      assert i > 3 ==> Candidates(t, rungs[3], target, nodes) == [];
    }
    ResolvesExactlyWhenDistinguishable(t, REPLAY, target, nodes, i);
  }

  lemma NothingBeforeTheHint(t: Texts, target: TargetDescriptor, nodes: seq<UiNode>)
    requires IsTree(nodes) && target.anchor.None?
    ensures target.name.None? ==>
              SemanticExactRung(t, target, nodes) == [] && SemanticNormalizedRung(t, target, nodes) == []
    ensures StructuralRung(t, target, nodes) == []
    ensures Css(target.hints).None? ==> HintRung(t, target, nodes) == []
  {
  }

  lemma {:induction false} PositionedAlone(t: Texts, nodes: seq<UiNode>, k: nat, target: TargetDescriptor)
    requires IsTree(nodes) && k < |nodes| && !HasName(nodes[k]) && Css(nodes[k].hints).None?
    requires DescribesByPosition(t, nodes, k, target)
    requires target.ordinal == Some(|Where(k, (i: nat) => i < |nodes| && Fits(nodes[i], ScopeOf(nodes[k])))|)
    ensures FoundAgain(t, nodes, k) == Ok(Resolution(k, OrdinalInRegion, 1))
  {
    hide IsTree, Fits, Synthesize, Css, Resolved;
    var keep := (i: nat) => i < |nodes| && Fits(nodes[i], ScopeOf(nodes[k]));
    ItselfFits(nodes[k]);
    IndexInWhere(|nodes|, keep, k);
    PoolUnder(nodes, k, target);
    assert OrdinalRung(target, nodes) == [k];
    OfferedAt(t, target, nodes, 4, [k]);
  }

  lemma DistinctWhenTree(nodes: seq<UiNode>)
    requires IsTree(nodes)
    ensures DistinctIds(nodes)
  {
  }

  lemma PoolUnder(nodes: seq<UiNode>, k: nat, target: TargetDescriptor)
    requires k < |nodes| && target.role == nodes[k].role && target.scope == nodes[k].scope
    ensures Pool(nodes, target) == Pool(nodes, ScopeOf(nodes[k]))
  {
    WhereAgrees(|nodes|, (i: nat) => i < |nodes| && Fits(nodes[i], target),
                (i: nat) => i < |nodes| && Fits(nodes[i], ScopeOf(nodes[k])));
  }

  lemma {:induction false} OffersOf(t: Texts, nodes: seq<UiNode>, k: nat, target: TargetDescriptor, found: seq<nat>,
                                    also: nat -> bool)
    requires k < |nodes| && target.role == nodes[k].role && target.scope == nodes[k].scope
    requires target.hints == nodes[k].hints && (HasName(nodes[k]) || Css(nodes[k].hints).Some?)
    requires target.name == if HasName(nodes[k]) then Some(NameMatch(nodes[k].name.value, MatchMode.Exact)) else None
    requires found == if HasName(nodes[k]) then SemanticExactRung(t, target, nodes) else HintRung(t, target, nodes)
    requires forall i: nat :: also(i) == (i < |nodes| && OfferedWith(nodes, k, i))
    ensures found == Where(|nodes|, also) && Ascending(found) && also(k) && k in found
  {
    hide Fits, Names.NormalizeName;
    ScopeDecides(nodes, k, target);
    ItselfFits(nodes[k]);
    if HasName(nodes[k]) {
      WhereAgrees(|nodes|, (i: nat) =>
        i < |nodes| && Fits(nodes[i], target) && NamedExactly(t, target, nodes[i]), also);
    } else {
      HintRungIs(t, target, nodes, also);
    }
  }

  lemma HintRungIs(t: Texts, target: TargetDescriptor, nodes: seq<UiNode>, also: nat -> bool)
    requires forall i: nat | i < |nodes| ::
               also(i) == (&& Css(nodes[i].hints) == Css(target.hints) && Fits(nodes[i], target)
                           && (target.name.Some? ==> Fold(t, nodes[i].name) == Fold(t, Some(target.name.value.value))))
    ensures HintRung(t, target, nodes) == if Css(target.hints).None? then [] else Where(|nodes|, also)
  {
    hide Fits, Css;
    WhereAgrees(|nodes|, (k: nat) =>
      && k < |nodes| && Css(nodes[k].hints) == Css(target.hints) && Fits(nodes[k], target)
      && (target.name.Some? ==> Fold(t, nodes[k].name) == Fold(t, Some(target.name.value.value))), also);
  }

  // ---------------------------------------------------------------- labels

  /** The row a readable node sits in, its place there, and the place of its label. */
  ghost predicate LabelledInRow(t: Texts, nodes: seq<UiNode>, k: nat, c: nat, i: nat, j: nat)
    requires IsTree(nodes)
  {
    && k < |nodes| && c < |nodes| && Parent(nodes, k) == Some(c) && nodes[c].role == "row"
    && j < i < |Children(nodes, c)| && Children(nodes, c)[i] == k
    && Children(nodes, c)[j] < |nodes| && IsLabel(t, nodes[Children(nodes, c)[j]])
    && forall m | j < m < i :: Children(nodes, c)[m] < |nodes| && !IsLabel(t, nodes[Children(nodes, c)[m]])
  }

  /** Which text describes such a node: its nearest label to the left. */
  lemma {:induction false} TheLabelIsTheNearest(t: Texts, nodes: seq<UiNode>, k: nat, c: nat, i: nat, j: nat)
    requires IsTree(nodes) && LabelledInRow(t, nodes, k, c, i, j) && IsReadable(nodes[k].role)
    ensures AnchorFor(t, nodes, k) ==
              Some(Anchor(AdjacentTo, nodes[Children(nodes, c)[j]].name.value, MatchMode.Normalized))
  {
    hide IsTree, Children, Siblings, Parent;
    Laws.SiblingsAreChildren(nodes, c);
    ChildrenAreExact(nodes, c);
    var kids := Children(nodes, c);
    var at := IndexAmong(nodes, kids, k);
    assert at <= i;
    SameIdSameNode(nodes, kids[at], k);
    assert at == i;
  }

  /** Another node that reads like the label, as far as replay can tell. */
  predicate SameLabel(t: Texts, nodes: seq<UiNode>, a: nat, cell: nat) {
    a < |nodes| && cell < |nodes| && Fold(t, nodes[a].name) == Fold(t, nodes[cell].name)
  }

  /** Whatever node reads like the label, the first fitting cell after it is this one. */
  ghost predicate NoOtherOffer(t: Texts, nodes: seq<UiNode>, target: TargetDescriptor, cell: nat, own: nat)
    requires IsTree(nodes)
  {
    forall a: nat, x: nat | SameLabel(t, nodes, a, cell) && x in Following(nodes, target, a) :: x == own
  }

  /** A labelled cell is described by a text, and on replay every node that reads like
      it offers the first cell after it that fits. The label's own offer is the cell
      itself exactly when none of the data skipped on the way to the label fits too.
      Resolution takes that offer exactly when no other node reading like the label
      offers another; else it refuses. So the cell is found again exactly when both
      hold, and another cell is read for it, although the description was recorded as
      unique, exactly when the second holds and the first does not. */
  lemma {:induction false} LabelledCellsAreFoundAgain(t: Texts, lex: Build.Lexicon, elements: seq<Build.Raw>,
                                                      nodes: seq<UiNode>, k: nat, c: nat, i: nat, j: nat)
    returns (first: nat)
    requires Laws.BuiltInOneFrame(lex, elements, nodes) && LabelledInRow(t, nodes, k, c, i, j)
    requires IsReadable(nodes[k].role) && Synthesize(t, nodes, k).strategy == StructuralAnchor
    ensures Synthesize(t, nodes, k).unique
    ensures var kids := Children(nodes, c);
            && j < first <= i && kids[first] < |nodes| && Fits(nodes[kids[first]], ScopeOf(nodes[k]))
            && (forall m | j < m < first :: kids[m] < |nodes| && !Fits(nodes[kids[m]], ScopeOf(nodes[k])))
            && (kids[first] == k <==> first == i)
            && Following(nodes, Synthesize(t, nodes, k).descriptor, kids[j]) == [kids[first]]
    ensures var r, cell, own := FoundAgain(t, nodes, k), Children(nodes, c)[j], Children(nodes, c)[first];
            && (r.Ok? <==> NoOtherOffer(t, nodes, Synthesize(t, nodes, k).descriptor, cell, own))
            && (r.Ok? ==> r.value == Resolution(own, StructuralAnchor, 1))
            && (r.Err? ==> r.error.Ambiguous?)
  {
    hide Laws.BuiltInOneFrame, IsTree, Children, Fits, Following, Parent, Resolved, Fold;
    Laws.TreeOf(lex, elements, nodes);
    TheLabelIsTheNearest(t, nodes, k, c, i, j);
    var target, kids := Synthesize(t, nodes, k).descriptor, Children(nodes, c);
    var cell := kids[j];
    ChildrenAreExact(nodes, c);
    RowContains(nodes, c, cell);
    var at, next := Laws.AdjacentIsTheFirstLaterChild(lex, elements, nodes, target, cell, c);
    assert at == j;
    ScopeDecides(nodes, k, target);
    ItselfFits(nodes[k]);
    assert next <= i;
    first := next;
    assert SameLabel(t, nodes, cell, cell) && kids[first] in Following(nodes, target, cell);
    var found := OfferedNextTo(t, nodes, target, cell);
    hide StructuralRung, AnchorFor, HasName, LabelledInRow;
    OneMember(found, kids[first]);
    OnlyOffer(t, nodes, target, cell, kids[first], found);
    hide NoOtherOffer;
    AnchoredAmong(t, target, nodes, found);
  }

  lemma {:induction false} OfferedNextTo(t: Texts, nodes: seq<UiNode>, target: TargetDescriptor, cell: nat)
    returns (found: seq<nat>)
    requires IsTree(nodes) && cell < |nodes| && HasName(nodes[cell])
    requires target.anchor == Some(Anchor(AdjacentTo, nodes[cell].name.GetOr(""), MatchMode.Normalized))
    ensures found == StructuralRung(t, target, nodes) && Ascending(found)
    ensures forall x: nat ::
              x in found <==> exists a: nat :: SameLabel(t, nodes, a, cell) && x in Following(nodes, target, a)
  {
    hide IsTree, Fold, Following;
    found := StructuralRung(t, target, nodes);
    var anchor := target.anchor.value;
    assert forall a: nat | a < |nodes| :: AnchorMatches(t, nodes[a], anchor) <==> SameLabel(t, nodes, a, cell);
    forall a: nat, x: nat | a < |nodes| && x in Following(nodes, target, a) ensures x < |nodes| {
      assert x in Reached(nodes, target, AdjacentTo, a);
      hide Reached;
      ReachedFits(nodes, target, AdjacentTo, a, x);
    }
  }

  lemma OnlyOffer(t: Texts, nodes: seq<UiNode>, target: TargetDescriptor, cell: nat, own: nat, found: seq<nat>)
    requires IsTree(nodes)
    requires forall x: nat ::
               x in found <==> exists a: nat :: SameLabel(t, nodes, a, cell) && x in Following(nodes, target, a)
    ensures (forall other: nat | other in found :: other == own) <==> NoOtherOffer(t, nodes, target, cell, own)
  {
    hide IsTree, Following, Fold;
    if forall other: nat | other in found :: other == own {
      forall a: nat, x: nat | SameLabel(t, nodes, a, cell) && x in Following(nodes, target, a) ensures x == own {
        assert x in found;
      }
    }
    if NoOtherOffer(t, nodes, target, cell, own) {
      forall other: nat | other in found ensures other == own {
        var a: nat :| SameLabel(t, nodes, a, cell) && other in Following(nodes, target, a);
      }
    }
  }

  lemma RowContains(nodes: seq<UiNode>, c: nat, cell: nat)
    requires IsTree(nodes) && c < |nodes| && cell < |nodes| && Parent(nodes, cell) == Some(c) && nodes[c].role == "row"
    ensures Container(nodes, cell) == Some(c)
  {
  }

  // ---------------------------------------------------------------- controls

  /** The row a control sits in and the cell that labels the row: the first named one in
      it other than the control. */
  ghost predicate LabelledByRow(nodes: seq<UiNode>, k: nat, r: nat, i: nat)
    requires IsTree(nodes)
  {
    && k < |nodes| && NearestAncestor(nodes, k, "row") == Some(r)
    && i < |Descendants(nodes, r)| && NamesRow(nodes, Descendants(nodes, r)[i], k)
    && forall j | 0 <= j < i :: Descendants(nodes, r)[j] < |nodes| && !NamesRow(nodes, Descendants(nodes, r)[j], k)
  }

  predicate NamesRow(nodes: seq<UiNode>, d: nat, k: nat)
    requires k < |nodes|
  {
    d < |nodes| && nodes[d].nodeId != nodes[k].nodeId && nodes[d].role == "cell" && HasName(nodes[d])
  }

  lemma {:induction false} TheRowIsNamedByItsFirstCell(nodes: seq<UiNode>, among: seq<nat>, k: nat, i: nat)
    requires k < |nodes| && i < |among| && forall j | 0 <= j < |among| :: among[j] < |nodes|
    requires NamesRow(nodes, among[i], k) && forall j | 0 <= j < i :: !NamesRow(nodes, among[j], k)
    ensures FirstNamedCell(nodes, among, k) == nodes[among[i]].name
  {
    if i > 0 { TheRowIsNamedByItsFirstCell(nodes, among[1..], k, i - 1); }
  }

  /** `d` lies in the row around `a`. */
  predicate SharesRow(nodes: seq<UiNode>, a: nat, d: nat)
    requires IsTree(nodes)
  {
    && a < |nodes| && d < |nodes| && d != a
    && NearestAncestor(nodes, a, "row").Some? && d in Descendants(nodes, NearestAncestor(nodes, a, "row").value)
  }

  /** A control described by its row's label is found again exactly when nothing else
      that fits its role and scope is in the row of a node that reads like the label, be
      it that row or another; otherwise resolution refuses. */
  lemma {:induction false} LabelledControlsAreFoundAgain(t: Texts, nodes: seq<UiNode>, k: nat, r: nat, i: nat)
    requires IsTree(nodes) && LabelledByRow(nodes, k, r, i)
    requires !IsReadable(nodes[k].role) && Synthesize(t, nodes, k).strategy == StructuralAnchor
    requires NearestAncestor(nodes, Descendants(nodes, r)[i], "row") == Some(r)
    ensures var again, cell := FoundAgain(t, nodes, k), Descendants(nodes, r)[i];
            && (again.Ok? <==> forall a: nat, d: nat | SameLabel(t, nodes, a, cell) && SharesRow(nodes, a, d)
                                                       && Fits(nodes[d], ScopeOf(nodes[k])) :: d == k)
            && (again.Ok? ==> again.value == Resolution(k, StructuralAnchor, 1))
            && (again.Err? ==> again.error.Ambiguous?)
  {
    hide IsTree, Descendants, NearestAncestor, Fits, Resolved, Fold, StructuralRung;
    var below := Descendants(nodes, r);
    var cell := below[i];
    TheRowIsNamedByItsFirstCell(nodes, below, k, i);
    var target := Synthesize(t, nodes, k).descriptor;
    ScopeDecides(nodes, k, target);
    ItselfFits(nodes[k]);
    ControlsAreBelowTheirRow(nodes, k, r);
    assert SameLabel(t, nodes, cell, cell) && SharesRow(nodes, cell, k);
    var found := OfferedInRows(t, nodes, target, cell);
    OneMember(found, k);
    hide Synthesize, LabelledByRow, AnchorFor;
    AnchoredAmong(t, target, nodes, found);
  }

  lemma ControlsAreBelowTheirRow(nodes: seq<UiNode>, k: nat, r: nat)
    requires IsTree(nodes) && k < |nodes| && NearestAncestor(nodes, k, "row") == Some(r)
    ensures r < |nodes| && k in Descendants(nodes, r)
  {
    hide IsTree;
    DescendantsHaveItAbove(nodes, r, k);
  }

  lemma {:induction false} OfferedInRows(t: Texts, nodes: seq<UiNode>, target: TargetDescriptor, cell: nat)
    returns (found: seq<nat>)
    requires IsTree(nodes) && cell < |nodes| && HasName(nodes[cell])
    requires target.anchor == Some(Anchor(RowOf, nodes[cell].name.GetOr(""), MatchMode.Normalized))
    ensures found == StructuralRung(t, target, nodes) && Ascending(found)
    ensures forall d: nat ::
              d in found <==> exists a: nat :: SameLabel(t, nodes, a, cell) && SharesRow(nodes, a, d)
                                               && Fits(nodes[d], target)
  {
    hide IsTree, Fold, Descendants, Fits, NearestAncestor;
    DistinctWhenTree(nodes);
    found := StructuralRung(t, target, nodes);
    var anchor := target.anchor.value;
    assert forall a: nat | a < |nodes| :: AnchorMatches(t, nodes[a], anchor) <==> SameLabel(t, nodes, a, cell);
    forall a: nat, d: nat | a < |nodes|
      ensures d in Reached(nodes, target, RowOf, a) <==> SharesRow(nodes, a, d) && Fits(nodes[d], target)
    {
    }
  }

  lemma {:induction false} AnchoredAmong(t: Texts, target: TargetDescriptor, nodes: seq<UiNode>, found: seq<nat>)
    requires IsTree(nodes) && target.name.None? && target.ordinal.None?
    requires StructuralRung(t, target, nodes) == found && found != []
    ensures var r := Resolved(t, REPLAY, target, nodes);
            && (r.Ok? <==> |found| == 1)
            && (r.Ok? ==> r.value == Resolution(found[0], StructuralAnchor, 1))
            && (r.Err? ==> r.error.Ambiguous?)
  {
    hide IsTree, Candidates, StructuralRung, HintRung, OrdinalRung;
    TheReplayLadder();
    RungOf(t, target, nodes);
    hide Resolved, Ladder;
    ResolvesExactlyWhenDistinguishable(t, REPLAY, target, nodes, 2);
  }
}
