/** `targeting/resolver.py`: the ladder, and the refusal to guess. */
module Resolving {
  import opened Outcomes
  import opened Snapshots
  import opened Targets
  import opened Trees
  import opened Targeting

  datatype Resolver = Resolver(allowVision: bool, available: seq<Strategy>)

  datatype Resolution = Resolution(node: nat, strategy: Strategy, considered: nat)

  datatype Refusal = Ambiguous(candidates: seq<nat>) | NothingMatched

  function Ladder(resolver: Resolver, i: nat): (rungs: seq<Strategy>)
    requires i <= |resolver.available|
    ensures resolver.allowVision || Vision !in rungs
    decreases |resolver.available| - i
  {
    if i == |resolver.available| then []
    else
      (if resolver.allowVision || resolver.available[i] != Vision then [resolver.available[i]] else [])
      + Ladder(resolver, i + 1)
  }

  /** The generator of a rung; vision has none and contributes nothing. */
  function Candidates(t: Texts, strategy: Strategy, target: TargetDescriptor, nodes: seq<UiNode>): seq<nat>
    requires IsTree(nodes)
  {
    match strategy
    case SemanticExact => SemanticExactRung(t, target, nodes)
    case SemanticNormalized => SemanticNormalizedRung(t, target, nodes)
    case StructuralAnchor => StructuralRung(t, target, nodes)
    case HintCached => HintRung(t, target, nodes)
    case OrdinalInRegion => OrdinalRung(target, nodes)
    case Vision => []
  }

  /** Whatever the rung, its candidates are nodes of the right role in the right scope,
      in document order, each once. */
  lemma CandidatesAreOrderedAndFit(t: Texts, strategy: Strategy, target: TargetDescriptor, nodes: seq<UiNode>)
    requires IsTree(nodes)
    ensures var found := Candidates(t, strategy, target, nodes);
            && Ascending(found)
            && forall i | 0 <= i < |found| :: found[i] < |nodes| && Fits(nodes[found[i]], target)
  {
    hide IsTree, Reached, NamedExactly, AnchorMatches;
    var found := Candidates(t, strategy, target, nodes);
    assert forall i | 0 <= i < |found| :: found[i] in found;
    match strategy
    case StructuralAnchor =>
      forall i | 0 <= i < |found| ensures found[i] < |nodes| && Fits(nodes[found[i]], target) {
        var anchor := target.anchor.value;
        var a :| 0 <= a < |nodes| && AnchorMatches(t, nodes[a], anchor)
                 && found[i] in Reached(nodes, target, anchor.relation, a);
        ReachedFits(nodes, target, anchor.relation, a, found[i]);
      }
    case OrdinalInRegion =>
      var pool := Pool(nodes, target);
      assert forall i | 0 <= i < |pool| :: pool[i] in pool;
    case _ =>
  }

  function FirstFilled(lists: seq<seq<nat>>): (i: nat)
    ensures i <= |lists| && forall j | 0 <= j < i :: lists[j] == []
    ensures i < |lists| ==> lists[i] != []
  {
    if lists == [] || lists[0] != [] then 0 else 1 + FirstFilled(lists[1..])
  }

  /** The first rung that offers anything, if there is one. */
  function FirstOffer(t: Texts, ladder: seq<Strategy>, target: TargetDescriptor, nodes: seq<UiNode>): (i: nat)
    requires IsTree(nodes)
    ensures i <= |ladder| && forall j | 0 <= j < i :: Candidates(t, ladder[j], target, nodes) == []
    ensures i < |ladder| ==> Candidates(t, ladder[i], target, nodes) != []
  {
    hide IsTree, Candidates;
    var offers := seq(|ladder|, i requires 0 <= i < |ladder| && IsTree(nodes) =>
                        Candidates(t, ladder[i], target, nodes));
    assert forall j | 0 <= j < |ladder| :: offers[j] == Candidates(t, ladder[j], target, nodes);
    FirstFilled(offers)
  }

  /** The one candidate a rung's list stands for, if it stands for one. */
  function Pick(found: seq<nat>, ordinal: Option<int>): Option<nat>
    requires found != []
  {
    if |found| == 1 then Some(found[0])
    else if ordinal.Some? && 0 <= ordinal.value < |found| then Some(found[ordinal.value])
    else None
  }

  function Resolved(t: Texts, resolver: Resolver, target: TargetDescriptor, nodes: seq<UiNode>)
    : Result<Resolution, Refusal>
    requires IsTree(nodes)
  {
    var ladder := Ladder(resolver, 0);
    var i := FirstOffer(t, ladder, target, nodes);
    if i == |ladder| then Err(NothingMatched)
    else
      var found := Candidates(t, ladder[i], target, nodes);
      match Pick(found, target.ordinal)
      case None => Err(Ambiguous(found))
      case Some(chosen) => Ok(Resolution(chosen, ladder[i], |found|))
  }

  method Generate(t: Texts, strategy: Strategy, target: TargetDescriptor, nodes: seq<UiNode>) returns (found: seq<nat>)
    requires IsTree(nodes)
    ensures found == Candidates(t, strategy, target, nodes)
  {
    if strategy == StructuralAnchor {
      found := Targeting.StructuralAnchor(t, target, nodes);
    } else {
      found := Candidates(t, strategy, target, nodes);
    }
  }

  function WithoutVision(rungs: seq<Strategy>): seq<Strategy> {
    if rungs == [] then []
    else
      var last := rungs[|rungs| - 1];
      WithoutVision(rungs[..|rungs| - 1]) + if last == Vision then [] else [last]
  }

  /** The rungs up to the one that decides; all of them if none does. */
  function Tried(t: Texts, resolver: Resolver, target: TargetDescriptor, nodes: seq<UiNode>): seq<Strategy>
    requires IsTree(nodes)
  {
    var ladder := Ladder(resolver, 0);
    var i := FirstOffer(t, ladder, target, nodes);
    WithoutVision(if i == |ladder| then ladder else ladder[..i + 1])
  }

  /** `resolve`, with the rungs it tried: all up to the one that decided. */
  method Resolve(t: Texts, resolver: Resolver, target: TargetDescriptor, nodes: seq<UiNode>)
    returns (r: Result<Resolution, Refusal>, tried: seq<Strategy>)
    requires IsTree(nodes)
    ensures r == Resolved(t, resolver, target, nodes)
    ensures tried == Tried(t, resolver, target, nodes)
  {
    hide IsTree, SemanticExactRung, SemanticNormalizedRung, StructuralRung, HintRung, OrdinalRung, Ladder;
    tried := [];
    var ladder := Ladder(resolver, 0);
    var at := 0;
    while at < |ladder|
      invariant 0 <= at <= |ladder| && at <= FirstOffer(t, ladder, target, nodes)
      invariant tried == WithoutVision(ladder[..at])
    {
      assert ladder[..at + 1][..at] == ladder[..at];
      if ladder[at] != Vision {
        tried := tried + [ladder[at]];
        var found := Generate(t, ladder[at], target, nodes);
        if found != [] {
          var chosen := Pick(found, target.ordinal);
          return if chosen.None? then Err(Ambiguous(found)) else Ok(Resolution(chosen.value, ladder[at], |found|)),
                 tried;
        }
      }
      at := at + 1;
    }
    assert ladder[..|ladder|] == ladder;
    return Err(NothingMatched), tried;
  }

  /** A node comes back exactly when the strongest rung that offers anything offers one
      candidate, or an ordinal within its list; anything else is a refusal that says
      which of the two it was. */
  lemma {:induction false} ResolvesExactlyWhenDistinguishable(t: Texts, resolver: Resolver, target: TargetDescriptor,
                                                              nodes: seq<UiNode>, i: nat)
    requires IsTree(nodes) && i < |Ladder(resolver, 0)|
    requires forall j | 0 <= j < i :: Candidates(t, Ladder(resolver, 0)[j], target, nodes) == []
    ensures var r, found := Resolved(t, resolver, target, nodes), Candidates(t, Ladder(resolver, 0)[i], target, nodes);
            found != [] ==>
              && (r.Ok? <==> |found| == 1 || (target.ordinal.Some? && 0 <= target.ordinal.value < |found|))
              && (r.Ok? ==> r.value.strategy == Ladder(resolver, 0)[i] && r.value.considered == |found|
                            && r.value.node == if |found| == 1 then found[0] else found[target.ordinal.value])
              && (r.Err? ==> r.error == Ambiguous(found))
    ensures Candidates(t, Ladder(resolver, 0)[i], target, nodes) == [] && i == |Ladder(resolver, 0)| - 1 ==>
              Resolved(t, resolver, target, nodes) == Err(NothingMatched)
  {
    hide IsTree, Candidates, Ladder;
    var first := FirstOffer(t, Ladder(resolver, 0), target, nodes);
    assert first >= i;
  }

  /** What was picked is a node of the right role, in scope. */
  lemma ResolvedFits(t: Texts, resolver: Resolver, target: TargetDescriptor, nodes: seq<UiNode>)
    requires IsTree(nodes) && Resolved(t, resolver, target, nodes).Ok?
    ensures var node := Resolved(t, resolver, target, nodes).value.node; node < |nodes| && Fits(nodes[node], target)
  {
    hide IsTree, Candidates;
    CandidatesAreOrderedAndFit(t, Resolved(t, resolver, target, nodes).value.strategy, target, nodes);
  }
}
