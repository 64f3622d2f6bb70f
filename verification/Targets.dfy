/** How a capability identifies a control, `domain/target.py`. */
module Targets {
  import opened Outcomes
  import opened Snapshots

  datatype MatchMode = Exact | Normalized | Contains | Regex

  datatype NameMatch = NameMatch(value: string, mode: MatchMode)

  datatype AnchorRelation = RowOf | AdjacentTo | WithinSection

  datatype Anchor = Anchor(relation: AnchorRelation, text: string, mode: MatchMode)

  datatype Strategy =
    | SemanticExact | SemanticNormalized | StructuralAnchor | HintCached | OrdinalInRegion | Vision

  datatype TargetDescriptor = TargetDescriptor(
    role: string,
    name: Option<NameMatch>,
    scope: NodeScope,
    anchor: Option<Anchor>,
    ordinal: Option<int>,
    hints: map<string, string>,
    fingerprint: string,
    recordedStrategy: Option<Strategy>)

  const LADDER: seq<Strategy> :=
    [SemanticExact, SemanticNormalized, StructuralAnchor, HintCached, OrdinalInRegion, Vision]

  /** Position in the ladder; lower is stronger evidence. */
  function Rank(s: Strategy): nat {
    match s
    case SemanticExact => 0
    case SemanticNormalized => 1
    case StructuralAnchor => 2
    case HintCached => 3
    case OrdinalInRegion => 4
    case Vision => 5
  }

  predicate IsDrift(recorded: Option<Strategy>, used: Strategy) {
    recorded.Some? && Rank(used) > Rank(recorded.value)
  }
}
