/** `policy/engine.py`, `policy/risk.py` and `policy/irreversible.py`: the chokepoint,
    and how far an approval reaches. */
module Authorization {
  import opened Outcomes
  import opened Documents
  import opened TenantBindings
  import L = Leases

  datatype Tier = Safe | Elevated | Irreversible

  function Severity(tier: Tier): nat {
    match tier
    case Safe => 0
    case Elevated => 1
    case Irreversible => 2
  }

  function Worse(a: Tier, b: Tier): Tier {
    if Severity(a) < Severity(b) then b else a
  }

  /** What the engine reads of an action. */
  datatype Request = Request(kind: string, url: string, risk: Option<Tier>)

  datatype Disposition = Allow | AllowIfDeclared | AllowIfApproved | RequireConfirmation | BlockAndEscalate

  datatype Gates = Gates(requiresApproval: bool, requiresOptIn: bool)

  datatype Policy = Policy(
    allowed: set<string>,
    humanOnly: set<string>,
    mayVisit: (string, Option<Capability>) -> bool,     // the allowlist, widened by the capability's own
    narrowedTo: Capability -> set<string>,              // the action set a capability declares
    defaultTier: Tier,
    tierOfKind: map<string, Tier>,
    tierOfName: string -> Option<Tier>,                 // the danger lexicon
    dispositions: map<(L.Actor, Tier), Disposition>,
    gates: Gates)

  const HUMAN_ONLY: set<string> := {"raw_input"}
  const READ_ONLY: set<string> := {"wait_for", "assert", "extract", "scroll"}

  // ---------------------------------------------------------------- risk

  function Annotated(declared: Option<Tier>, request: Request): Option<Tier> {
    if declared.Some? then declared else request.risk
  }

  function Classify(policy: Policy, request: Request, targetName: Option<string>, declared: Option<Tier>): Tier {
    if request.kind in READ_ONLY then Safe
    else
      var byKind := if request.kind in policy.tierOfKind then policy.tierOfKind[request.kind] else Safe;
      var byName :=
        if targetName.GetOr("") == "" then Safe else policy.tierOfName(targetName.value).GetOr(Safe);
      Worse(Worse(policy.defaultTier, byKind), Worse(byName, Annotated(declared, request).GetOr(Safe)))
  }

  /** No signal can talk the classifier below what another one says. */
  lemma TheHighestSignalWins(policy: Policy, request: Request, targetName: Option<string>, declared: Option<Tier>)
    requires request.kind !in READ_ONLY
    ensures var tier := Severity(Classify(policy, request, targetName, declared));
            && tier >= Severity(policy.defaultTier)
            && (request.kind in policy.tierOfKind ==> tier >= Severity(policy.tierOfKind[request.kind]))
            && (targetName.GetOr("") != "" && policy.tierOfName(targetName.value).Some? ==>
                  tier >= Severity(policy.tierOfName(targetName.value).value))
            && (Annotated(declared, request).Some? ==> tier >= Severity(Annotated(declared, request).value))
            && (tier > 0 ==>
                  || tier == Severity(policy.defaultTier)
                  || (request.kind in policy.tierOfKind && tier == Severity(policy.tierOfKind[request.kind]))
                  || (targetName.GetOr("") != "" && policy.tierOfName(targetName.value).Some?
                      && tier == Severity(policy.tierOfName(targetName.value).value))
                  || (Annotated(declared, request).Some? && tier == Severity(Annotated(declared, request).value)))
  {
  }

  // ---------------------------------------------------------------- approval

  datatype ApprovalState = Draft | Approved | Rejected | Revoked

  datatype Approval = Approval(contentHash: string, state: ApprovalState)

  predicate PermitsUnattended(approval: Approval, contentHash: string) {
    approval.contentHash != "" && contentHash != "" && approval.state == Approved && approval.contentHash == contentHash
  }

  datatype Grant = Grant(approval: Option<Approval>, callerOptIn: bool, appliedBinding: Option<AppliedBinding>)

  datatype Refusal = NotOptedIn | NotApproved | NotDerived(problem: Problem) | BindingChangesBehaviour

  function ApprovalRefusal(sealing: Sealing, grant: Grant, capability: Capability): Option<Refusal> {
    if grant.approval.None? then Some(NotApproved)
    else if HashIsValid(sealing, capability) && PermitsUnattended(grant.approval.value, capability.contentHash)
    then None
    else if grant.appliedBinding.None? then Some(NotApproved)
    else
      var applied := grant.appliedBinding.value;
      var problem := Verify(sealing, applied, capability);
      if problem.Some? then Some(NotDerived(problem.value))
      else if !SubstitutesOnly(applied.binding) then Some(BindingChangesBehaviour)
      else if !PermitsUnattended(grant.approval.value, applied.base.contentHash) then Some(NotApproved)
      else None
  }

  function GrantRefusal(sealing: Sealing, grant: Grant, capability: Capability, gates: Gates): Option<Refusal> {
    if gates.requiresOptIn && !grant.callerOptIn then Some(NotOptedIn)
    else if gates.requiresApproval then ApprovalRefusal(sealing, grant, capability)
    else None
  }

  // ---------------------------------------------------------------- the decision

  datatype Denial =
    | HumanOnlyAction | ActionNotPermitted | OutsideCapability | NavigationBlocked | NeedsAHuman
    | NotDeclared | NotDeclaredAtTier | NoApprovedCapability | GrantRefused(refusal: Refusal)

  datatype Decision = Allowed(tier: Tier, confirmed: bool) | Denied(denial: Denial) | NeedsConfirmation(tier: Tier)

  function DispositionFor(policy: Policy, actor: L.Actor, tier: Tier): Disposition {
    if (actor, tier) in policy.dispositions then policy.dispositions[(actor, tier)] else BlockAndEscalate
  }

  datatype Call = Call(
    request: Request,
    actor: L.Actor,
    targetName: Option<string>,
    capability: Option<Capability>,
    declared: Option<Tier>,
    confirmed: bool,
    grant: Option<Grant>)

  predicate ReachesTheTierGate(policy: Policy, call: Call) {
    && (call.request.kind in HUMAN_ONLY ==> call.actor == L.Human)
    && (policy.allowed == {} || call.request.kind in policy.allowed
        || (call.request.kind in policy.humanOnly && call.actor == L.Human))
    && (call.capability.Some? && policy.narrowedTo(call.capability.value) != {} ==>
          call.request.kind in policy.narrowedTo(call.capability.value))
    && (call.request.kind == "navigate" ==> policy.mayVisit(call.request.url, call.capability))
  }

  function Authorize(sealing: Sealing, policy: Policy, call: Call): (d: Decision)
    ensures d.Allowed? ==> ReachesTheTierGate(policy, call)
  {
    var kind := call.request.kind;
    if kind in HUMAN_ONLY && call.actor != L.Human then Denied(HumanOnlyAction)
    else if policy.allowed != {} && kind !in policy.allowed && !(kind in policy.humanOnly && call.actor == L.Human) then
      Denied(ActionNotPermitted)
    else if call.capability.Some? && policy.narrowedTo(call.capability.value) != {}
            && kind !in policy.narrowedTo(call.capability.value) then Denied(OutsideCapability)
    else if kind == "navigate" && !policy.mayVisit(call.request.url, call.capability) then Denied(NavigationBlocked)
    else
      var tier := Classify(policy, call.request, call.targetName, call.declared);
      var annotated := Annotated(call.declared, call.request);
      match DispositionFor(policy, call.actor, tier)
      case BlockAndEscalate => Denied(NeedsAHuman)
      case AllowIfDeclared =>
        if annotated.None? then Denied(NotDeclared)
        else if annotated.value != tier then Denied(NotDeclaredAtTier)
        else Allowed(tier, false)
      case RequireConfirmation => if call.confirmed then Allowed(tier, true) else NeedsConfirmation(tier)
      case AllowIfApproved =>
        if annotated != Some(tier) then Denied(NotDeclaredAtTier)
        else if call.capability.None? || call.grant.None? then Denied(NoApprovedCapability)
        else
          var refusal := GrantRefusal(sealing, call.grant.value, call.capability.value, policy.gates);
          if refusal.Some? then Denied(GrantRefused(refusal.value)) else Allowed(tier, false)
      case Allow => Allowed(tier, false)
  }

  // ---------------------------------------------------------------- the tier and the gates, said without them

  /** Every tier somebody gives this call: the policy by default and for the action, the
      lexicon for the name of the control, the step, or else the action, for itself. */
  function Given(policy: Policy, call: Call): set<Tier> {
    {policy.defaultTier}
    + (if call.request.kind in policy.tierOfKind then {policy.tierOfKind[call.request.kind]} else {})
    + (if call.targetName.Some? && call.targetName.value != "" && policy.tierOfName(call.targetName.value).Some?
       then {policy.tierOfName(call.targetName.value).value} else {})
    + (match call.declared
       case Some(tier) => {tier}
       case None => if call.request.risk.Some? then {call.request.risk.value} else {})
  }

  /** The worst of them; reading, waiting and scrolling are safe whatever they point at. */
  function WorstGiven(policy: Policy, call: Call): Tier {
    if call.request.kind in {"wait_for", "assert", "extract", "scroll"} then Safe
    else if Irreversible in Given(policy, call) then Irreversible
    else if Elevated in Given(policy, call) then Elevated
    else Safe
  }

  lemma TheTierIsTheWorstGiven(policy: Policy, call: Call)
    ensures Classify(policy, call.request, call.targetName, call.declared) == WorstGiven(policy, call)
  {
  }

  /** The step, or failing that the action, declares this very tier. */
  predicate Declares(call: Call, tier: Tier) {
    call.declared == Some(tier) || (call.declared.None? && call.request.risk == Some(tier))
  }

  /** What comes before any question of risk: a raw gesture is a person's; the action is
      allowed, to everybody or to people; the capability, if it lists its actions, lists
      this one; and a navigation stays inside the allowlist. */
  predicate Admissible(policy: Policy, call: Call) {
    var kind := call.request.kind;
    && (kind != "raw_input" || call.actor == L.Human)
    && (policy.allowed == {} || kind in policy.allowed || (kind in policy.humanOnly && call.actor == L.Human))
    && (call.capability.None? || policy.narrowedTo(call.capability.value) == {}
        || kind in policy.narrowedTo(call.capability.value))
    && (kind != "navigate" || policy.mayVisit(call.request.url, call.capability))
  }

  /** A control the lexicon knows is not talked down by the step that acts on it: where
      the policy's table has nothing, from the lexicon's tier up, that passes undeclared
      actions of this actor, a step that declares less, or nothing, does not get
      through, whatever it was approved for. */
  lemma NoStepTalksAControlDown(sealing: Sealing, policy: Policy, call: Call, known: Tier)
    requires call.request.kind !in {"wait_for", "assert", "extract", "scroll"} && call.targetName.GetOr("") != ""
    requires policy.tierOfName(call.targetName.value) == Some(known)
    requires var declared := if call.declared.Some? then call.declared else call.request.risk;
             declared.Some? ==> Severity(declared.value) < Severity(known)
    requires forall tier | Severity(tier) >= Severity(known) && (call.actor, tier) in policy.dispositions ::
               policy.dispositions[(call.actor, tier)] in {AllowIfDeclared, AllowIfApproved, BlockAndEscalate}
    ensures !Authorize(sealing, policy, call).Allowed?
  {
    TheHighestSignalWins(policy, call.request, call.targetName, call.declared);
    hide Classify;
  }

  // ---------------------------------------------------------------- how far an approval reaches

  /** The approval covers this very content, sealed. */
  ghost predicate ApprovedItself(sealing: Sealing, grant: Grant, capability: Capability) {
    && grant.approval.Some? && grant.approval.value.state == Approved
    && HashIsValid(sealing, capability) && grant.approval.value.contentHash == sealing.hash(capability.body)
  }

  /** The approval covers a sealed base of which this is the placeholder filling. */
  ghost predicate ApprovedThroughItsBase(sealing: Sealing, grant: Grant, capability: Capability) {
    && grant.approval.Some? && grant.approval.value.state == Approved && grant.appliedBinding.Some?
    && var base, binding := grant.appliedBinding.value.base, grant.appliedBinding.value.binding;
       && HashIsValid(sealing, base) && grant.approval.value.contentHash == sealing.hash(base.body)
       && HashIsValid(sealing, capability)
       && binding.capabilityRef == Ref(base.body) && SubstitutesOnly(binding)
       && capability.body == Fill(base.body, binding.vars) && sealing.validates(capability.body)
  }

  lemma {:induction false} SubstitutingDerives(binding: TenantBinding, body: Doc)
    requires SubstitutesOnly(binding)
    ensures Derived(binding, body) ==
              if binding.capabilityRef != Ref(body) then Err(OtherCapability) else Ok(Fill(body, binding.vars))
  {
    hide Fill;
    var steps := Steps(body);
    assert forall k | 0 <= k < |steps| :: PatchOne(steps[k], binding.overrides) == Ok(steps[k]);
    NoRefusal(steps, binding.overrides, steps);
  }

  /** An approval permits what it was given for, and what filling that one's
      placeholders makes of it. Nothing else. */
  lemma {:induction false} AnApprovalReachesExactlyItsFillings(sealing: Sealing, grant: Grant, capability: Capability)
    requires Injective(sealing)
    ensures ApprovalRefusal(sealing, grant, capability).None? <==>
              ApprovedItself(sealing, grant, capability) || ApprovedThroughItsBase(sealing, grant, capability)
  {
    hide Fill, Derived, Ref;
    if grant.appliedBinding.Some? {
      var applied := grant.appliedBinding.value;
      VerifiedExactlyWhenDerived(sealing, applied, capability);
      if SubstitutesOnly(applied.binding) { SubstitutingDerives(applied.binding, applied.base.body); }
    }
  }

  /** Where only approved steps pass, the gates the policy asks for: the caller opted
      in, and the approval reaches the content of the capability that runs. */
  ghost predicate Unattended(sealing: Sealing, policy: Policy, call: Call) {
    && call.capability.Some? && call.grant.Some?
    && (policy.gates.requiresOptIn ==> call.grant.value.callerOptIn)
    && (policy.gates.requiresApproval ==>
          || ApprovedItself(sealing, call.grant.value, call.capability.value)
          || ApprovedThroughItsBase(sealing, call.grant.value, call.capability.value))
  }

  /** The whole chokepoint: a call is let through exactly when it is admissible and what
      the policy's table says for this actor at the worst tier given is there: the
      declaration of that very tier, a confirmation, or besides the declaration an
      approval that reaches what runs. Where the table says nothing, nothing passes. A
      confirmation is asked for exactly when the table asks for one and it is missing. */
  lemma {:induction false} AllowedExactlyWhen(sealing: Sealing, policy: Policy, call: Call)
    requires Injective(sealing)
    ensures var decision, tier := Authorize(sealing, policy, call), WorstGiven(policy, call);
            var listed := (call.actor, tier) in policy.dispositions;
            && (decision.Allowed? <==>
                  && Admissible(policy, call) && listed
                  && match policy.dispositions[(call.actor, tier)]
                     case Allow => true
                     case AllowIfDeclared => Declares(call, tier)
                     case RequireConfirmation => call.confirmed
                     case AllowIfApproved => Declares(call, tier) && Unattended(sealing, policy, call)
                     case BlockAndEscalate => false)
            && (decision.NeedsConfirmation? <==>
                  && Admissible(policy, call) && listed
                  && policy.dispositions[(call.actor, tier)] == RequireConfirmation && !call.confirmed)
            && (!decision.Denied? ==> decision.tier == tier)
            && (decision.Allowed? ==>
                  (decision.confirmed <==> policy.dispositions[(call.actor, tier)] == RequireConfirmation))
  {
    TheTierIsTheWorstGiven(policy, call);
    hide ApprovedItself, ApprovedThroughItsBase, ApprovalRefusal, Classify, Injective, WorstGiven, Given;
    if call.capability.Some? && call.grant.Some? {
      AnApprovalReachesExactlyItsFillings(sealing, call.grant.value, call.capability.value);
    }
  }

  /** A denial names the first thing amiss: who may do this at all, whether the capability
      lists it, where it leads; then what the table asks for at this tier and is not
      there. A caller who did not opt in is told so before anything about approvals. */
  lemma {:induction false} ADenialNamesTheFirstThingAmiss(sealing: Sealing, policy: Policy, call: Call)
    requires Authorize(sealing, policy, call).Denied?
    ensures var why, kind, tier := Authorize(sealing, policy, call).denial, call.request.kind, WorstGiven(policy, call);
            if kind == "raw_input" && call.actor != L.Human then why == HumanOnlyAction
            else if policy.allowed != {} && kind !in policy.allowed
                    && (kind !in policy.humanOnly || call.actor != L.Human) then why == ActionNotPermitted
            else if !Admissible(policy, call) then
              why == if call.capability.Some? && policy.narrowedTo(call.capability.value) != {}
                        && kind !in policy.narrowedTo(call.capability.value) then OutsideCapability
                     else NavigationBlocked
            else if (call.actor, tier) !in policy.dispositions then why == NeedsAHuman
            else
              match policy.dispositions[(call.actor, tier)]
              case Allow => false
              case RequireConfirmation => false
              case BlockAndEscalate => why == NeedsAHuman
              case AllowIfDeclared =>
                && !Declares(call, tier)
                && why == if call.declared.None? && call.request.risk.None? then NotDeclared else NotDeclaredAtTier
              case AllowIfApproved =>
                if !Declares(call, tier) then why == NotDeclaredAtTier
                else if call.capability.None? || call.grant.None? then why == NoApprovedCapability
                else
                  && why.GrantRefused?
                  && (why.refusal == NotOptedIn <==> policy.gates.requiresOptIn && !call.grant.value.callerOptIn)
                  && (why.refusal != NotOptedIn ==>
                        policy.gates.requiresApproval && RefusesFor(sealing, call.grant.value, call.capability.value,
                                                                    why.refusal))
  {
    TheTierIsTheWorstGiven(policy, call);
    hide Classify, WorstGiven, Given, Verify, HashIsValid, PermitsUnattended, SubstitutesOnly;
  }

  /** What keeps an approval from reaching the capability: there is none, or it is not for
      this content and nothing leads from what it is for to this; or what is said to lead
      there does not, or changes more than texts. */
  ghost predicate RefusesFor(sealing: Sealing, grant: Grant, capability: Capability, refusal: Refusal) {
    match refusal
    case NotOptedIn => false
    case NotDerived(problem) =>
      grant.appliedBinding.Some? && Verify(sealing, grant.appliedBinding.value, capability) == Some(problem)
    case BindingChangesBehaviour =>
      && grant.appliedBinding.Some? && Verify(sealing, grant.appliedBinding.value, capability).None?
      && !SubstitutesOnly(grant.appliedBinding.value.binding)
    case NotApproved =>
      || grant.approval.None? || grant.appliedBinding.None?
      || (&& Verify(sealing, grant.appliedBinding.value, capability).None?
          && SubstitutesOnly(grant.appliedBinding.value.binding)
          && !PermitsUnattended(grant.approval.value, grant.appliedBinding.value.base.contentHash))
  }

  /** So what runs unattended is what was approved, but for texts in which a
      placeholder stood. */
  lemma {:induction false} WhatRunsIsWhatWasApproved(sealing: Sealing, policy: Policy, call: Call, seen: Doc)
    requires Injective(sealing) && policy.gates.requiresApproval
    requires var place := (call.actor, WorstGiven(policy, call));
             place in policy.dispositions && policy.dispositions[place] == AllowIfApproved
    requires Authorize(sealing, policy, call).Allowed?
    requires call.grant.Some? && call.grant.value.approval.Some?
    requires call.grant.value.approval.value.contentHash == sealing.hash(seen)
    ensures call.capability.Some?
    ensures call.capability.value.body == seen ||
            (call.grant.value.appliedBinding.Some?
             && SameButForSlots(seen, call.capability.value.body, call.grant.value.appliedBinding.value.binding.vars))
  {
    hide Authorize, Fill, SameButForSlots, WorstGiven, Ref;
    AllowedExactlyWhen(sealing, policy, call);
    if ApprovedThroughItsBase(sealing, call.grant.value, call.capability.value) {
      FillingTouchesOnlySlots(seen, call.grant.value.appliedBinding.value.binding.vars);
    }
  }
}
