/** The log of a replay read as a story: what each dispatch was filled in with, what was
    read, which rule met which screen, and how its remedies were carried out. Nothing
    here is said in terms of what the engine does, only of the log, the surface's
    answers and the documents. */
module ReplayStory {
  import opened Outcomes
  import opened Snapshots
  import opened Capabilities
  import opened Replay
  import opened ReplayLaws
  import Bind
  import Names

  // ---------------------------------------------------------------- what is read

  /** The value of a node, or where that is empty its name. */
  function Shown(node: UiNode): string {
    if node.value.Some? && node.value.value != "" then node.value.value
    else if node.name.Some? then node.name.value else ""
  }

  predicate AllSpace(text: string) {
    forall i | 0 <= i < |text| :: Names.IsSpace(text[i])
  }

  /** What is read off a node: what it shows, under the declared transform; nothing when
      that is blank or the transform makes nothing of it. */
  function TextOn(env: Env, node: UiNode, transform: Option<string>): Option<string> {
    if AllSpace(Shown(node)) then None
    else
      match transform
      case None => Some(Shown(node))
      case Some(name) => if name == "" then Some(Shown(node)) else env.cfg.transform(name, Shown(node))
  }

  /** The outputs after one more event: only the dispatch of a read, by a step of this
      run, on a node that reads as something, changes them. */
  function AfterEvent(env: Env, isRemedy: bool, outputs: Bindings, e: Event): Bindings {
    if e.Dispatched? && e.isRemedy == isRemedy && e.origin.OfStep? && e.action.Extract? then
      var node := env.surface.execute(e.tick, e.action).node;
      var text := if node.Some? then TextOn(env, node.value, e.action.transform) else None;
      if text.Some? then outputs[e.action.into := text.value] else outputs
    else outputs
  }

  function ReadAlong(env: Env, isRemedy: bool, outputs: Bindings, log: seq<Event>): Bindings
    decreases |log|
  {
    if log == [] then outputs else ReadAlong(env, isRemedy, AfterEvent(env, isRemedy, outputs, log[0]), log[1..])
  }

  lemma {:induction false} ReadInTurn(env: Env, isRemedy: bool, outputs: Bindings, a: seq<Event>, b: seq<Event>)
    ensures ReadAlong(env, isRemedy, outputs, a + b)
            == ReadAlong(env, isRemedy, ReadAlong(env, isRemedy, outputs, a), b)
    decreases |a|
  {
    hide AfterEvent;
    if a == [] {
      assert a + b == b;
    } else {
      assert (a + b)[1..] == a[1..] + b;
      ReadInTurn(env, isRemedy, AfterEvent(env, isRemedy, outputs, a[0]), a[1..], b);
    }
  }

  // ---------------------------------------------------------------- what is filled in

  /** The text a value expression stands for. */
  predicate StandsFor(value: ValueExpr, inputs: Bindings, outputs: Bindings, secrets: Bind.Secrets, text: string) {
    match value
    case Literal(own) => text == own
    case InputRef(name) => name in inputs && text == inputs[name]
    case OutputRef(name) => name in outputs && text == outputs[name]
    case SecretRef(name) => secrets.Some? && (secrets.value)(name) == Some(text)
  }

  /** The action put to the surface is the declared one, with the value of what is typed
      or selected filled in. */
  ghost predicate FilledIn(declared: Action, inputs: Bindings, outputs: Bindings, secrets: Bind.Secrets,
                           action: Action)
  {
    match declared
    case Type(target, value) =>
      action.Type? && action.target == target && action.value.Literal?
      && StandsFor(value, inputs, outputs, secrets, action.value.text)
    case Select(target, value) =>
      action.Select? && action.target == target && action.value.Literal?
      && StandsFor(value, inputs, outputs, secrets, action.value.text)
    case _ => action == declared
  }

  lemma BindingFillsIn(declared: Action, inputs: Bindings, outputs: Bindings, secrets: Bind.Secrets, action: Action)
    requires Bind.BindAction(declared, inputs, outputs, secrets) == Ok(action)
    ensures FilledIn(declared, inputs, outputs, secrets, action)
  {
  }

  // ---------------------------------------------------------------- the parts of a story

  /** An event of the run's own, or the application of a rule with the parts of it that
      were begun. */
  datatype Block =
    | Own(event: Event)
    | Recovery(applied: Event, parts: seq<Part>)

  /** One remedy: an action put to the surface, or another capability's whole run. */
  datatype Part =
    | Did(call: Event)
    | Ran(capability: Capability, inputs: Bindings, blocks: seq<Block>)

  function Written(blocks: seq<Block>): seq<Event>
    decreases blocks
  {
    if blocks == [] then [] else BlockLog(blocks[0]) + Written(blocks[1..])
  }

  function BlockLog(b: Block): seq<Event>
    decreases b
  {
    match b
    case Own(event) => [event]
    case Recovery(applied, parts) => [applied] + PartsLog(parts)
  }

  function PartsLog(parts: seq<Part>): seq<Event>
    decreases parts
  {
    if parts == [] then [] else PartLog(parts[0]) + PartsLog(parts[1..])
  }

  function PartLog(part: Part): seq<Event>
    decreases part
  {
    match part
    case Did(call) => [call]
    case Ran(capability, _, blocks) => [RemedyStarted(capability)] + Written(blocks)
  }

  /** Whose run it is. */
  datatype Who = Who(capability: Capability, isRemedy: bool, inputs: Bindings)

  /** The rule that was applied is the first whose condition the screen it was applied on
      shows, no outcome explains that screen, and the run was within its duration. */
  ghost predicate MeetsItsScreen(env: Env, who: Who, applied: Event)
    requires applied.RuleApplied?
  {
    var screen := env.surface.observe(applied.seenAt);
    && applied.seenAt > 0 && !env.surface.overrun(applied.seenAt - 1)
    && (forall j | 0 <= j < |who.capability.outcomes| :: !who.capability.outcomes[j].detect(screen, who.inputs))
    && exists k :: 0 <= k < |who.capability.recovery| && IsFirstToMatch(who, screen, applied.rule, k)
  }

  ghost predicate IsFirstToMatch(who: Who, screen: UiSnapshot, rule: RecoveryRule, k: nat)
    requires k < |who.capability.recovery|
  {
    && who.capability.recovery[k] == rule && rule.detect(screen, who.inputs)
    && forall j | 0 <= j < k :: !who.capability.recovery[j].detect(screen, who.inputs)
  }

  /** What a remedy passes on, resolved against what the run has, validates as these
      inputs. */
  ghost predicate Supplies(env: Env, capability: Capability, values: map<string, ValueExpr>, inputs: Bindings,
                           outputs: Bindings, bound: Bindings)
  {
    exists supplied: Bindings ::
      && supplied.Keys == values.Keys
      && (forall name | name in values :: StandsFor(values[name], inputs, outputs, None, supplied[name]))
      && env.cfg.validate(capability, supplied) == Some(bound)
  }

  /** The capability a remedy names may be run by this run. */
  ghost predicate MayRun(env: Env, who: Who, id: string, capability: Capability) {
    && !who.isRemedy && id != who.capability.id
    && env.cfg.capabilities.Some? && (env.cfg.capabilities.value)(id) == Some(capability)
    && env.cfg.hashIsValid(capability) && !env.cfg.gateRefuses(capability)
    && |capability.steps| <= env.cfg.maxSteps && |capability.steps| <= capability.maxSteps
  }

  /** This part is this remedy, begun. */
  ghost predicate Begins(env: Env, who: Who, outputs: Bindings, remedy: Remedy, part: Part)
    decreases part, 1
  {
    match remedy
    case Act(action) => part.Did? && part.call.Dispatched? && part.call == Dispatched(who.isRemedy, OfRemedy, action,
           part.call.tick)
    case RunCapability(id, values) =>
      && part.Ran? && MayRun(env, who, id, part.capability)
      && Supplies(env, part.capability, values, who.inputs, outputs, part.inputs)
      && Story(env, Who(part.capability, true, part.inputs), map[], 0, part.blocks)
  }

  /** It was carried out: the surface accepted the action, or the other capability's run
      ended on its checkpoint. */
  ghost predicate CarriedOut(env: Env, part: Part) {
    match part
    case Did(call) => call.Dispatched? && env.surface.execute(call.tick, call.action).status == DispatchOk
    case Ran(capability, inputs, blocks) =>
      var log := Written(blocks);
      && log != [] && log[|log| - 1].CheckpointMet? && log[|log| - 1].isRemedy
      && log[|log| - 1].capability == capability && log[|log| - 1].inputs == inputs
  }

  /** Some remedy of the rule was not carried out. */
  ghost predicate Cut(env: Env, b: Block) {
    b.Recovery? && b.applied.RuleApplied?
    && (|b.parts| < |b.applied.rule.remedy| || exists i :: 0 <= i < |b.parts| && !CarriedOut(env, b.parts[i]))
  }

  ghost predicate Whole(env: Env, blocks: seq<Block>) {
    forall i | 0 <= i < |blocks| :: !Cut(env, blocks[i])
  }

  /** One block, given the outputs read so far and how many times in a row rules were
      applied before it. */
  ghost predicate BlockTells(env: Env, who: Who, outputs: Bindings, prior: nat, b: Block)
    decreases b
  {
    match b
    case Own(e) => OwnTells(env, who, outputs, e)
    case Recovery(applied, parts) =>
      && applied.RuleApplied? && applied.isRemedy == who.isRemedy
      && applied.attempt == prior + 1 <= applied.rule.maxAttempts && MeetsItsScreen(env, who, applied)
      && |parts| <= |applied.rule.remedy|
      && (forall i | 0 <= i < |parts| :: Begins(env, who, outputs, applied.rule.remedy[i], parts[i]))
      && (forall i | 0 <= i < |parts| - 1 :: CarriedOut(env, parts[i]))
  }

  ghost predicate OwnTells(env: Env, who: Who, outputs: Bindings, e: Event) {
    match e
    case RuleApplied(_, _, _, _) => false
    case RemedyStarted(_) => false
    case Escalated => !who.isRemedy
    case Dispatched(isRemedy, origin, action, _) =>
      && isRemedy == who.isRemedy && origin.OfStep? && origin.index < |who.capability.steps|
      && FilledIn(who.capability.steps[origin.index].action, who.inputs, outputs, env.cfg.secrets, action)
    case _ => e.isRemedy == who.isRemedy
  }

  /** How many times in a row rules have been applied after this block. */
  function InARow(b: Block): nat {
    if b.Recovery? && b.applied.RuleApplied? then b.applied.attempt else 0
  }

  /** Block by block: a rule some remedy of which failed is the end, but for the call for
      a person. */
  ghost predicate Story(env: Env, who: Who, outputs: Bindings, prior: nat, blocks: seq<Block>)
    decreases blocks, 2
  {
    blocks != [] ==>
      && BlockTells(env, who, outputs, prior, blocks[0])
      && (Cut(env, blocks[0]) ==> blocks[1..] == [] || blocks[1..] == [Own(Escalated)])
      && Story(env, who, ReadAlong(env, who.isRemedy, outputs, BlockLog(blocks[0])), InARow(blocks[0]), blocks[1..])
  }
}
