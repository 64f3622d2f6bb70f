/** `domain/tenant_binding.py`: what one institution changes in a shared capability, and
    the proof that a capability is a binding applied to its base. */
module TenantBindings {
  import opened Outcomes
  import opened Documents

  /** A sealed artifact: its content, and the hash it claims for it. */
  datatype Capability = Capability(body: Doc, contentHash: string)

  /** Hashing and schema validation. A document that validates is already the form it is
      dumped back in. */
  datatype Sealing = Sealing(hash: Doc -> string, validates: Doc -> bool)

  predicate HashIsValid(sealing: Sealing, capability: Capability) {
    capability.contentHash != "" && capability.contentHash == sealing.hash(capability.body)
  }

  function Ref(body: Doc): string {
    TextAt(body, "id") + "@" + TextAt(body, "version")
  }

  type Vars = seq<(string, string)>

  datatype StepOverride = StepOverride(
    target: Option<map<string, Doc>>,
    wait: Option<Doc>,
    precondition: Option<Doc>,
    postcondition: Option<Doc>)

  datatype TenantBinding = TenantBinding(
    capabilityRef: string,
    tenant: string,
    vars: Vars,
    overrides: map<string, StepOverride>,
    recoveryExtra: seq<Doc>,
    checkpoint: Option<Doc>)

  predicate SubstitutesOnly(binding: TenantBinding) {
    binding.overrides == map[] && binding.recoveryExtra == [] && binding.checkpoint.None?
  }

  // ---------------------------------------------------------------- placeholders

  function Slot(name: string): (slot: string)
    ensures slot != []
  {
    "{" + name + "}"
  }

  /** `s.replace(slot, value)`: left to right, without looking at what was put in. */
  function ReplaceAll(s: string, slot: string, value: string): string
    requires slot != []
    decreases |s|
  {
    if s == [] then ""
    else if slot <= s then value + ReplaceAll(s[|slot|..], slot, value)
    else [s[0]] + ReplaceAll(s[1..], slot, value)
  }

  function FilledText(text: string, vars: Vars): string
    decreases |vars|
  {
    if vars == [] then text else FilledText(ReplaceAll(text, Slot(vars[0].0), vars[0].1), vars[1..])
  }

  method FillText(text: string, vars: Vars) returns (filled: string)
    ensures filled == FilledText(text, vars)
  {
    filled := text;
    for i := 0 to |vars|
      invariant FilledText(text, vars) == FilledText(filled, vars[i..])
    {
      filled := ReplaceAll(filled, Slot(vars[i].0), vars[i].1);
      assert vars[i..][1..] == vars[i + 1..];
    }
  }

  function Fill(d: Doc, vars: Vars): Doc
    decreases d
  {
    match d
    case Text(text) => Text(FilledText(text, vars))
    case Items(items) => Items(seq(|items|, i requires 0 <= i < |items| => Fill(items[i], vars)))
    case Dict(fields) => Dict(map key | key in fields :: Fill(fields[key], vars))
    case _ => d
  }

  ghost predicate Occurs(slot: string, s: string) {
    exists i :: 0 <= i <= |s| && slot <= s[i..]
  }

  /** Some placeholder the binding fills stands in this text. */
  ghost predicate HasSlot(s: string, vars: Vars) {
    exists i :: 0 <= i < |vars| && Occurs(Slot(vars[i].0), s)
  }

  lemma {:induction false} NothingToReplace(s: string, slot: string, value: string)
    requires slot != [] && !Occurs(slot, s)
    ensures ReplaceAll(s, slot, value) == s
    decreases |s|
  {
    if s != [] {
      assert s[0..] == s;
      forall i | 0 <= i <= |s[1..]| ensures !(slot <= s[1..][i..]) {
        assert s[1..][i..] == s[i + 1..];
      }
      NothingToReplace(s[1..], slot, value);
    }
  }

  function Joined(pieces: seq<string>, between: string): string {
    if pieces == [] then ""
    else if |pieces| == 1 then pieces[0]
    else pieces[0] + between + Joined(pieces[1..], between)
  }

  /** The text up to the slot that follows it holds no slot that starts earlier. */
  ghost predicate NoneEarlier(piece: string, slot: string) {
    forall k | 0 <= k < |piece| :: !(slot <= (piece + slot)[k..])
  }

  /** These are the stretches of `s` between one slot and the next, found from the left,
      and `r` is the same stretches with the value between them. */
  ghost predicate SwappedAt(s: string, slot: string, value: string, r: string, pieces: seq<string>) {
    && pieces != [] && s == Joined(pieces, slot) && r == Joined(pieces, value)
    && (forall i | 0 <= i < |pieces| - 1 :: NoneEarlier(pieces[i], slot))
    && !Occurs(slot, pieces[|pieces| - 1])
  }

  ghost predicate Swapped(s: string, slot: string, value: string, r: string) {
    exists pieces :: SwappedAt(s, slot, value, r, pieces)
  }

  /** Where a slot stood its value stands now, and everything around it is as it was. */
  lemma {:induction false} ReplacingSwaps(s: string, slot: string, value: string)
    requires slot != []
    ensures Swapped(s, slot, value, ReplaceAll(s, slot, value))
    decreases |s|
  {
    hide SwappedAt;
    if s == [] {
      NothingSwapped(slot, value);
    } else if slot <= s {
      var rest := s[|slot|..];
      ReplacingSwaps(rest, slot, value);
      var pieces :| SwappedAt(rest, slot, value, ReplaceAll(rest, slot, value), pieces);
      OneSlotBefore(s, slot, value, ReplaceAll(rest, slot, value), pieces);
    } else {
      ReplacingSwaps(s[1..], slot, value);
      SwappedSomewhere(s[1..], slot, value, ReplaceAll(s[1..], slot, value));
      var pieces :| SwappedAt(s[1..], slot, value, ReplaceAll(s[1..], slot, value), pieces) && pieces != [];
      OneCharBefore(s, slot, value, ReplaceAll(s[1..], slot, value), pieces);
      assert ReplaceAll(s, slot, value) == [s[0]] + ReplaceAll(s[1..], slot, value);
    }
  }

  lemma SwappedSomewhere(s: string, slot: string, value: string, r: string)
    requires Swapped(s, slot, value, r)
    ensures exists pieces :: SwappedAt(s, slot, value, r, pieces) && pieces != []
  {
  }

  lemma NothingSwapped(slot: string, value: string)
    requires slot != []
    ensures SwappedAt("", slot, value, "", [""])
  {
  }

  lemma {:induction false} OneSlotBefore(s: string, slot: string, value: string, r: string, pieces: seq<string>)
    requires slot != [] && slot <= s && SwappedAt(s[|slot|..], slot, value, r, pieces)
    ensures SwappedAt(s, slot, value, value + r, [""] + pieces)
  {
    hide NoneEarlier, Occurs;
    var longer := [""] + pieces;
    assert longer[1..] == pieces && s == slot + s[|slot|..];
    assert "" + slot + Joined(pieces, slot) == slot + Joined(pieces, slot);
    assert "" + value + Joined(pieces, value) == value + Joined(pieces, value);
    NothingIsEarlier(slot);
    assert forall i | 1 <= i < |longer| :: longer[i] == pieces[i - 1];
  }

  lemma NothingIsEarlier(slot: string)
    ensures NoneEarlier("", slot)
  {
  }

  lemma {:induction false} OneCharBefore(s: string, slot: string, value: string, r: string, pieces: seq<string>)
    requires slot != [] && s != [] && !(slot <= s) && SwappedAt(s[1..], slot, value, r, pieces)
    ensures SwappedAt(s, slot, value, [s[0]] + r, [[s[0]] + pieces[0]] + pieces[1..])
  {
    hide NoneEarlier, Occurs;
    var first := [s[0]] + pieces[0];
    var longer := [first] + pieces[1..];
    LongerByAChar(s[0], pieces, slot);
    LongerByAChar(s[0], pieces, value);
    assert s == [s[0]] + s[1..];
    if |pieces| == 1 {
      StillNone(s, slot);
    } else {
      var rest := Joined(pieces[1..], slot);
      assert s[1..] == pieces[0] + slot + rest;
      assert s == [s[0]] + pieces[0] + slot + rest;
      StillNoneEarlier(s, slot, pieces[0], rest);
    }
    hide Joined;
    forall i | 0 <= i < |longer| - 1 ensures NoneEarlier(longer[i], slot) {
      if i > 0 { assert longer[i] == pieces[i]; }
    }
    assert |pieces| > 1 ==> longer[|longer| - 1] == pieces[|pieces| - 1];
  }

  lemma LongerByAChar(c: char, pieces: seq<string>, between: string)
    requires pieces != []
    ensures Joined([[c] + pieces[0]] + pieces[1..], between) == [c] + Joined(pieces, between)
  {
    var longer := [[c] + pieces[0]] + pieces[1..];
    assert longer[1..] == pieces[1..];
    if |pieces| > 1 {
      var rest := Joined(pieces[1..], between);
      assert Joined(longer, between) == [c] + pieces[0] + between + rest;
    }
  }

  lemma {:induction false} StillNone(s: string, slot: string)
    requires s != [] && !(slot <= s) && !Occurs(slot, s[1..])
    ensures !Occurs(slot, s)
  {
    forall k | 0 <= k <= |s| ensures !(slot <= s[k..]) {
      if k > 0 { assert s[k..] == s[1..][k - 1..]; }
    }
  }

  lemma {:induction false} StillNoneEarlier(s: string, slot: string, piece: string, rest: string)
    requires s != [] && !(slot <= s) && s == [s[0]] + piece + slot + rest && NoneEarlier(piece, slot)
    ensures NoneEarlier([s[0]] + piece, slot)
  {
    var first := [s[0]] + piece;
    forall k | 0 <= k < |first| ensures !(slot <= (first + slot)[k..]) {
      if k > 0 {
        assert (first + slot)[k..] == (piece + slot)[k - 1..];
      } else {
        assert first + slot <= s;
      }
    }
  }

  /** The values are put in for their slots one variable after another. */
  ghost predicate FilledThrough(text: string, vars: Vars, r: string)
    decreases |vars|
  {
    if vars == [] then r == text
    else exists next :: Swapped(text, Slot(vars[0].0), vars[0].1, next) && FilledThrough(next, vars[1..], r)
  }

  lemma {:induction false} FillingSwaps(text: string, vars: Vars)
    ensures FilledThrough(text, vars, FilledText(text, vars))
    decreases |vars|
  {
    hide Swapped;
    if vars != [] {
      ReplacingSwaps(text, Slot(vars[0].0), vars[0].1);
      FillingSwaps(ReplaceAll(text, Slot(vars[0].0), vars[0].1), vars[1..]);
    }
  }

  lemma {:induction false} SlotlessTextIsKept(text: string, vars: Vars)
    requires !HasSlot(text, vars)
    ensures FilledText(text, vars) == text
    decreases |vars|
  {
    if vars != [] {
      assert !Occurs(Slot(vars[0].0), text);
      NothingToReplace(text, Slot(vars[0].0), vars[0].1);
      assert forall i | 0 <= i < |vars[1..]| :: vars[1..][i] == vars[i + 1];
      SlotlessTextIsKept(text, vars[1..]);
    }
  }

  lemma BracelessTextHasNoSlot(text: string, vars: Vars)
    requires '{' !in text
    ensures !HasSlot(text, vars)
  {
    forall i | 0 <= i < |vars| ensures !Occurs(Slot(vars[i].0), text) {
      forall k | 0 <= k <= |text| ensures !(Slot(vars[i].0) <= text[k..]) {
        assert Slot(vars[i].0)[0] == '{';
        assert k < |text| ==> text[k..][0] == text[k] && text[k] in text;
      }
    }
  }

  /** The same tree, but for texts in which one of the placeholders stands; those have
      the values in their places. */
  ghost predicate SameButForSlots(a: Doc, b: Doc, vars: Vars)
    decreases a
  {
    match (a, b)
    case (Text(s), Text(r)) => (s == r || HasSlot(s, vars)) && FilledThrough(s, vars, r)
    case (Items(s), Items(r)) => |s| == |r| && forall i | 0 <= i < |s| :: SameButForSlots(s[i], r[i], vars)
    case (Dict(s), Dict(r)) => s.Keys == r.Keys && forall key | key in s :: SameButForSlots(s[key], r[key], vars)
    case _ => a == b
  }

  /** Filling placeholders changes nothing about a document but the texts that hold one. */
  lemma {:induction false} FillingTouchesOnlySlots(d: Doc, vars: Vars)
    ensures SameButForSlots(d, Fill(d, vars), vars)
    decreases d
  {
    match d
    case Text(text) =>
      FillingSwaps(text, vars);
      if !HasSlot(text, vars) { SlotlessTextIsKept(text, vars); }
    case Items(items) => forall i | 0 <= i < |items| { FillingTouchesOnlySlots(items[i], vars); }
    case Dict(fields) => forall key | key in fields { FillingTouchesOnlySlots(fields[key], vars); }
    case _ =>
  }

  // ---------------------------------------------------------------- applying a binding

  datatype ApplyError = OtherCapability | UnknownSteps | StepHasNoTarget(id: string) | DoesNotValidate

  function Steps(body: Doc): seq<Doc> {
    ItemsAt(body, "steps")
  }

  predicate KnowsItsSteps(binding: TenantBinding, body: Doc) {
    forall id | id in binding.overrides :: exists i :: 0 <= i < |Steps(body)| && TextAt(Steps(body)[i], "id") == id
  }

  function SetIf(d: Doc, key: string, value: Option<Doc>): Doc {
    if value.Some? then Set(d, key, value.value) else d
  }

  function PatchStep(step: Doc, override: StepOverride): Result<Doc, ApplyError> {
    var target := Get(Get(step, "action"), "target");
    if override.target.Some? && target.Null? then Err(StepHasNoTarget(TextAt(step, "id")))
    else
      var retargeted :=
        if override.target.None? then step
        else Set(step, "action", Set(Get(step, "action"), "target", Update(target, override.target.value)));
      Ok(SetIf(SetIf(SetIf(retargeted, "wait", override.wait), "precondition", override.precondition),
               "postcondition", override.postcondition))
  }

  function PatchOne(step: Doc, overrides: map<string, StepOverride>): Result<Doc, ApplyError> {
    if TextAt(step, "id") in overrides then PatchStep(step, overrides[TextAt(step, "id")]) else Ok(step)
  }

  function PatchSteps(steps: seq<Doc>, overrides: map<string, StepOverride>): (r: Result<seq<Doc>, ApplyError>)
    ensures r.Ok? ==> |r.value| == |steps|
                      && forall i | 0 <= i < |steps| :: PatchOne(steps[i], overrides) == Ok(r.value[i])
  {
    if steps == [] then Ok([])
    else
      var first := PatchOne(steps[0], overrides);
      if first.Err? then Err(first.error)
      else
        var rest := PatchSteps(steps[1..], overrides);
        if rest.Err? then rest else Ok([first.value] + rest.value)
  }

  /** The document the binding makes of the base, before it is sealed. */
  function Derived(binding: TenantBinding, body: Doc): Result<Doc, ApplyError> {
    if binding.capabilityRef != Ref(body) then Err(OtherCapability)
    else if !KnowsItsSteps(binding, body) then Err(UnknownSteps)
    else
      var steps := PatchSteps(Steps(body), binding.overrides);
      if steps.Err? then Err(steps.error)
      else Ok(Fill(Assembled(binding, body, steps.value), binding.vars))
  }

  /** The base with its patched steps, the checkpoint and the added recovery rules. */
  function Assembled(binding: TenantBinding, body: Doc, steps: seq<Doc>): Doc {
    var patched := if binding.overrides == map[] then body else Set(body, "steps", Items(steps));
    var checked := SetIf(patched, "checkpoint", binding.checkpoint);
    if binding.recoveryExtra == [] then checked
    else Set(checked, "recovery", Items(ItemsAt(checked, "recovery") + binding.recoveryExtra))
  }

  function Applied(sealing: Sealing, binding: TenantBinding, capability: Capability): Result<Capability, ApplyError> {
    var derived := Derived(binding, capability.body);
    if derived.Err? then Err(derived.error)
    else if !sealing.validates(derived.value) then Err(DoesNotValidate)
    else Ok(Capability(derived.value, sealing.hash(derived.value)))
  }

  /** `apply`: patch the dumped steps in place, then fill, validate and reseal. */
  method Apply(sealing: Sealing, binding: TenantBinding, capability: Capability)
    returns (r: Result<Capability, ApplyError>)
    ensures r == Applied(sealing, binding, capability)
  {
    var body := capability.body;
    if binding.capabilityRef != Ref(body) {
      return Err(OtherCapability);
    }
    if !KnowsItsSteps(binding, body) {
      return Err(UnknownSteps);
    }
    var steps := Steps(body);
    ghost var before := steps;
    for i := 0 to |steps|
      invariant |steps| == |before| && steps[i..] == before[i..]
      invariant forall k | 0 <= k < i :: PatchOne(before[k], binding.overrides) == Ok(steps[k])
    {
      if TextAt(steps[i], "id") in binding.overrides {
        assert before[i..][0] == steps[i..][0];
        var patched := PatchStep(steps[i], binding.overrides[TextAt(steps[i], "id")]);
        if patched.Err? {
          FirstRefusal(before, binding.overrides, i);
          return Err(patched.error);
        }
        steps := steps[i := patched.value];
      }
    }
    NoRefusal(before, binding.overrides, steps);
    var payload := if binding.overrides == map[] then body else Set(body, "steps", Items(steps));
    if binding.checkpoint.Some? {
      payload := Set(payload, "checkpoint", binding.checkpoint.value);
    }
    if binding.recoveryExtra != [] {
      payload := Set(payload, "recovery", Items(ItemsAt(payload, "recovery") + binding.recoveryExtra));
    }
    payload := Fill(payload, binding.vars);
    return if sealing.validates(payload) then Ok(Capability(payload, sealing.hash(payload))) else Err(DoesNotValidate);
  }

  lemma {:induction false} FirstRefusal(steps: seq<Doc>, overrides: map<string, StepOverride>, i: nat)
    requires i < |steps| && PatchOne(steps[i], overrides).Err?
    requires forall k | 0 <= k < i :: PatchOne(steps[k], overrides).Ok?
    ensures PatchSteps(steps, overrides) == Err(PatchOne(steps[i], overrides).error)
  {
    if i > 0 {
      assert forall k | 0 <= k < |steps[1..]| :: steps[1..][k] == steps[k + 1];
      FirstRefusal(steps[1..], overrides, i - 1);
    }
  }

  lemma {:induction false} NoRefusal(steps: seq<Doc>, overrides: map<string, StepOverride>, patched: seq<Doc>)
    requires |patched| == |steps| && forall k | 0 <= k < |steps| :: PatchOne(steps[k], overrides) == Ok(patched[k])
    ensures PatchSteps(steps, overrides) == Ok(patched)
  {
    if steps != [] {
      assert forall k | 0 <= k < |steps[1..]| :: steps[1..][k] == steps[k + 1] && patched[1..][k] == patched[k + 1];
      NoRefusal(steps[1..], overrides, patched[1..]);
      assert patched == [patched[0]] + patched[1..];
    }
  }

  // ---------------------------------------------------------------- what a binding may touch

  lemma FillKeepsKeys(d: Doc, vars: Vars)
    ensures forall key :: Get(Fill(d, vars), key) == Fill(Get(d, key), vars)
    ensures forall key :: |ItemsAt(Fill(d, vars), key)| == |ItemsAt(d, key)|
                          && forall i | 0 <= i < |ItemsAt(d, key)| ::
                               ItemsAt(Fill(d, vars), key)[i] == Fill(ItemsAt(d, key)[i], vars)
  {
  }

  /** A binding reaches the steps it names, the checkpoint, the recovery rules it adds,
      and placeholders; nothing else. A named step has what the binding says of its
      target's fields, its wait and its conditions, and keeps the rest. What comes of it
      is valid and sealed under its own hash. */
  lemma {:induction false} ABindingStaysInItsPlace(sealing: Sealing, binding: TenantBinding, capability: Capability)
    requires Applied(sealing, binding, capability).Ok?
    ensures var base, made := capability.body, Applied(sealing, binding, capability).value.body;
            && (forall key | key !in {"steps", "checkpoint", "recovery"} :: Get(made, key) == Fill(Get(base, key),
                   binding.vars))
            && Get(made, "checkpoint") == Fill(binding.checkpoint.GetOr(Get(base, "checkpoint")), binding.vars)
            && |ItemsAt(made, "recovery")| == |ItemsAt(base, "recovery")| + |binding.recoveryExtra|
            && (forall i | 0 <= i < |ItemsAt(base, "recovery")| ::
                  ItemsAt(made, "recovery")[i] == Fill(ItemsAt(base, "recovery")[i], binding.vars))
            && (forall i | 0 <= i < |binding.recoveryExtra| ::
                  ItemsAt(made, "recovery")[|ItemsAt(base, "recovery")| + i]
                  == Fill(binding.recoveryExtra[i], binding.vars))
            && Applied(sealing, binding, capability).value.contentHash == sealing.hash(made) && sealing.validates(made)
            && |Steps(made)| == |Steps(base)|
            && forall i | 0 <= i < |Steps(base)| :: StepKept(Steps(base)[i], Steps(made)[i], binding)
  {
    hide Fill, PatchOne, PatchSteps, StepKept, KnowsItsSteps, Assembled;
    var base := capability.body;
    var steps := PatchSteps(Steps(base), binding.overrides).value;
    AssembledFrom(binding, base, steps);
    FillKeepsKeys(Assembled(binding, base, steps), binding.vars);
    forall i | 0 <= i < |Steps(base)| ensures StepKept(Steps(base)[i], Fill(steps[i], binding.vars), binding) {
      assert PatchOne(Steps(base)[i], binding.overrides) == Ok(steps[i]);
      PatchKeeps(Steps(base)[i], binding);
    }
  }

  lemma AssembledFrom(binding: TenantBinding, body: Doc, steps: seq<Doc>)
    requires PatchSteps(Steps(body), binding.overrides) == Ok(steps)
    ensures var d := Assembled(binding, body, steps);
            && (forall key | key !in {"steps", "checkpoint", "recovery"} :: Get(d, key) == Get(body, key))
            && Get(d, "checkpoint") == binding.checkpoint.GetOr(Get(body, "checkpoint"))
            && ItemsAt(d, "recovery") == ItemsAt(body, "recovery") + binding.recoveryExtra
            && Steps(d) == steps
  {
    hide PatchSteps, Set;
    assert forall i | 0 <= i < |steps| :: PatchOne(Steps(body)[i], binding.overrides) == Ok(steps[i]);
    if binding.overrides == map[] { assert steps == Steps(body); }
  }

  /** A binding applies exactly when it is for this version of this capability, names
      only steps it has, retargets only steps with a target, and makes something valid. */
  lemma {:induction false} ABindingAppliesExactlyWhen(sealing: Sealing, binding: TenantBinding, capability: Capability)
    ensures var base := capability.body;
            Applied(sealing, binding, capability).Ok? <==>
              && binding.capabilityRef == TextAt(base, "id") + "@" + TextAt(base, "version")
              && (forall id | id in binding.overrides :: exists i :: 0 <= i < |Steps(base)|
                                                                   && TextAt(Steps(base)[i], "id") == id)
              && (forall i | 0 <= i < |Steps(base)| && TextAt(Steps(base)[i], "id") in binding.overrides ::
                    binding.overrides[TextAt(Steps(base)[i], "id")].target.Some? ==>
                      !Get(Get(Steps(base)[i], "action"), "target").Null?)
              && (Derived(binding, base).Ok? ==> sealing.validates(Derived(binding, base).value))
  {
    hide Fill, Set, Update, SetIf, Get, TextAt;
    StepsAreRefusedExactlyWhen(Steps(capability.body), binding.overrides);
  }

  lemma {:induction false} StepsAreRefusedExactlyWhen(steps: seq<Doc>, overrides: map<string, StepOverride>)
    ensures PatchSteps(steps, overrides).Ok? <==>
              forall i | 0 <= i < |steps| && TextAt(steps[i], "id") in overrides ::
                overrides[TextAt(steps[i], "id")].target.Some? ==> !Get(Get(steps[i], "action"), "target").Null?
  {
    hide Set, Update, SetIf, Get, TextAt;
    if steps != [] {
      assert forall i | 0 <= i < |steps[1..]| :: steps[1..][i] == steps[i + 1];
      StepsAreRefusedExactlyWhen(steps[1..], overrides);
      assert forall i | 1 <= i < |steps| :: steps[i] == steps[1..][i - 1];
    }
  }

  /** What a step is after a binding. */
  ghost predicate StepKept(base: Doc, made: Doc, binding: TenantBinding) {
    if TextAt(base, "id") !in binding.overrides then made == Fill(base, binding.vars)
    else
      var o := binding.overrides[TextAt(base, "id")];
      && Get(made, "wait") == Fill(o.wait.GetOr(Get(base, "wait")), binding.vars)
      && Get(made, "precondition") == Fill(o.precondition.GetOr(Get(base, "precondition")), binding.vars)
      && Get(made, "postcondition") == Fill(o.postcondition.GetOr(Get(base, "postcondition")), binding.vars)
      && (o.target.Some? ==>
            forall key | key in o.target.value ::
              Get(Get(Get(made, "action"), "target"), key) == Fill(o.target.value[key], binding.vars))
      && (forall key | key !in {"action", "wait", "precondition", "postcondition"} ::
            Get(made, key) == Fill(Get(base, key), binding.vars))
      && (forall key | key != "target" ::
            Get(Get(made, "action"), key) == Fill(Get(Get(base, "action"), key), binding.vars))
      && (forall key | o.target.None? || key !in o.target.value ::
            Get(Get(Get(made, "action"), "target"), key)
            == Fill(Get(Get(Get(base, "action"), "target"), key), binding.vars))
  }

  lemma {:induction false} PatchKeeps(step: Doc, binding: TenantBinding)
    requires PatchOne(step, binding.overrides).Ok?
    ensures StepKept(step, Fill(PatchOne(step, binding.overrides).value, binding.vars), binding)
  {
    hide Fill, Set, Update, Get, TextAt;
    if TextAt(step, "id") in binding.overrides {
      var patched := PatchOne(step, binding.overrides).value;
      PatchedStepKeeps(step, binding.overrides[TextAt(step, "id")], patched);
      FillKeepsKeys(patched, binding.vars);
      FillKeepsKeys(Get(patched, "action"), binding.vars);
      FillKeepsKeys(Get(Get(patched, "action"), "target"), binding.vars);
    }
  }

  lemma PatchedStepKeeps(step: Doc, override: StepOverride, patched: Doc)
    requires PatchStep(step, override) == Ok(patched)
    ensures forall key | key !in {"action", "wait", "precondition", "postcondition"} ::
              Get(patched, key) == Get(step, key)
    ensures forall key | key != "target" :: Get(Get(patched, "action"), key) == Get(Get(step, "action"), key)
    ensures forall key | override.target.None? || key !in override.target.value ::
              Get(Get(Get(patched, "action"), "target"), key) == Get(Get(Get(step, "action"), "target"), key)
    ensures override.target.Some? ==>
              forall key | key in override.target.value ::
                Get(Get(Get(patched, "action"), "target"), key) == override.target.value[key]
    ensures Get(patched, "wait") == override.wait.GetOr(Get(step, "wait"))
    ensures Get(patched, "precondition") == override.precondition.GetOr(Get(step, "precondition"))
    ensures Get(patched, "postcondition") == override.postcondition.GetOr(Get(step, "postcondition"))
  {
    hide Set, Update, Get, TextAt;
    var target := Get(Get(step, "action"), "target");
    var retargeted :=
      if override.target.None? then step
      else Set(step, "action", Set(Get(step, "action"), "target", Update(target, override.target.value)));
    assert Get(patched, "action") == Get(retargeted, "action");
  }

  // ---------------------------------------------------------------- proving a derivation

  datatype AppliedBinding = AppliedBinding(base: Capability, binding: TenantBinding)

  datatype Problem = BaseUnsealed | EffectiveUnsealed | DoesNotApply(error: ApplyError) | ChangedAfterBinding

  function Verify(sealing: Sealing, applied: AppliedBinding, effective: Capability): Option<Problem> {
    if !HashIsValid(sealing, applied.base) then Some(BaseUnsealed)
    else if !HashIsValid(sealing, effective) then Some(EffectiveUnsealed)
    else
      match Applied(sealing, applied.binding, applied.base)
      case Err(error) => Some(DoesNotApply(error))
      case Ok(derived) => if derived.contentHash != effective.contentHash then Some(ChangedAfterBinding) else None
  }

  /** Different contents have different hashes. */
  ghost predicate Injective(sealing: Sealing) {
    forall a, b :: sealing.hash(a) == sealing.hash(b) ==> a == b
  }

  /** No problem is found exactly when both ends are sealed and the capability about to
      run is the binding's own product. */
  lemma {:induction false} VerifiedExactlyWhenDerived(sealing: Sealing, applied: AppliedBinding, effective: Capability)
    requires Injective(sealing)
    ensures Verify(sealing, applied, effective).None? <==>
              && HashIsValid(sealing, applied.base) && HashIsValid(sealing, effective)
              && Applied(sealing, applied.binding, applied.base).Ok?
              && effective.body == Applied(sealing, applied.binding, applied.base).value.body
  {
  }
}
