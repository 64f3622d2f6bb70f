/** `recorder/compile.py`: a discovery run becomes steps with lifted parameters, and
    binding those parameters to what was typed gives the run back. */
module Compile {
  import opened Outcomes
  import opened Targets
  import opened Capabilities
  import opened Bind

  /** One step of a discovery run, as far as the compiler reads it. */
  datatype Found = Found(
    index: nat,
    tool: string,
    text: string,                     // what `type_text` typed
    choice: string,                   // what `select_option` chose
    key: string,                      // what `press_key` pressed
    descriptor: Option<TargetDescriptor>,
    extracted: Option<(string, string)>)

  /** Naming and the words of the goal, which nothing here looks into. */
  datatype Wording = Wording(snake: string -> string, inGoal: string -> bool)

  datatype InputSpec = InputSpec(name: string, example: string)

  // ---------------------------------------------------------------- lifting inputs

  function LabelOf(step: Found): Option<string> {
    if step.descriptor.None? then None
    else
      var d := step.descriptor.value;
      if d.name.Some? && d.name.value.value != "" then Some(d.name.value.value)
      else if d.anchor.Some? then Some(d.anchor.value.text)
      else None
  }

  function NameFor(wording: Wording, step: Found): string {
    wording.snake(if LabelOf(step).GetOr("") == "" then "input" else LabelOf(step).value)
  }

  predicate Liftable(wording: Wording, step: Found) {
    step.tool == "type_text" && step.text != "" && wording.inGoal(step.text)
  }

  datatype Lifted = Lifted(inputs: seq<InputSpec>, values: map<string, string>)

  function LiftOne(wording: Wording, before: Lifted, step: Found): Lifted {
    var name := NameFor(wording, step);
    if !Liftable(wording, step) || name in before.values then before
    else Lifted(before.inputs + [InputSpec(name, step.text)], before.values[name := step.text])
  }

  function Lift(wording: Wording, steps: seq<Found>): Lifted {
    if steps == [] then Lifted([], map[])
    else LiftOne(wording, Lift(wording, steps[..|steps| - 1]), steps[|steps| - 1])
  }

  /** `_lift_inputs` */
  method LiftInputs(wording: Wording, steps: seq<Found>) returns (inputs: seq<InputSpec>, values: map<string, string>)
    ensures Lifted(inputs, values) == Lift(wording, steps)
  {
    inputs, values := [], map[];
    for i := 0 to |steps|
      invariant Lifted(inputs, values) == Lift(wording, steps[..i])
    {
      assert steps[..i + 1][..i] == steps[..i];
      var step := steps[i];
      if step.tool != "type_text" {
        continue;
      }
      if step.text == "" || !wording.inGoal(step.text) {
        continue;
      }
      var name := NameFor(wording, step);
      if name in values {
        continue;
      }
      inputs := inputs + [InputSpec(name, step.text)];
      values := values[name := step.text];
    }
    assert steps[..|steps|] == steps;
  }

  /** `{value: name for name, value in lifted.items()}`: of names for one value, the last. */
  function Reverse(inputs: seq<InputSpec>): map<string, string> {
    if inputs == [] then map[]
    else
      var last := inputs[|inputs| - 1];
      Reverse(inputs[..|inputs| - 1])[last.example := last.name]
  }

  // ---------------------------------------------------------------- compiling steps

  /** Of a target's hints only the style selector outlives the session. */
  function Durable(hints: map<string, string>): map<string, string> {
    map key | key in hints && key == "css" :: hints[key]
  }

  function TargetOf(step: Found): TargetDescriptor
    requires step.descriptor.Some?
  {
    step.descriptor.value.(hints := Durable(step.descriptor.value.hints))
  }

  function ActionFor(wording: Wording, reverse: map<string, string>, step: Found): Option<Action> {
    if step.descriptor.None? then None
    else if step.tool == "click" then Some(Click(TargetOf(step)))
    else if step.tool == "type_text" then
      Some(Type(TargetOf(step), if step.text in reverse then InputRef(reverse[step.text]) else Literal(step.text)))
    else if step.tool == "select_option" then Some(Select(TargetOf(step), Literal(step.choice)))
    else if step.tool == "press_key" then Some(PressKey(step.key, Some(TargetOf(step))))
    else if step.tool == "extract" && step.extracted.Some? then
      Some(Extract(TargetOf(step), wording.snake(step.extracted.value.0), None))
    else None
  }

  function Actions(wording: Wording, reverse: map<string, string>, steps: seq<Found>): seq<Action> {
    if steps == [] then []
    else
      var n := |steps| - 1;
      var action := ActionFor(wording, reverse, steps[n]);
      Actions(wording, reverse, steps[..n]) + if action.Some? then [action.value] else []
  }

  /** The steps the compiler gives up on with a warning. */
  function Skipped(wording: Wording, steps: seq<Found>): seq<nat> {
    if steps == [] then []
    else
      var n := |steps| - 1;
      var step := steps[n];
      Skipped(wording, steps[..n])
      + if (step.descriptor.Some? || step.tool == "navigate") && ActionFor(wording, map[], step).None? then [step.index]
        else []
  }

  /** `_compile_steps` */
  method CompileSteps(wording: Wording, steps: seq<Found>, inputs: seq<InputSpec>)
    returns (compiled: seq<Action>, warnings: seq<nat>)
    ensures compiled == Actions(wording, Reverse(inputs), steps)
    ensures warnings == Skipped(wording, steps)
  {
    var reverse: map<string, string> := map[];
    for i := 0 to |inputs|
      invariant reverse == Reverse(inputs[..i])
    {
      assert inputs[..i + 1][..i] == inputs[..i];
      reverse := reverse[inputs[i].example := inputs[i].name];
    }
    assert inputs[..|inputs|] == inputs;
    compiled, warnings := [], [];
    for i := 0 to |steps|
      invariant compiled == Actions(wording, reverse, steps[..i])
      invariant warnings == Skipped(wording, steps[..i])
    {
      assert steps[..i + 1][..i] == steps[..i];
      var step := steps[i];
      if step.descriptor.None? && step.tool != "navigate" {
        continue;
      }
      var action := ActionFor(wording, reverse, step);
      if action.None? {
        warnings := warnings + [step.index];
        continue;
      }
      compiled := compiled + [action.value];
    }
    assert steps[..|steps|] == steps;
  }

  // ---------------------------------------------------------------- what lifting keeps

  /** Each name once, standing for the value it was first seen with. */
  ghost predicate Declared(lifted: Lifted) {
    && (forall i, j | 0 <= i < j < |lifted.inputs| :: lifted.inputs[i].name != lifted.inputs[j].name)
    && (forall i | 0 <= i < |lifted.inputs| ::
          && lifted.inputs[i].name in lifted.values
          && lifted.values[lifted.inputs[i].name] == lifted.inputs[i].example)
    && (forall name | name in lifted.values :: exists i :: 0 <= i < |lifted.inputs| && lifted.inputs[i].name == name)
  }

  lemma {:induction false} LiftingDeclares(wording: Wording, steps: seq<Found>)
    ensures Declared(Lift(wording, steps))
  {
    if steps != [] {
      var front, step := steps[..|steps| - 1], steps[|steps| - 1];
      LiftingDeclares(wording, front);
      var before, after := Lift(wording, front), Lift(wording, steps);
      if after != before {
        assert after.inputs == before.inputs + [InputSpec(NameFor(wording, step), step.text)];
        forall name | name in after.values ensures exists i :: 0 <= i < |after.inputs| && after.inputs[i].name == name {
          if name in before.values {
            var i :| 0 <= i < |before.inputs| && before.inputs[i].name == name;
            assert after.inputs[i].name == name;
          } else {
            assert after.inputs[|before.inputs|].name == name;
          }
        }
      }
    }
  }

  /** The reverse table names, for each lifted value, the last input lifted with it. */
  lemma {:induction false} ReverseNamesTheLast(inputs: seq<InputSpec>)
    ensures var reverse := Reverse(inputs);
            && (forall i | 0 <= i < |inputs| :: inputs[i].example in reverse)
            && (forall value | value in reverse ::
                  exists i :: 0 <= i < |inputs| && IsLastFor(inputs, i)
                         && inputs[i] == InputSpec(reverse[value], value))
  {
    hide IsLastFor;
    if inputs != [] {
      var n := |inputs| - 1;
      var front, last := inputs[..n], inputs[n];
      ReverseNamesTheLast(front);
      var reverse := Reverse(inputs);
      assert forall i | 0 <= i < n :: inputs[i] == front[i];
      forall value | value in reverse
        ensures exists i :: 0 <= i < |inputs| && IsLastFor(inputs, i) && inputs[i] == InputSpec(reverse[value], value)
      {
        if value == last.example {
          LastIsLast(inputs);
          assert inputs[n] == InputSpec(reverse[value], value);
        } else {
          var i :| 0 <= i < n && IsLastFor(front, i) && front[i] == InputSpec(reverse[value], value);
          StillLast(inputs, i);
          assert inputs[i] == front[i];
        }
      }
    }
  }

  lemma LastIsLast(inputs: seq<InputSpec>)
    requires inputs != []
    ensures IsLastFor(inputs, |inputs| - 1)
  {
  }

  lemma StillLast(inputs: seq<InputSpec>, i: nat)
    requires i + 1 < |inputs| && IsLastFor(inputs[..|inputs| - 1], i)
             && inputs[i].example != inputs[|inputs| - 1].example
    ensures IsLastFor(inputs, i)
  {
    var front := inputs[..|inputs| - 1];
    forall j | i < j < |inputs| ensures inputs[j].example != inputs[i].example {
      if j < |front| { assert front[j].example != front[i].example; }
    }
  }

  predicate IsLastFor(inputs: seq<InputSpec>, i: nat)
    requires i < |inputs|
  {
    forall j | i < j < |inputs| :: inputs[j].example != inputs[i].example
  }

  // ---------------------------------------------------------------- binding undoes compiling

  /** What the run typed or selected where it found a control, in order. */
  function Entered(steps: seq<Found>): seq<string> {
    if steps == [] then []
    else
      var n := |steps| - 1;
      Entered(steps[..n]) + EnteredBy(steps[n])
  }

  function EnteredBy(step: Found): seq<string> {
    if step.descriptor.None? then []
    else if step.tool == "type_text" then [step.text]
    else if step.tool == "select_option" then [step.choice]
    else []
  }

  /** What the compiled actions type or select once bound, in order; `None` where one
      does not bind. */
  function BoundTexts(actions: seq<Action>, inputs: Bindings): seq<Option<string>> {
    if actions == [] then []
    else
      var n := |actions| - 1;
      BoundTexts(actions[..n], inputs)
      + if !(actions[n].Type? || actions[n].Select?) then []
        else
          var bound := BindAction(actions[n], inputs, map[], None);
          [if bound.Ok? && bound.value.value.Literal? then Some(bound.value.value.text) else None]
  }

  function AllOf(texts: seq<string>): seq<Option<string>> {
    if texts == [] then [] else AllOf(texts[..|texts| - 1]) + [Some(texts[|texts| - 1])]
  }

  lemma LastBound(actions: seq<Action>, action: Action, inputs: Bindings)
    ensures BoundTexts(actions + [action], inputs) == BoundTexts(actions, inputs) + BoundTexts([action], inputs)
  {
    assert (actions + [action])[..|actions|] == actions;
    assert [action][..0] == [];
  }

  lemma AllInTurn(texts: seq<string>, more: seq<string>)
    requires |more| <= 1
    ensures AllOf(texts + more) == AllOf(texts) + AllOf(more)
  {
    if more == [] {
      assert texts + more == texts;
    } else {
      assert (texts + more)[..|texts|] == texts && more[..0] == [];
    }
  }

  /** Supplied with the values that were lifted, the compiled steps enter exactly what
      the run entered, in order, whatever labels or values repeat. */
  lemma {:induction false} BindingGivesTheRunBack(wording: Wording, steps: seq<Found>)
    ensures var lifted := Lift(wording, steps);
            BoundTexts(Actions(wording, Reverse(lifted.inputs), steps), lifted.values) == AllOf(Entered(steps))
  {
    var lifted := Lift(wording, steps);
    LiftingDeclares(wording, steps);
    ReverseNamesTheLast(lifted.inputs);
    forall value | value in Reverse(lifted.inputs)
      ensures Reverse(lifted.inputs)[value] in lifted.values && lifted.values[Reverse(lifted.inputs)[value]] == value
    {
      var i :| 0 <= i < |lifted.inputs| && IsLastFor(lifted.inputs, i)
               && lifted.inputs[i] == InputSpec(Reverse(lifted.inputs)[value], value);
    }
    PrefixGivesBack(wording, Reverse(lifted.inputs), lifted.values, steps);
  }

  ghost predicate Inverts(reverse: map<string, string>, values: map<string, string>) {
    forall value | value in reverse :: reverse[value] in values && values[reverse[value]] == value
  }

  lemma {:induction false} PrefixGivesBack(wording: Wording, reverse: map<string, string>, values: map<string, string>,
                                           steps: seq<Found>)
    requires Inverts(reverse, values)
    ensures BoundTexts(Actions(wording, reverse, steps), values) == AllOf(Entered(steps))
  {
    if steps != [] {
      var n := |steps| - 1;
      var front, step := steps[..n], steps[n];
      PrefixGivesBack(wording, reverse, values, front);
      hide BindAction;
      var before, entered := Actions(wording, reverse, front), Entered(front);
      AllInTurn(entered, EnteredBy(step));
      OneGivesBack(wording, reverse, values, step);
      var action := ActionFor(wording, reverse, step);
      hide ActionFor, EnteredBy, BoundTexts, AllOf;
      if action.Some? {
        LastBound(before, action.value, values);
      } else {
        assert Actions(wording, reverse, steps) == before + [] == before;
        assert entered + [] == entered;
      }
    }
  }

  lemma OneGivesBack(wording: Wording, reverse: map<string, string>, values: map<string, string>, step: Found)
    requires Inverts(reverse, values)
    ensures var action := ActionFor(wording, reverse, step);
            if action.Some? then BoundTexts([action.value], values) == AllOf(EnteredBy(step)) else EnteredBy(step) == []
  {
    var action := ActionFor(wording, reverse, step);
    if action.Some? {
      assert [action.value][..0] == [];
      assert BoundTexts([], values) == [] && AllOf([]) == [];
      assert EnteredBy(step) != [] ==> EnteredBy(step)[..0] == [];
    }
  }

  // ---------------------------------------------------------------- which inputs are used

  /** The compiled steps refer to this input. */
  ghost predicate Refers(actions: seq<Action>, name: string) {
    exists i :: 0 <= i < |actions| && actions[i].Type? && actions[i].value == InputRef(name)
  }

  ghost predicate TypedOnAControl(steps: seq<Found>, value: string) {
    exists i :: 0 <= i < |steps| && steps[i].descriptor.Some? && steps[i].tool == "type_text" && steps[i].text == value
  }

  lemma {:induction false} ReferencesComeFromTyping(wording: Wording, reverse: map<string, string>, steps: seq<Found>,
                                                    name: string)
    ensures Refers(Actions(wording, reverse, steps), name) <==>
              exists value :: value in reverse && reverse[value] == name && TypedOnAControl(steps, value)
  {
    if steps != [] {
      var n := |steps| - 1;
      var front, step := steps[..n], steps[n];
      ReferencesComeFromTyping(wording, reverse, front, name);
      var before, all := Actions(wording, reverse, front), Actions(wording, reverse, steps);
      var action := ActionFor(wording, reverse, step);
      assert forall i | 0 <= i < |before| :: all[i] == before[i];
      assert action.Some? ==> all == before + [action.value];
      assert action.None? ==> all == before;
      var own := action.Some? && action.value.Type? && action.value.value == InputRef(name);
      assert Refers(all, name) <==> Refers(before, name) || own by {
        if Refers(before, name) {
          var i :| 0 <= i < |before| && before[i].Type? && before[i].value == InputRef(name);
          assert all[i] == before[i];
        }
        if own { assert all[|before|] == action.value; }
      }
      forall value ensures TypedOnAControl(steps, value) <==>
                             TypedOnAControl(front, value)
                             || (step.descriptor.Some? && step.tool == "type_text" && step.text == value)
      {
        if TypedOnAControl(front, value) {
          var i :| 0 <= i < |front| && front[i].descriptor.Some? && front[i].tool == "type_text"
                 && front[i].text == value;
          assert steps[i] == front[i];
        }
      }
    }
  }

  /** Every reference is to a declared input. A declared input is referred to exactly
      when it was the last lifted for its value and that value was typed on a control
      that could be described: otherwise the capability asks its caller for an argument
      it ignores. */
  lemma {:induction false} AnInputIsUsedExactlyWhen(wording: Wording, steps: seq<Found>, i: nat)
    requires i < |Lift(wording, steps).inputs|
    ensures var inputs := Lift(wording, steps).inputs;
            Refers(Actions(wording, Reverse(inputs), steps), inputs[i].name) <==>
              IsLastFor(inputs, i) && TypedOnAControl(steps, inputs[i].example)
  {
    hide Lift, Actions, Reverse, TypedOnAControl, Refers, IsLastFor;
    var lifted := Lift(wording, steps);
    var inputs, reverse := lifted.inputs, Reverse(lifted.inputs);
    LiftingDeclares(wording, steps);
    NamedByReverse(inputs, i);
    ReferencesComeFromTyping(wording, reverse, steps, inputs[i].name);
  }

  /** In the reverse table an input stands for its own value, if for any, and does so
      exactly when no later input took that value over. */
  lemma {:induction false} NamedByReverse(inputs: seq<InputSpec>, i: nat)
    requires i < |inputs|
    requires forall a, b | 0 <= a < b < |inputs| :: inputs[a].name != inputs[b].name
    ensures forall value | value in Reverse(inputs)
            && Reverse(inputs)[value] == inputs[i].name :: value == inputs[i].example
    ensures inputs[i].example in Reverse(inputs)
    ensures Reverse(inputs)[inputs[i].example] == inputs[i].name <==> IsLastFor(inputs, i)
  {
    hide Reverse;
    ReverseNamesTheLast(inputs);
    var reverse := Reverse(inputs);
    forall value | value in reverse && reverse[value] == inputs[i].name
      ensures value == inputs[i].example && IsLastFor(inputs, i)
    {
      var j :| 0 <= j < |inputs| && IsLastFor(inputs, j) && inputs[j] == InputSpec(reverse[value], value);
      assert j == i;
    }
    if IsLastFor(inputs, i) {
      var value := inputs[i].example;
      var j :| 0 <= j < |inputs| && IsLastFor(inputs, j) && inputs[j] == InputSpec(reverse[value], value);
      assert j == i;
    }
  }

  lemma {:induction false} ReferencesAreDeclared(wording: Wording, steps: seq<Found>, name: string)
    requires Refers(Actions(wording, Reverse(Lift(wording, steps).inputs), steps), name)
    ensures exists i :: 0 <= i < |Lift(wording, steps).inputs| && Lift(wording, steps).inputs[i].name == name
  {
    var inputs := Lift(wording, steps).inputs;
    ReverseNamesTheLast(inputs);
    ReferencesComeFromTyping(wording, Reverse(inputs), steps, name);
    var value :| value in Reverse(inputs) && Reverse(inputs)[value] == name && TypedOnAControl(steps, value);
    var i :| 0 <= i < |inputs| && IsLastFor(inputs, i) && inputs[i] == InputSpec(name, value);
  }

  lemma {:induction false} LiftedTwice(wording: Wording, first: Found, second: Found)
    requires Liftable(wording, first) && Liftable(wording, second)
    requires NameFor(wording, first) != NameFor(wording, second)
    ensures Lift(wording, [first, second]).inputs
            == [InputSpec(NameFor(wording, first), first.text), InputSpec(NameFor(wording, second), second.text)]
    ensures first.tool == second.tool == "type_text"
  {
    var steps := [first, second];
    assert steps[..1] == [first] && [first][..0] == [];
    assert Lift(wording, [first]) == LiftOne(wording, Lift(wording, []), first);
    assert Lift(wording, steps) == LiftOne(wording, Lift(wording, [first]), second);
    hide Lift, Liftable, NameFor;
  }

  /** It happens when one value is typed under two labels: both become inputs, and only
      the second is ever referred to. */
  lemma {:induction false} AValueTypedTwiceLeavesAnInputUnused(wording: Wording, first: Found, second: Found)
    requires Liftable(wording, first) && Liftable(wording, second) && first.text == second.text
    requires first.descriptor.Some? && second.descriptor.Some?
    requires NameFor(wording, first) != NameFor(wording, second)
    ensures var steps := [first, second];
            var inputs := Lift(wording, steps).inputs;
            var actions := Actions(wording, Reverse(inputs), steps);
            && inputs == [InputSpec(NameFor(wording, first), first.text),
                          InputSpec(NameFor(wording, second), first.text)]
            && !Refers(actions, inputs[0].name) && Refers(actions, inputs[1].name)
  {
    hide Lift, Actions, Reverse, Refers, Liftable, NameFor;
    var steps := [first, second];
    LiftedTwice(wording, first, second);
    var inputs := Lift(wording, steps).inputs;
    assert !IsLastFor(inputs, 0) by { assert inputs[1].example == inputs[0].example; }
    assert IsLastFor(inputs, 1);
    assert TypedOnAControl(steps, first.text) by { assert steps[1] == second; }
    hide IsLastFor, TypedOnAControl;
    AnInputIsUsedExactlyWhen(wording, steps, 0);
    AnInputIsUsedExactlyWhen(wording, steps, 1);
  }

  /** And when the value was typed on something that could not be described. */
  lemma {:induction false} AValueTypedNowhereLeavesAnInputUnused(wording: Wording, step: Found)
    requires Liftable(wording, step) && step.descriptor.None?
    ensures var inputs := Lift(wording, [step]).inputs;
            && inputs == [InputSpec(wording.snake("input"), step.text)]
            && Actions(wording, Reverse(inputs), [step]) == []
  {
    assert [step][..0] == [];
    assert Lift(wording, [step]) == LiftOne(wording, Lift(wording, []), step);
    assert Actions(wording, Reverse(Lift(wording, [step]).inputs), []) == [];
  }
}
