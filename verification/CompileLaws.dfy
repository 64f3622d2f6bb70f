/** What the compiler makes of each step of a run, and which of its texts become
    inputs, in terms of the steps' own fields. */
module CompileLaws {
  import opened Outcomes
  import opened Targets
  import opened Capabilities
  import opened Compile

  // ---------------------------------------------------------------- steps

  /** The descriptor the run proved, without the hints that do not outlive its session. */
  ghost predicate IsTargetOf(step: Found, target: TargetDescriptor) {
    && step.descriptor.Some?
    && var d := step.descriptor.value;
       && target == d.(hints := target.hints)
       && (forall key :: key in target.hints <==> key == "css" && key in d.hints)
       && (forall key | key in target.hints :: target.hints[key] == d.hints[key])
  }

  /** What was typed, or a reference to the last input declared with it as its value. */
  ghost predicate IsValueOf(inputs: seq<InputSpec>, text: string, value: ValueExpr) {
    if exists i :: 0 <= i < |inputs| && inputs[i].example == text then
      exists i :: 0 <= i < |inputs| && IsLastFor(inputs, i) && inputs[i].example == text
                  && value == InputRef(inputs[i].name)
    else value == Literal(text)
  }

  /** The action does to the control what the run did. */
  ghost predicate Repeats(wording: Wording, inputs: seq<InputSpec>, step: Found, action: Action) {
    match action
    case Click(target) => step.tool == "click" && IsTargetOf(step, target)
    case Type(target, value) =>
      step.tool == "type_text" && IsTargetOf(step, target) && IsValueOf(inputs, step.text, value)
    case Select(target, value) =>
      step.tool == "select_option" && IsTargetOf(step, target) && value == Literal(step.choice)
    case PressKey(key, on) =>
      step.tool == "press_key" && key == step.key && on.Some? && IsTargetOf(step, on.value)
    case Extract(target, into, transform) =>
      && step.tool == "extract" && IsTargetOf(step, target) && transform.None?
      && step.extracted.Some? && into == wording.snake(step.extracted.value.0)
    case _ => false
  }

  /** The run acted on a control it could describe, with one of the tools there is an
      action for. */
  ghost predicate Repeatable(step: Found) {
    && step.descriptor.Some?
    && (step.tool in {"click", "type_text", "select_option", "press_key"}
        || (step.tool == "extract" && step.extracted.Some?))
  }

  /** These are the positions, in order, of the repeatable steps. */
  ghost predicate ArePositions(steps: seq<Found>, at: seq<nat>) {
    && (forall k | 0 <= k < |at| :: at[k] < |steps|)
    && (forall j, k | 0 <= j < k < |at| :: at[j] < at[k])
    && (forall i | 0 <= i < |steps| :: Repeatable(steps[i]) <==> i in at)
  }

  lemma {:induction false} OneStepCompiles(wording: Wording, inputs: seq<InputSpec>, step: Found)
    ensures var action := ActionFor(wording, Reverse(inputs), step);
            && (action.Some? <==> Repeatable(step))
            && (action.Some? ==> Repeats(wording, inputs, step, action.value))
  {
    hide Reverse;
    ReverseNamesTheLast(inputs);
    var reverse := Reverse(inputs);
    if step.text in reverse {
      var i :| 0 <= i < |inputs| && IsLastFor(inputs, i) && inputs[i] == InputSpec(reverse[step.text], step.text);
      assert IsValueOf(inputs, step.text, InputRef(reverse[step.text]));
    } else {
      assert IsValueOf(inputs, step.text, Literal(step.text));
    }
  }

  /** The compiled actions are, one for one and in order, the repeatable steps of the
      run, each doing what the run did to the same control. */
  lemma {:induction false} TheStepsAreTheRuns(wording: Wording, inputs: seq<InputSpec>, steps: seq<Found>)
    returns (at: seq<nat>)
    ensures var actions := Actions(wording, Reverse(inputs), steps);
            && ArePositions(steps, at) && |actions| == |at|
            && forall k | 0 <= k < |at| :: Repeats(wording, inputs, steps[at[k]], actions[k])
  {
    hide ActionFor, Reverse, Repeatable, Repeats;
    if steps == [] {
      at := [];
    } else {
      var n := |steps| - 1;
      var front := TheStepsAreTheRuns(wording, inputs, steps[..n]);
      OneStepCompiles(wording, inputs, steps[n]);
      at := front + if Repeatable(steps[n]) then [n] else [];
      forall i | 0 <= i < |steps| ensures Repeatable(steps[i]) <==> i in at {
        if i < n { assert steps[..n][i] == steps[i]; }
      }
    }
  }

  /** A warning is given for each step that could not be repeated although a control was
      described or a page was opened. */
  ghost predicate Warned(step: Found) {
    !Repeatable(step) && (step.descriptor.Some? || step.tool == "navigate")
  }

  lemma {:induction false} WhatIsWarnedOf(wording: Wording, steps: seq<Found>) returns (at: seq<nat>)
    ensures var warnings := Skipped(wording, steps);
            && (forall k | 0 <= k < |at| :: at[k] < |steps|)
            && (forall j, k | 0 <= j < k < |at| :: at[j] < at[k])
            && (forall i | 0 <= i < |steps| :: Warned(steps[i]) <==> i in at)
            && |warnings| == |at| && forall k | 0 <= k < |at| :: warnings[k] == steps[at[k]].index
  {
    hide ActionFor, Repeatable;
    if steps == [] {
      at := [];
    } else {
      var n := |steps| - 1;
      var front := WhatIsWarnedOf(wording, steps[..n]);
      OneStepCompiles(wording, [], steps[n]);
      assert Reverse([]) == map[];
      at := front + if Warned(steps[n]) then [n] else [];
      forall i | 0 <= i < |steps| ensures Warned(steps[i]) <==> i in at {
        if i < n { assert steps[..n][i] == steps[i]; }
      }
    }
  }

  // ---------------------------------------------------------------- inputs

  /** What the control is called: by its name, else by the label beside it. */
  ghost predicate IsLabelled(step: Found, caption: string) {
    if step.descriptor.Some? && step.descriptor.value.name.Some? && step.descriptor.value.name.value.value != ""
    then caption == step.descriptor.value.name.value.value
    else if step.descriptor.Some? && step.descriptor.value.anchor.Some? && step.descriptor.value.anchor.value.text != ""
    then caption == step.descriptor.value.anchor.value.text
    else caption == "input"
  }

  /** The step typed a text that the goal speaks of, under a label that gives this name. */
  ghost predicate Gives(wording: Wording, step: Found, name: string) {
    && step.tool == "type_text" && step.text != "" && wording.inGoal(step.text)
    && exists caption :: IsLabelled(step, caption) && name == wording.snake(caption)
  }

  ghost predicate GivesFirst(wording: Wording, steps: seq<Found>, j: nat, name: string)
    requires j < |steps|
  {
    Gives(wording, steps[j], name) && forall i | 0 <= i < j :: !Gives(wording, steps[i], name)
  }

  lemma {:induction false} OneStepGives(wording: Wording, step: Found, name: string)
    ensures Gives(wording, step, name) <==> Liftable(wording, step) && name == NameFor(wording, step)
  {
    var caption := if LabelOf(step).GetOr("") == "" then "input" else LabelOf(step).value;
    assert IsLabelled(step, caption);
  }

  /** These are the positions, in order, at which the inputs' names are first given, each
      with the text it was first given for. */
  ghost predicate AreGivenAt(wording: Wording, steps: seq<Found>, inputs: seq<InputSpec>, at: seq<nat>) {
    && |at| == |inputs| && (forall k | 0 <= k < |at| :: at[k] < |steps|)
    && (forall j, k | 0 <= j < k < |at| :: at[j] < at[k])
    && forall k | 0 <= k < |at| ::
         inputs[k].example == steps[at[k]].text && GivesFirst(wording, steps, at[k], inputs[k].name)
  }

  ghost predicate IsAnInput(inputs: seq<InputSpec>, name: string) {
    exists k :: 0 <= k < |inputs| && inputs[k].name == name
  }

  lemma {:induction false} EveryNameGivenIsAnInput(wording: Wording, steps: seq<Found>, i: nat, name: string)
    requires i < |steps| && Gives(wording, steps[i], name)
    ensures IsAnInput(Lift(wording, steps).inputs, name)
  {
    hide Liftable, NameFor, Gives;
    var n := |steps| - 1;
    var front, step := steps[..n], steps[n];
    LiftingDeclares(wording, front);
    OneStepGives(wording, step, name);
    var before, after := Lift(wording, front), Lift(wording, steps);
    assert after == LiftOne(wording, before, step);
    hide Lift;
    if i < n {
      assert front[i] == steps[i];
      EveryNameGivenIsAnInput(wording, front, i, name);
    }
    if IsAnInput(before.inputs, name) {
      var k :| 0 <= k < |before.inputs| && before.inputs[k].name == name;
      assert after.inputs[k].name == name;
    } else {
      assert after.inputs[|before.inputs|].name == name;
    }
  }

  /** The inputs are the names the steps give, in the order they are first given, and
      every name given is an input. */
  lemma {:induction false} TheInputsAreTheTextsOfTheGoal(wording: Wording, steps: seq<Found>) returns (at: seq<nat>)
    ensures var inputs := Lift(wording, steps).inputs;
            && AreGivenAt(wording, steps, inputs, at)
            && forall i, name | 0 <= i < |steps| && Gives(wording, steps[i], name) :: IsAnInput(inputs, name)
  {
    hide Gives, Lift, IsAnInput;
    at := InputsInOrder(wording, steps);
    forall i, name | 0 <= i < |steps| && Gives(wording, steps[i], name)
      ensures IsAnInput(Lift(wording, steps).inputs, name)
    {
      EveryNameGivenIsAnInput(wording, steps, i, name);
    }
  }

  lemma {:induction false} InputsInOrder(wording: Wording, steps: seq<Found>) returns (at: seq<nat>)
    ensures AreGivenAt(wording, steps, Lift(wording, steps).inputs, at)
  {
    hide Liftable, NameFor, Gives, AreGivenAt;
    if steps == [] {
      at := [];
      NoneGiven(wording);
    } else {
      var n := |steps| - 1;
      var front, step := steps[..n], steps[n];
      at := InputsInOrder(wording, front);
      LiftingDeclares(wording, front);
      var before, name := Lift(wording, front), NameFor(wording, step);
      StillGiven(wording, steps, before.inputs, at);
      if Liftable(wording, step) && name !in before.values {
        OneStepGives(wording, step, name);
        forall i | 0 <= i < n ensures !Gives(wording, steps[i], name) {
          if Gives(wording, steps[i], name) {
            assert front[i] == steps[i];
            EveryNameGivenIsAnInput(wording, front, i, name);
          }
        }
        OneMoreGiven(wording, steps, before.inputs, at, name);
        at := at + [n];
      }
    }
  }

  lemma NoneGiven(wording: Wording)
    ensures AreGivenAt(wording, [], Lift(wording, []).inputs, [])
  {
  }

  lemma {:induction false} StillGiven(wording: Wording, steps: seq<Found>, inputs: seq<InputSpec>, at: seq<nat>)
    requires steps != [] && AreGivenAt(wording, steps[..|steps| - 1], inputs, at)
    ensures AreGivenAt(wording, steps, inputs, at) && forall k | 0 <= k < |at| :: at[k] < |steps| - 1
  {
    hide GivesFirst;
    forall k | 0 <= k < |at| ensures GivesFirst(wording, steps, at[k], inputs[k].name) {
      StillFirst(wording, steps, at[k], inputs[k].name);
    }
  }

  lemma {:induction false} OneMoreGiven(wording: Wording, steps: seq<Found>, inputs: seq<InputSpec>, at: seq<nat>,
                                        name: string)
    requires steps != [] && AreGivenAt(wording, steps, inputs, at) && forall k | 0 <= k < |at| :: at[k] < |steps| - 1
    requires GivesFirst(wording, steps, |steps| - 1, name)
    ensures AreGivenAt(wording, steps, inputs + [InputSpec(name, steps[|steps| - 1].text)], at + [|steps| - 1])
  {
    hide GivesFirst;
  }

  lemma {:induction false} StillFirst(wording: Wording, steps: seq<Found>, j: nat, name: string)
    requires steps != [] && j < |steps| - 1 && GivesFirst(wording, steps[..|steps| - 1], j, name)
    ensures GivesFirst(wording, steps, j, name)
  {
    hide Gives;
    var front := steps[..|steps| - 1];
    assert front[j] == steps[j];
    forall i | 0 <= i < j ensures !Gives(wording, steps[i], name) {
      assert front[i] == steps[i];
    }
  }
}
