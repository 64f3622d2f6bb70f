/** Every replay tells such a story. */
module ReplayReads {
  import opened Outcomes
  import opened Snapshots
  import opened Capabilities
  import opened Replay
  import opened ReplayLaws
  import opened ReplayStory
  import Bind
  import Names

  function WhoOf(st: RunState): Who {
    Who(st.capability, st.isRemedy, st.inputs)
  }

  function AfterBlocks(prior: nat, blocks: seq<Block>): nat
    decreases |blocks|
  {
    if blocks == [] then prior else AfterBlocks(InARow(blocks[0]), blocks[1..])
  }

  /** What an ending hands back is what was read. */
  ghost predicate HandsBack(out: Out) {
    out.result.Some? && (out.result.value.ending.Success? || out.result.value.ending.NeedsHuman?) ==>
      out.result.value.outputs == out.m.st.outputs
  }

  /** A piece of a run of `who`, begun with these outputs after `prior` recoveries in a
      row, told by `blocks`; if it went on, after `next` recoveries in a row. */
  ghost predicate Tells(env: Env, who: Who, outputs: Bindings, prior: nat, next: nat, out: Out, blocks: seq<Block>) {
    && Written(blocks) == out.log && Story(env, who, outputs, prior, blocks)
    && out.m.st.outputs == ReadAlong(env, who.isRemedy, outputs, out.log)
    && HandsBack(out)
    && (out.result.None? ==> AfterBlocks(prior, blocks) == next)
    && (out.result.None? || out.result.value.ending.Success? ==> Whole(env, blocks))
  }

  // ---------------------------------------------------------------- stories in sequence

  lemma {:induction false} WrittenInTurn(a: seq<Block>, b: seq<Block>)
    ensures Written(a + b) == Written(a) + Written(b)
  {
    if a == [] {
      assert a + b == b;
    } else {
      assert (a + b)[1..] == a[1..] + b;
      WrittenInTurn(a[1..], b);
    }
  }

  lemma {:induction false} StoryInTurn(env: Env, who: Who, outputs: Bindings, prior: nat, a: seq<Block>, b: seq<Block>)
    requires Story(env, who, outputs, prior, a) && Whole(env, a)
    requires Story(env, who, ReadAlong(env, who.isRemedy, outputs, Written(a)), AfterBlocks(prior, a), b)
    ensures Story(env, who, outputs, prior, a + b)
    decreases |a|
  {
    hide BlockTells, Cut, ReadAlong, InARow;
    if a == [] {
      assert a + b == b;
      NothingRead(env, who.isRemedy, outputs);
    } else {
      assert (a + b)[1..] == a[1..] + b;
      var first := BlockLog(a[0]);
      assert Written(a) == first + Written(a[1..]);
      ReadInTurn(env, who.isRemedy, outputs, first, Written(a[1..]));
      assert !Cut(env, a[0]);
      assert forall i | 0 <= i < |a[1..]| :: a[1..][i] == a[i + 1];
      StoryInTurn(env, who, ReadAlong(env, who.isRemedy, outputs, first), InARow(a[0]), a[1..], b);
    }
  }

  lemma NothingRead(env: Env, isRemedy: bool, outputs: Bindings)
    ensures ReadAlong(env, isRemedy, outputs, []) == outputs
  {
  }

  lemma {:induction false} AfterInTurn(prior: nat, a: seq<Block>, b: seq<Block>)
    ensures AfterBlocks(prior, a + b) == AfterBlocks(AfterBlocks(prior, a), b)
    decreases |a|
  {
    if a == [] {
      assert a + b == b;
    } else {
      assert (a + b)[1..] == a[1..] + b;
      AfterInTurn(InARow(a[0]), a[1..], b);
    }
  }

  lemma {:induction false} TellsInTurn(env: Env, who: Who, outputs: Bindings, prior: nat, next: nat, last: nat, a: Out,
                                       b: Out, blocksA: seq<Block>, blocksB: seq<Block>)
    requires Tells(env, who, outputs, prior, next, a, blocksA) && a.result.None?
    requires Tells(env, who, a.m.st.outputs, next, last, b, blocksB)
    ensures Tells(env, who, outputs, prior, last, After(a.log, b), blocksA + blocksB)
  {
    hide Story, Cut, ReadAlong;
    WrittenInTurn(blocksA, blocksB);
    ReadInTurn(env, who.isRemedy, outputs, a.log, b.log);
    AfterInTurn(prior, blocksA, blocksB);
    hide AfterBlocks, Written;
    StoryInTurn(env, who, outputs, prior, blocksA, blocksB);
  }

  lemma {:induction false} NothingTells(env: Env, who: Who, outputs: Bindings, prior: nat, out: Out)
    requires out.log == [] && out.m.st.outputs == outputs
    requires out.result.Some? ==> !out.result.value.ending.Success? && !out.result.value.ending.NeedsHuman?
    ensures Tells(env, who, outputs, prior, prior, out, [])
  {
  }

  /** One event of the run's own. */
  lemma {:induction false} OneEventTells(env: Env, who: Who, outputs: Bindings, prior: nat, e: Event, out: Out)
    requires out.log == [e] && OwnTells(env, who, outputs, e)
    requires out.m.st.outputs == AfterEvent(env, who.isRemedy, outputs, e) && HandsBack(out)
    ensures Tells(env, who, outputs, prior, 0, out, [Own(e)])
  {
    hide OwnTells, AfterEvent;
    var blocks := [Own(e)];
    assert blocks[1..] == [] && [e][1..] == [] && [e] + [] == [e];
    assert Written(blocks) == [e];
    assert ReadAlong(env, who.isRemedy, outputs, [e]) == AfterEvent(env, who.isRemedy, outputs, e);
    assert Story(env, who, ReadAlong(env, who.isRemedy, outputs, [e]), 0, []);
    assert !Cut(env, blocks[0]) && BlockTells(env, who, outputs, prior, blocks[0]);
    assert Story(env, who, outputs, prior, blocks);
    assert AfterBlocks(prior, blocks) == AfterBlocks(0, []) == 0;
  }

  lemma FailShape(env: Env, m: Machine, code: FailureCode)
    ensures var out := Fail(env, m, code);
            && (out.log == [] || (out.log == [Escalated] && !m.st.isRemedy))
            && out.m.st == m.st && out.result.Some? && HandsBack(out)
            && !out.result.value.ending.Success? && (out.log == [] ==> !out.result.value.ending.NeedsHuman?)
  {
  }

  lemma {:induction false} FailTells(env: Env, m: Machine, code: FailureCode, prior: nat, next: nat)
    returns (blocks: seq<Block>)
    ensures Tells(env, WhoOf(m.st), m.st.outputs, prior, next, Fail(env, m, code), blocks)
    ensures blocks == [] || (blocks == [Own(Escalated)] && !m.st.isRemedy)
  {
    FailShape(env, m, code);
    var out := Fail(env, m, code);
    hide Fail;
    if out.log == [] {
      blocks := [];
      NothingTells(env, WhoOf(m.st), m.st.outputs, prior, out);
    } else {
      blocks := [Own(Escalated)];
      OneEventTells(env, WhoOf(m.st), m.st.outputs, prior, Escalated, out);
    }
  }

  // ---------------------------------------------------------------- one dispatch

  lemma TextIsRead(env: Env, action: Action, node: UiNode)
    requires action.Extract?
    ensures Extracted(env, action, node) == TextOn(env, node, action.transform)
  {
    hide Names.IsSpace;
    assert Shown(node) == Readable(node);
    assert AllSpace(Shown(node)) <==> Names.Blank(Readable(node));
  }

  lemma {:induction false} CompletedTells(env: Env, m: Machine, index: nat, seenAt: nat, acted: Option<Acted>,
                                          settledAt: Option<nat>, prior: nat)
    returns (blocks: seq<Block>)
    ensures Tells(env, WhoOf(m.st), m.st.outputs, prior, 0, Completed(m, index, seenAt, acted, settledAt), blocks)
    ensures blocks != []
  {
    var out := Completed(m, index, seenAt, acted, settledAt);
    blocks := [Own(out.log[0])];
    OneEventTells(env, WhoOf(m.st), m.st.outputs, prior, out.log[0], out);
  }

  lemma {:induction false} SettleTells(env: Env, m: Machine, index: nat, seenAt: nat, acted: Acted)
    returns (blocks: seq<Block>)
    requires index < |m.st.capability.steps|
    ensures Tells(env, WhoOf(m.st), m.st.outputs, 0, 0, Settle(env, m, index, seenAt, acted), blocks)
  {
    hide Tells, Fail;
    var step := m.st.capability.steps[index];
    var waited := Replay.WaitFor(env, step.wait, m.st.inputs, Some(env.surface.observe(seenAt)), m.tick);
    var m1 := m.(tick := waited.seenAt + 1);
    if !waited.satisfied {
      blocks := FailTells(env, m1, Timeout, 0, 0);
    } else if step.postcondition.Some? && !step.postcondition.value(env.surface.observe(waited.seenAt), m.st.inputs) {
      blocks := FailTells(env, m1, PreconditionFailed, 0, 0);
    } else {
      blocks := CompletedTells(env, m1, index, seenAt, Some(acted), Some(waited.seenAt), 0);
    }
  }

  /** What follows a dispatch starts from the outputs with what the dispatch read. */
  lemma {:induction false} ConcludeTells(env: Env, m: Machine, index: nat, seenAt: nat, acted: Acted, call: Event)
    returns (blocks: seq<Block>)
    requires index < |m.st.capability.steps|
    requires call == Dispatched(m.st.isRemedy, OfStep(index), acted.action, acted.at)
    ensures Tells(env, WhoOf(m.st), AfterEvent(env, m.st.isRemedy, m.st.outputs, call), 0, 0,
                  Conclude(env, m, index, seenAt, acted, env.surface.execute(acted.at, acted.action)), blocks)
  {
    hide Tells, Fail, Settle, Extracted, TextOn;
    var action, outcome := acted.action, env.surface.execute(acted.at, acted.action);
    if action.Extract? && outcome.node.Some? {
      TextIsRead(env, action, outcome.node.value);
      var text := Extracted(env, action, outcome.node.value);
      if text.None? {
        blocks := FailTells(env, m, ActionFailed, 0, 0);
      } else {
        blocks := SettleTells(env, m.(st := m.st.(outputs := m.st.outputs[action.into := text.value])), index, seenAt,
                              acted);
      }
    } else if outcome.status != DispatchOk {
      blocks := FailTells(env, m, outcome.failureCode.GetOr(ActionFailed), 0, 0);
    } else {
      blocks := SettleTells(env, m, index, seenAt, acted);
    }
  }

  lemma {:induction false} DispatchStepTells(env: Env, m: Machine, index: nat, seenAt: nat, prior: nat)
    returns (blocks: seq<Block>)
    requires index < |m.st.capability.steps|
    ensures Tells(env, WhoOf(m.st), m.st.outputs, prior, 0, DispatchStep(env, m, index, seenAt), blocks)
  {
    hide Tells, Fail, Conclude, Completed;
    var step := m.st.capability.steps[index];
    match Bind.BindAction(step.action, m.st.inputs, m.st.outputs, env.cfg.secrets)
    case Err(SecretNotFound) =>
      blocks := [];
      RaisedTells(env, m, prior);
    case Err(Unbound) =>
      blocks := FailTells(env, m, InputValidationFailed, prior, 0);
    case Ok(action) =>
      if action.Assert? {
        if !action.that(env.surface.observe(seenAt), m.st.inputs) {
          blocks := FailTells(env, m, PreconditionFailed, prior, 0);
        } else {
          blocks := CompletedTells(env, m.(st := m.st.(stepsExecuted := index + 1)), index, seenAt, None, None, prior);
        }
      } else if action.WaitFor? {
        var waited := Replay.WaitFor(env, WaitPolicy(PredicateHolds, Some(action.until)), m.st.inputs, None, m.tick);
        var m1 := m.(tick := waited.seenAt + 1);
        if !waited.satisfied {
          blocks := FailTells(env, m1, Timeout, prior, 0);
        } else {
          blocks := CompletedTells(env, m1.(st := m.st.(stepsExecuted := index + 1)), index, seenAt, None,
                                   Some(waited.seenAt), prior);
        }
      } else {
        BindingFillsIn(step.action, m.st.inputs, m.st.outputs, env.cfg.secrets, action);
        blocks := PutTells(env, m, index, seenAt, action, prior);
      }
  }

  lemma RaisedTells(env: Env, m: Machine, prior: nat)
    ensures Tells(env, WhoOf(m.st), m.st.outputs, prior, 0, Out(m, [], Some(ResultOf(m.st, Raised))), [])
  {
  }

  lemma {:induction false} PutTells(env: Env, m: Machine, index: nat, seenAt: nat, action: Action, prior: nat)
    returns (blocks: seq<Block>)
    requires index < |m.st.capability.steps|
    requires FilledIn(m.st.capability.steps[index].action, m.st.inputs, m.st.outputs, env.cfg.secrets, action)
    ensures var outcome := env.surface.execute(m.tick, action);
            var call := Dispatched(m.st.isRemedy, OfStep(index), action, m.tick);
            Tells(env, WhoOf(m.st), m.st.outputs, prior, 0,
                  After([call], Conclude(env, Counted(m, index, outcome), index, seenAt, Acted(action, m.tick),
                                         outcome)), blocks)
  {
    hide Tells, Conclude, FilledIn, AfterEvent;
    var who, outcome := WhoOf(m.st), env.surface.execute(m.tick, action);
    var call := Dispatched(m.st.isRemedy, OfStep(index), action, m.tick);
    var read := AfterEvent(env, m.st.isRemedy, m.st.outputs, call);
    var sent := Out(m.(st := m.st.(outputs := read)), [call], None);
    OneEventTells(env, who, m.st.outputs, prior, call, sent);
    var more := ConcludeTells(env, Counted(m, index, outcome), index, seenAt, Acted(action, m.tick), call);
    var rest := Conclude(env, Counted(m, index, outcome), index, seenAt, Acted(action, m.tick), outcome);
    TellsInTurn(env, who, m.st.outputs, prior, 0, 0, sent, rest, [Own(call)], more);
    blocks := [Own(call)] + more;
  }

  // ---------------------------------------------------------------- the whole loop

  lemma {:induction false} ClassifiedMeets(env: Env, m: Machine, index: nat, seenAt: nat, attempt: nat)
    requires index < |m.st.capability.steps| && seenAt > 0 && !env.surface.overrun(seenAt - 1)
    requires LookAt(env, m, index, seenAt).IsRecoverable?
    ensures MeetsItsScreen(env, WhoOf(m.st), RuleApplied(m.st.isRemedy,
                m.st.capability.recovery[LookAt(env, m, index, seenAt).index], attempt, seenAt))
  {
    var k := LookAt(env, m, index, seenAt).index;
    var screen := env.surface.observe(seenAt);
    assert k == FirstRule(m.st.capability.recovery, screen, m.st.inputs, 0);
    assert IsFirstToMatch(WhoOf(m.st), screen, m.st.capability.recovery[k], k);
  }

  lemma {:induction false} RunStepTells(env: Env, m: Machine, index: nat, attempts: nat) returns (blocks: seq<Block>)
    requires index < |m.st.capability.steps|
    ensures Tells(env, WhoOf(m.st), m.st.outputs, attempts, 0, RunStep(env, m, index, attempts), blocks)
    decreases Left(env, m), 2, 0
  {
    hide Tells, Fail, Recover, LookAt, DispatchStep, EndWithOutcome, MeetsItsScreen;
    if env.surface.overrun(m.tick) {
      blocks := FailTells(env, m.(tick := m.tick + 1), Timeout, attempts, 0);
    } else {
      var seenAt := m.tick + 1;
      var m1 := m.(tick := seenAt + 1);
      match LookAt(env, m1, index, seenAt)
      case IsOutcome(k) => blocks := OutcomeTells(env, m1, k, seenAt, attempts);
      case IsUnexpected => blocks := FailTells(env, m1, UnexpectedState, attempts, 0);
      case IsExpected => blocks := DispatchStepTells(env, m1, index, seenAt, attempts);
      case IsRecoverable(k) =>
        ClassifiedMeets(env, m1, index, seenAt, attempts + 1);
        var recovered := Recover(env, m1, k, attempts + 1, seenAt);
        blocks := RecoverTells(env, m1, k, attempts + 1, seenAt);
        if recovered.result.None? {
          var rest := RunStepTells(env, recovered.m, index, attempts + 1);
          TellsInTurn(env, WhoOf(m.st), m.st.outputs, attempts, attempts + 1, 0, recovered,
                      RunStep(env, recovered.m, index, attempts + 1), blocks, rest);
          blocks := blocks + rest;
        } else {
          EndedTells(env, WhoOf(m.st), m.st.outputs, attempts, attempts + 1, 0, recovered, blocks);
        }
    }
  }

  lemma EndedTells(env: Env, who: Who, outputs: Bindings, prior: nat, next: nat, other: nat, out: Out,
                   blocks: seq<Block>)
    requires Tells(env, who, outputs, prior, next, out, blocks) && out.result.Some?
    ensures Tells(env, who, outputs, prior, other, out, blocks)
  {
    hide Story, ReadAlong, Whole;
  }

  lemma {:induction false} OutcomeTells(env: Env, m: Machine, index: nat, seenAt: nat, prior: nat)
    returns (blocks: seq<Block>)
    ensures Tells(env, WhoOf(m.st), m.st.outputs, prior, 0, EndWithOutcome(m, index, seenAt), blocks)
  {
    var out := EndWithOutcome(m, index, seenAt);
    blocks := [Own(out.log[0])];
    OneEventTells(env, WhoOf(m.st), m.st.outputs, prior, out.log[0], out);
  }

  /** What remedies tell: the parts begun, and the call for a person if they ended the
      run and one was made. */
  ghost predicate PartsTell(env: Env, who: Who, outputs: Bindings, remedies: seq<Remedy>, out: Out, parts: seq<Part>,
                            tail: seq<Block>)
  {
    && out.log == PartsLog(parts) + Written(tail)
    && (tail == [] || (tail == [Own(Escalated)] && !who.isRemedy && out.result.Some?))
    && |parts| <= |remedies|
    && (forall i | 0 <= i < |parts| :: Begins(env, who, outputs, remedies[i], parts[i]))
    && (forall i | 0 <= i < |parts| - 1 :: CarriedOut(env, parts[i]))
    && (out.result.None? ==> |parts| == |remedies| && forall i | 0 <= i < |parts| :: CarriedOut(env, parts[i]))
    && (out.result.Some? ==> !out.result.value.ending.Success?)
    && out.m.st.outputs == outputs && HandsBack(out)
    && ReadAlong(env, who.isRemedy, outputs, PartsLog(parts)) == outputs
  }

  lemma {:induction false} RecoverTells(env: Env, m: Machine, k: nat, attempt: nat, seenAt: nat)
    returns (blocks: seq<Block>)
    requires k < |m.st.capability.recovery| && attempt > 0
    requires MeetsItsScreen(env, WhoOf(m.st), RuleApplied(m.st.isRemedy, m.st.capability.recovery[k], attempt, seenAt))
    ensures Tells(env, WhoOf(m.st), m.st.outputs, attempt - 1, attempt, Recover(env, m, k, attempt, seenAt), blocks)
    decreases Left(env, m), 1, 0
  {
    hide Tells, Fail, Remedies, MeetsItsScreen, PartsTell;
    var rule := m.st.capability.recovery[k];
    var m1 := m.(st := m.st.(recoveryAttempts := m.st.recoveryAttempts + 1));
    if m1.st.recoveryAttempts > env.cfg.maxRecoveryTotal || attempt > rule.maxAttempts {
      blocks := FailTells(env, m1, RecoveryExhausted, attempt - 1, attempt);
    } else {
      var applied := RuleApplied(m.st.isRemedy, rule, attempt, seenAt);
      var parts, tail := RemediesTell(env, m1, rule.remedy);
      blocks := [Recovery(applied, parts)] + tail;
      RecoveryTells(env, WhoOf(m.st), m.st.outputs, applied, Remedies(env, m1, rule.remedy), parts, tail);
    }
  }

  lemma {:induction false} RecoveryTells(env: Env, who: Who, outputs: Bindings, applied: Event, out: Out,
                                         parts: seq<Part>, tail: seq<Block>)
    requires applied.RuleApplied? && applied.isRemedy == who.isRemedy && MeetsItsScreen(env, who, applied)
    requires 0 < applied.attempt <= applied.rule.maxAttempts
    requires PartsTell(env, who, outputs, applied.rule.remedy, out, parts, tail)
    ensures Tells(env, who, outputs, applied.attempt - 1, applied.attempt, After([applied], out),
                  [Recovery(applied, parts)] + tail)
  {
    hide MeetsItsScreen, Begins, CarriedOut, Written, ReadAlong, PartsLog;
    var block, blocks := Recovery(applied, parts), [Recovery(applied, parts)] + tail;
    RecoveryWrites(env, who.isRemedy, outputs, applied, parts, tail);
    assert blocks[1..] == tail;
    assert BlockTells(env, who, outputs, applied.attempt - 1, block);
    assert Story(env, who, outputs, applied.attempt, tail);
    assert Story(env, who, outputs, applied.attempt - 1, blocks);
    assert AfterBlocks(applied.attempt - 1, blocks) == AfterBlocks(applied.attempt, tail);
  }

  lemma {:induction false} RecoveryWrites(env: Env, isRemedy: bool, outputs: Bindings, applied: Event, parts: seq<Part>,
                                          tail: seq<Block>)
    requires applied.RuleApplied? && (tail == [] || tail == [Own(Escalated)])
    requires ReadAlong(env, isRemedy, outputs, PartsLog(parts)) == outputs
    ensures var block, blocks := Recovery(applied, parts), [Recovery(applied, parts)] + tail;
            && Written(blocks) == [applied] + (PartsLog(parts) + Written(tail))
            && ReadAlong(env, isRemedy, outputs, BlockLog(block)) == outputs
            && ReadAlong(env, isRemedy, outputs, Written(blocks)) == outputs
  {
    var block, blocks := Recovery(applied, parts), [Recovery(applied, parts)] + tail;
    assert blocks[1..] == tail && BlockLog(block) == [applied] + PartsLog(parts);
    assert Written(blocks) == BlockLog(block) + Written(tail);
    assert [applied][1..] == [] && ReadAlong(env, isRemedy, outputs, [applied]) == outputs;
    if tail == [] {
      assert Written(tail) == [] && ReadAlong(env, isRemedy, outputs, []) == outputs;
    } else {
      assert tail[1..] == [] && [Escalated][1..] == [] && [Escalated] + [] == [Escalated];
      assert Written(tail) == [Escalated] && ReadAlong(env, isRemedy, outputs, [Escalated]) == outputs;
    }
    hide ReadAlong, Written, PartsLog;
    ReadInTurn(env, isRemedy, outputs, [applied], PartsLog(parts));
    ReadInTurn(env, isRemedy, outputs, BlockLog(block), Written(tail));
    assert [applied] + (PartsLog(parts) + Written(tail)) == BlockLog(block) + Written(tail);
  }

  lemma {:induction false} RemediesTell(env: Env, m: Machine, remedies: seq<Remedy>)
    returns (parts: seq<Part>, tail: seq<Block>)
    ensures PartsTell(env, WhoOf(m.st), m.st.outputs, remedies, Remedies(env, m, remedies), parts, tail)
    decreases Left(env, m), 5, |remedies| + 1
  {
    hide PartsTell, OneRemedy;
    if remedies == [] {
      parts, tail := [], [];
      NoPartsTell(env, m);
    } else {
      var first := OneRemedy(env, m, remedies[0]);
      parts, tail := OneRemedyTells(env, m, remedies[0]);
      if first.result.None? {
        PartsReadNothing(env, WhoOf(m.st), m.st.outputs, [remedies[0]], first, parts, tail);
        var more, rest := RemediesTell(env, first.m, remedies[1..]);
        OnePartMore(env, WhoOf(m.st), m.st.outputs, remedies, first, Remedies(env, first.m, remedies[1..]), parts, more,
                    tail, rest);
        parts, tail := parts + more, rest;
      } else {
        TheLastPart(env, WhoOf(m.st), m.st.outputs, remedies, first, parts, tail);
      }
    }
  }

  lemma PartsReadNothing(env: Env, who: Who, outputs: Bindings, remedies: seq<Remedy>, out: Out, parts: seq<Part>,
                         tail: seq<Block>)
    requires PartsTell(env, who, outputs, remedies, out, parts, tail)
    ensures out.m.st.outputs == outputs
  {
    hide Begins, CarriedOut, ReadAlong, PartsLog, Written;
  }

  lemma NoPartsTell(env: Env, m: Machine)
    ensures PartsTell(env, WhoOf(m.st), m.st.outputs, [], Out(m, [], None), [], [])
  {
  }

  lemma {:induction false} PartsInTurn(a: seq<Part>, b: seq<Part>)
    ensures PartsLog(a + b) == PartsLog(a) + PartsLog(b)
  {
    if a == [] {
      assert a + b == b;
    } else {
      assert (a + b)[1..] == a[1..] + b;
      PartsInTurn(a[1..], b);
    }
  }

  lemma {:induction false} TheLastPart(env: Env, who: Who, outputs: Bindings, remedies: seq<Remedy>, out: Out,
                                       parts: seq<Part>, tail: seq<Block>)
    requires remedies != [] && PartsTell(env, who, outputs, [remedies[0]], out, parts, tail) && out.result.Some?
    ensures PartsTell(env, who, outputs, remedies, out, parts, tail)
  {
    hide Begins, CarriedOut, ReadAlong, PartsLog, Written;
  }

  lemma {:induction false} OnePartMore(env: Env, who: Who, outputs: Bindings, remedies: seq<Remedy>, first: Out,
                                       rest: Out, part: seq<Part>, more: seq<Part>, none: seq<Block>,
                                       tail: seq<Block>)
    requires remedies != [] && first.result.None?
    requires PartsTell(env, who, outputs, [remedies[0]], first, part, none)
    requires PartsTell(env, who, outputs, remedies[1..], rest, more, tail)
    ensures PartsTell(env, who, outputs, remedies, After(first.log, rest), part + more, tail)
  {
    hide Begins, CarriedOut, ReadAlong, PartsLog;
    assert none == [] && Written(none) == [];
    assert PartsLog(part) + [] == PartsLog(part);
    PartsInTurn(part, more);
    ReadInTurn(env, who.isRemedy, outputs, PartsLog(part), PartsLog(more));
    var all := part + more;
    assert PartsLog(part) + (PartsLog(more) + Written(tail)) == PartsLog(all) + Written(tail);
    assert |part| == 1 && all[0] == part[0];
    assert forall i | 1 <= i < |all| :: all[i] == more[i - 1] && remedies[i] == remedies[1..][i - 1];
  }

  lemma {:induction false} OneRemedyTells(env: Env, m: Machine, remedy: Remedy)
    returns (parts: seq<Part>, tail: seq<Block>)
    ensures PartsTell(env, WhoOf(m.st), m.st.outputs, [remedy], OneRemedy(env, m, remedy), parts, tail)
    decreases Left(env, m), 5, 0
  {
    hide PartsTell, RunRemedy, ActRemedy;
    match remedy
    case RunCapability(id, inputs) => parts, tail := RunRemedyTells(env, m, id, inputs);
    case Act(action) => parts, tail := ActRemedyTells(env, m, action);
  }

  lemma {:induction false} OnePart(part: Part)
    ensures PartsLog([part]) == PartLog(part)
  {
    assert [part][1..] == [];
    assert PartLog(part) + [] == PartLog(part);
  }

  lemma {:induction false} ActRemedyTells(env: Env, m: Machine, action: Action)
    returns (parts: seq<Part>, tail: seq<Block>)
    ensures PartsTell(env, WhoOf(m.st), m.st.outputs, [Act(action)], ActRemedy(env, m, action), parts, tail)
  {
    hide Fail, Tells, Story;
    var outcome := env.surface.execute(m.tick + 1, action);
    var m1 := m.(tick := m.tick + 2);
    var call := Dispatched(m.st.isRemedy, OfRemedy, action, m.tick + 1);
    parts := [Did(call)];
    OnePart(Did(call));
    assert [call][1..] == [] && ReadAlong(env, m.st.isRemedy, m.st.outputs, [call]) == m.st.outputs;
    if outcome.status == DispatchOk {
      tail := [];
    } else {
      var code := outcome.failureCode.GetOr(ActionFailed);
      FailShape(env, m1, code);
      tail := FailTells(env, m1, code, 0, 0);
      FailWrites(env, m1, code, tail);
    }
  }

  lemma FailWrites(env: Env, m: Machine, code: FailureCode, tail: seq<Block>)
    requires Tells(env, WhoOf(m.st), m.st.outputs, 0, 0, Fail(env, m, code), tail)
    ensures Fail(env, m, code).log == Written(tail)
  {
    hide Fail, Story, Whole;
  }

  lemma {:induction false} RemediesReadNothing(env: Env, outputs: Bindings, log: seq<Event>)
    requires forall i | 0 <= i < |log| :: OfARemedy(log[i]) || log[i].RemedyStarted?
    ensures ReadAlong(env, false, outputs, log) == outputs
    decreases |log|
  {
    if log != [] {
      assert OfARemedy(log[0]) || log[0].RemedyStarted?;
      RemediesReadNothing(env, outputs, log[1..]);
    }
  }

  lemma {:induction false} BoundSupplies(env: Env, capability: Capability, values: map<string, ValueExpr>,
                                         inputs: Bindings, outputs: Bindings, bound: Bindings)
    requires BindAll(values, inputs, outputs).Some?
    requires env.cfg.validate(capability, BindAll(values, inputs, outputs).value) == Some(bound)
    ensures Supplies(env, capability, values, inputs, outputs, bound)
  {
    var supplied := BindAll(values, inputs, outputs).value;
    assert forall name | name in values :: StandsFor(values[name], inputs, outputs, None, supplied[name]);
  }

  lemma {:induction false} FoundMayRun(env: Env, st: RunState, id: string, inputs: map<string, ValueExpr>)
    requires RemedyFor(env, st, id, inputs).Ok?
    ensures var (capability, bound) := RemedyFor(env, st, id, inputs).value;
            && MayRun(env, WhoOf(st), id, capability)
            && Supplies(env, capability, inputs, st.inputs, st.outputs, bound)
  {
    var (capability, bound) := RemedyFor(env, st, id, inputs).value;
    BoundSupplies(env, capability, inputs, st.inputs, st.outputs, bound);
    hide BindAll, Supplies;
  }

  lemma {:induction false} RunRemedyTells(env: Env, m: Machine, id: string, inputs: map<string, ValueExpr>)
    returns (parts: seq<Part>, tail: seq<Block>)
    ensures PartsTell(env, WhoOf(m.st), m.st.outputs, [RunCapability(id, inputs)], RunRemedy(env, m, id, inputs), parts,
                      tail)
    decreases Left(env, m), 4, 0
  {
    hide PartsTell, Tells, Fail, RunThrough, ReportBack, RemedyFor, Supplies, Story;
    match RemedyFor(env, m.st, id, inputs)
    case Err(code) =>
      parts := [];
      tail := FailTells(env, m, code, 0, 0);
      RefusedTells(env, m, RunCapability(id, inputs), code, tail);
    case Ok((capability, bound)) =>
      FoundMayRun(env, m.st, id, inputs);
      var remedial := Remedial(m, capability, bound);
      var ended := RunThrough(env, remedial, 0);
      var blocks := RunThroughTells(env, remedial, 0);
      RemedyRunLaw(env, remedial, Uncounted);
      var part := Ran(capability, bound, blocks);
      TellsAStory(env, remedial, ended, blocks);
      if ended.result.value.ending.Success? {
        SuccessEndsOnItsCheckpoint(env, remedial, 0);
        assert CarriedOut(env, part);
      }
      parts := [part];
      tail := RanTells(env, m, RunCapability(id, inputs), ended, part);
  }

  lemma TellsAStory(env: Env, m: Machine, out: Out, blocks: seq<Block>)
    requires Tells(env, WhoOf(m.st), m.st.outputs, 0, 0, out, blocks)
    ensures Written(blocks) == out.log && Story(env, WhoOf(m.st), m.st.outputs, 0, blocks)
  {
    hide Story, ReadAlong, Whole, Written;
  }

  lemma RefusedTells(env: Env, m: Machine, remedy: Remedy, code: FailureCode, tail: seq<Block>)
    requires Tells(env, WhoOf(m.st), m.st.outputs, 0, 0, Fail(env, m, code), tail)
    requires tail == [] || (tail == [Own(Escalated)] && !m.st.isRemedy)
    ensures PartsTell(env, WhoOf(m.st), m.st.outputs, [remedy], Fail(env, m, code), [], tail)
  {
    FailShape(env, m, code);
    hide Fail, Story, Whole;
    assert [] + Written(tail) == Written(tail);
  }

  lemma {:induction false} SuccessEndsOnItsCheckpoint(env: Env, m: Machine, start: nat)
    requires RunThrough(env, m, start).result.value.ending.Success?
    ensures var log := RunThrough(env, m, start).log;
            && log != []
            && var last := log[|log| - 1];
               last.CheckpointMet? && last.isRemedy == m.st.isRemedy && last.capability == m.st.capability
               && last.inputs == m.st.inputs
  {
    hide RunSteps, Fail, Tallied;
    RunStepsLaw(env, m, start, Uncounted);
    var ran := RunSteps(env, m, start);
    if ran.result.None? { CheckpointSays(env, ran.m); }
  }

  lemma CheckpointSays(env: Env, m: Machine)
    requires VerifyCheckpoint(env, m).result.value.ending.Success?
    ensures exists at: nat ::
              VerifyCheckpoint(env, m).log == [CheckpointMet(m.st.isRemedy, m.st.capability, m.st.inputs, at)]
  {
    var m1 := m.(tick := m.tick + 1);
    FailShape(env, m1, CheckpointFailed);
    hide Fail;
    assert VerifyCheckpoint(env, m).log == [CheckpointMet(m.st.isRemedy, m.st.capability, m.st.inputs, m.tick)];
  }

  /** A remedy capability's run, and what the run it serves makes of its ending. */
  lemma {:induction false} RanTells(env: Env, m: Machine, remedy: Remedy, ended: Out, part: Part)
    returns (tail: seq<Block>)
    requires !m.st.isRemedy && part.Ran? && Begins(env, WhoOf(m.st), m.st.outputs, remedy, part)
    requires Written(part.blocks) == ended.log && forall e | e in ended.log :: OfARemedy(e)
    requires ended.result.Some? && !ended.result.value.ending.NeedsHuman?
    requires ended.result.value.ending.Success? ==> CarriedOut(env, part)
    ensures PartsTell(env, WhoOf(m.st), m.st.outputs, [remedy],
                      After([RemedyStarted(part.capability)] + ended.log,
                            ReportBack(env, HandedBack(m, ended.m), ended.result.value.ending)), [part], tail)
  {
    hide Begins, CarriedOut, Tells, Fail;
    var back, ending := HandedBack(m, ended.m), ended.result.value.ending;
    var log := [RemedyStarted(part.capability)] + ended.log;
    OnePart(part);
    assert PartsLog([part]) == log;
    RemediesReadNothing(env, m.st.outputs, log);
    hide PartsLog, Written, ReadAlong;
    if ending.Success? || ending.Raised? {
      tail := [];
      NothingWritten();
      assert log + [] == log;
    } else {
      var code := if ending.BusinessOutcome? then RecoveryExhausted else ending.code;
      FailShape(env, back, code);
      tail := FailTells(env, back, code, 0, 0);
      FailWrites(env, back, code, tail);
    }
  }

  lemma NothingWritten()
    ensures Written([]) == []
  {
  }

  lemma {:induction false} RunThroughTells(env: Env, m: Machine, start: nat) returns (blocks: seq<Block>)
    ensures Tells(env, WhoOf(m.st), m.st.outputs, 0, 0, RunThrough(env, m, start), blocks)
    decreases Left(env, m), 3, |m.st.capability.steps| + 1
  {
    hide Tells, RunSteps, VerifyCheckpoint;
    blocks := RunStepsTells(env, m, start);
    var ran := RunSteps(env, m, start);
    if ran.result.None? {
      var more := CheckpointTells(env, ran.m);
      TellsGoOn(env, WhoOf(m.st), m.st.outputs, 0, 0, ran, blocks);
      TellsInTurn(env, WhoOf(m.st), m.st.outputs, 0, 0, 0, ran, VerifyCheckpoint(env, ran.m), blocks, more);
      blocks := blocks + more;
    }
  }

  lemma TellsGoOn(env: Env, who: Who, outputs: Bindings, prior: nat, next: nat, out: Out, blocks: seq<Block>)
    requires Tells(env, who, outputs, prior, next, out, blocks)
    ensures out.m.st.outputs == ReadAlong(env, who.isRemedy, outputs, out.log)
  {
    hide Story, ReadAlong, Whole;
  }

  lemma {:induction false} CheckpointTells(env: Env, m: Machine) returns (blocks: seq<Block>)
    ensures Tells(env, WhoOf(m.st), m.st.outputs, 0, 0, VerifyCheckpoint(env, m), blocks)
  {
    hide Tells, Fail, EndWithOutcome;
    var m1 := m.(tick := m.tick + 1);
    match Classify(env.surface.observe(m.tick), m.st.capability, m.st.inputs, Some(m.st.capability.checkpoint))
    case IsOutcome(k) => blocks := OutcomeTells(env, m1, k, m.tick, 0);
    case IsExpected =>
      var out := VerifyCheckpoint(env, m);
      blocks := [Own(out.log[0])];
      OneEventTells(env, WhoOf(m.st), m.st.outputs, 0, out.log[0], out);
    case _ => blocks := FailTells(env, m1, CheckpointFailed, 0, 0);
  }

  lemma {:induction false} RunStepsTells(env: Env, m: Machine, from: nat) returns (blocks: seq<Block>)
    ensures Tells(env, WhoOf(m.st), m.st.outputs, 0, 0, RunSteps(env, m, from), blocks)
    decreases Left(env, m), 3, StepsFrom(m, from)
  {
    hide Tells, RunStep;
    if from < |m.st.capability.steps| {
      var m1 := m.(st := m.st.(stepIndex := Some(from)));
      var first := RunStep(env, m1, from, 0);
      blocks := RunStepTells(env, m1, from, 0);
      if first.result.None? {
        var more := RunStepsTells(env, first.m, from + 1);
        TellsInTurn(env, WhoOf(m.st), m.st.outputs, 0, 0, 0, first, RunSteps(env, first.m, from + 1), blocks, more);
        blocks := blocks + more;
      }
    } else {
      blocks := [];
      NothingTells(env, WhoOf(m.st), m.st.outputs, 0, Out(m, [], None));
    }
  }
}
