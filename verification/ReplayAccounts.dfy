/** A whole replay read back from its log: the gates it passed, its story, what it
    counted, and the cause of its ending. */
module ReplayAccounts {
  import opened Outcomes
  import opened Snapshots
  import opened Capabilities
  import opened Replay
  import opened ReplayLaws
  import opened ReplayTheorems
  import opened ReplayStory
  import opened ReplayEndings
  import R = ReplayReads
  import C = ReplayCauses
  import B = Broker

  // ---------------------------------------------------------------- the gates

  /** A run that does not hold the session, declares too many steps, was given inputs
      that do not validate, or may not run unapproved, touches nothing, and ends with
      the code of the first of these; a run that passes opens the entrypoint first,
      and goes no further if the surface refuses that. */
  lemma {:induction false} TheGatesComeFirst(env: Env, c: Call)
    ensures var out, st := Run(env, c), Begun(c).st;
            && (!Admitted(env, c) ==>
                  && (out.log == [] || out.log == [Escalated])
                  && Stops(st, c.broker, Refusal(env, c), out.result.value.ending)
                  && out.result.value.outputs == if out.result.value.ending.NeedsHuman? then c.priorOutputs else map[])
            && (Admitted(env, c) && Opens(c) ==> out.log != [] && out.log[0] == EntryEvent(c))
            && (Admitted(env, c) && Opens(c) && EntryRefused(env, c).Some? ==>
                  && (out.log[1..] == [] || out.log[1..] == [Escalated])
                  && Stops(st, c.broker, EntryRefused(env, c).value, out.result.value.ending))
  {
    hide Run, RunThrough, Fail, Admitted, Opens, EntryRefused, Refusal, Carries;
    var entry, m, body, refused := RunShape(env, c);
    assert [] + body.log == body.log && ([EntryEvent(c)] + body.log)[1..] == body.log;
    if refused.Some? {
      C.FailIs(env, m, refused.value);
      FailHandsOver(env, m, refused.value);
    }
  }

  lemma FailHandsOver(env: Env, m: Machine, code: FailureCode)
    ensures var r := Fail(env, m, code).result.value;
            r.outputs == if r.ending.NeedsHuman? then m.st.outputs else map[]
  {
  }

  // ---------------------------------------------------------------- the story

  function Entered(env: Env, c: Call): seq<Event> {
    if Admitted(env, c) && Opens(c) then [EntryEvent(c)] else []
  }

  function Whose(env: Env, c: Call): Who
    requires Admitted(env, c)
  {
    Who(c.capability, false, env.cfg.validate(c.capability, c.supplied).value)
  }

  /** Every run is a story: after the entry its log is made of the run's own events,
      each step's dispatch filled in from the inputs and from the outputs read so far,
      and of rules applied to the screen they are declared for, each followed by its
      remedies. Success leaves no remedy out. What a run hands back is what it was
      given and, in the order of its log, what its steps read. */
  lemma {:induction false} TheRunIsAStory(env: Env, c: Call) returns (blocks: seq<Block>)
    requires Admitted(env, c)
    ensures var out := Run(env, c);
            var ending := out.result.value.ending;
            && out.log == Entered(env, c) + Written(blocks)
            && Story(env, Whose(env, c), c.priorOutputs, 0, blocks)
            && (ending.Success? ==> Whole(env, blocks))
            && out.m.st.outputs == ReadAlong(env, false, c.priorOutputs, out.log)
            && (ending.Success? || ending.NeedsHuman? ==>
                  out.result.value.outputs == ReadAlong(env, false, c.priorOutputs, out.log))
  {
    hide Run, RunThrough, Fail, Admitted, Opens, EntryRefused, Refusal, Carries;
    var entry, m, body, refused := RunShape(env, c);
    assert R.WhoOf(m.st) == Whose(env, c);
    if refused.None? {
      blocks := R.RunThroughTells(env, m, c.start);
    } else {
      blocks := R.FailTells(env, m, refused.value, 0, 0);
    }
    TellsTheLog(env, Whose(env, c), c.priorOutputs, body, blocks);
    EnteringReadsNothing(env, c, entry, body.log);
  }

  lemma TellsTheLog(env: Env, who: Who, outputs: Bindings, out: Out, blocks: seq<Block>)
    requires R.Tells(env, who, outputs, 0, 0, out, blocks) && out.result.Some?
    ensures out.log == Written(blocks) && Story(env, who, outputs, 0, blocks)
    ensures out.result.value.ending.Success? ==> Whole(env, blocks)
    ensures out.m.st.outputs == ReadAlong(env, who.isRemedy, outputs, out.log)
    ensures out.result.value.ending.Success? || out.result.value.ending.NeedsHuman? ==>
              out.result.value.outputs == out.m.st.outputs
  {
    hide Written, Story, Whole, ReadAlong;
  }

  lemma {:induction false} EnteringReadsNothing(env: Env, c: Call, entry: seq<Event>, log: seq<Event>)
    requires entry == [] || entry == [EntryEvent(c)]
    ensures ReadAlong(env, false, c.priorOutputs, entry + log) == ReadAlong(env, false, c.priorOutputs, log)
  {
    if entry == [] {
      assert entry + log == log;
    } else {
      assert (entry + log)[0] == EntryEvent(c) && (entry + log)[1..] == log;
      assert AfterEvent(env, false, c.priorOutputs, EntryEvent(c)) == c.priorOutputs;
    }
  }

  // ---------------------------------------------------------------- every rule, wherever it stands

  /** These parts are the rule's remedies in order, begun by this run; all of them were
      carried out, or the first that was not is the last thing the run did. */
  ghost predicate CarriesOut(env: Env, who: Who, outputs: Bindings, rule: RecoveryRule, parts: seq<Part>,
                             rest: seq<Event>)
  {
    && |parts| <= |rule.remedy|
    && (forall i | 0 <= i < |parts| :: Begins(env, who, outputs, rule.remedy[i], parts[i]))
    && (forall i | 0 <= i < |parts| - 1 :: CarriedOut(env, parts[i]))
    && (|parts| < |rule.remedy| || (exists i :: 0 <= i < |parts| && !CarriedOut(env, parts[i])) ==>
          rest == [] || rest == [Escalated])
  }

  /** Wherever a run past its gates applied a rule, what its log holds next is that
      rule's remedies, each once and in order. */
  lemma {:induction false} EachRuleIsCarriedOut(env: Env, c: Call, p: nat) returns (parts: seq<Part>)
    requires Admitted(env, c) && p < |Run(env, c).log|
    requires var e := Run(env, c).log[p]; e.RuleApplied? && !e.isRemedy
    ensures var log := Run(env, c).log;
            && PartsLog(parts) <= log[p + 1..]
            && CarriesOut(env, Whose(env, c), ReadAlong(env, false, c.priorOutputs, log[..p]), log[p].rule, parts,
                          log[p + 1 + |PartsLog(parts)|..])
  {
    hide Run, Admitted, Opens, CarriesOut, PartsLog, Story, ReadAlong, Whole;
    var blocks := TheRunIsAStory(env, c);
    var entry, log := Entered(env, c), Written(blocks);
    assert entry == [] || entry == [EntryEvent(c)];
    var q := p - |entry|;
    assert (entry + log)[p] == log[q];
    hide Written;
    parts := RuleInStory(env, Whose(env, c), c.priorOutputs, 0, blocks, q);
    PastThePrefix(entry, log, p, q, q + 1 + |PartsLog(parts)|);
    EnteringReadsNothing(env, c, entry, log[..q]);
  }

  lemma PastThePrefix<T>(a: seq<T>, b: seq<T>, p: nat, q: nat, r: nat)
    requires p == |a| + q && q < r <= |b|
    ensures (a + b)[p] == b[q] && (a + b)[..p] == a + b[..q]
    ensures (a + b)[p + 1..] == b[q + 1..] && (a + b)[|a| + r..] == b[r..]
  {
  }

  lemma {:induction false} RuleInStory(env: Env, who: Who, outputs: Bindings, prior: nat, blocks: seq<Block>, p: nat)
    returns (parts: seq<Part>)
    requires !who.isRemedy && Story(env, who, outputs, prior, blocks) && p < |Written(blocks)|
    requires var e := Written(blocks)[p]; e.RuleApplied? && !e.isRemedy
    ensures var log := Written(blocks);
            && PartsLog(parts) <= log[p + 1..]
            && CarriesOut(env, who, ReadAlong(env, false, outputs, log[..p]), log[p].rule, parts,
                          log[p + 1 + |PartsLog(parts)|..])
    decreases |blocks|
  {
    hide CarriesOut, Begins, MeetsItsScreen, ReadAlong, Cut, PartsLog;
    var log, first := Written(blocks), BlockLog(blocks[0]);
    assert log == first + Written(blocks[1..]);
    if p >= |first| {
      var rest := Written(blocks[1..]);
      parts := RuleInStory(env, who, ReadAlong(env, false, outputs, first), InARow(blocks[0]), blocks[1..],
                           p - |first|);
      assert log[p] == rest[p - |first|] && log[p + 1..] == rest[p - |first| + 1..];
      assert log[p + 1 + |PartsLog(parts)|..] == rest[p - |first| + 1 + |PartsLog(parts)|..];
      assert log[..p] == first + rest[..p - |first|];
      ReadInTurn(env, false, outputs, first, rest[..p - |first|]);
    } else {
      assert log[p] == first[p];
      parts := RuleAtHand(env, who, outputs, prior, blocks, p);
    }
  }

  lemma {:induction false} RuleAtHand(env: Env, who: Who, outputs: Bindings, prior: nat, blocks: seq<Block>, p: nat)
    returns (parts: seq<Part>)
    requires !who.isRemedy && blocks != [] && Story(env, who, outputs, prior, blocks) && p < |BlockLog(blocks[0])|
    requires var e := BlockLog(blocks[0])[p]; e.RuleApplied? && !e.isRemedy
    ensures var log := Written(blocks);
            && log[p] == BlockLog(blocks[0])[p] && PartsLog(parts) <= log[p + 1..]
            && CarriesOut(env, who, ReadAlong(env, false, outputs, log[..p]), log[p].rule, parts,
                          log[p + 1 + |PartsLog(parts)|..])
  {
    hide Begins, MeetsItsScreen, PartsLog;
    assert blocks[0].Recovery?;
    parts := blocks[0].parts;
    var log, rest, told := Written(blocks), Written(blocks[1..]), PartsLog(parts);
    assert log == ([blocks[0].applied] + told) + rest;
    if p == 0 {
      assert log[..0] == [] && log[1..] == told + rest && log[1 + |told|..] == rest;
      if Cut(env, blocks[0]) { EscalatedWrites(blocks[1..]); }
    } else {
      assert told[p - 1] == BlockLog(blocks[0])[p] && told[p - 1] in told;
      PartsApplyNoRule(env, who, outputs, blocks[0].applied.rule.remedy[..|parts|], parts);
      assert false;
    }
  }

  lemma {:induction false} EscalatedWrites(blocks: seq<Block>)
    requires blocks == [] || blocks == [Own(Escalated)]
    ensures Written(blocks) == [] || Written(blocks) == [Escalated]
  {
    if blocks != [] {
      assert blocks[1..] == [] && [Escalated] + [] == [Escalated];
    }
  }

  /** What a run's remedies leave in the log is no application of a rule of its own. */
  lemma {:induction false} PartsApplyNoRule(env: Env, who: Who, outputs: Bindings, remedies: seq<Remedy>,
                                            parts: seq<Part>)
    requires |remedies| == |parts| && forall i | 0 <= i < |parts| :: Begins(env, who, outputs, remedies[i], parts[i])
    ensures forall e | e in PartsLog(parts) :: e.RuleApplied? ==> e.isRemedy
    ensures who.isRemedy ==> forall e | e in PartsLog(parts) :: OfARemedy(e)
    decreases parts
  {
    hide Supplies, MayRun, Story;
    if parts != [] {
      assert PartsLog(parts) == PartLog(parts[0]) + PartsLog(parts[1..]);
      assert Begins(env, who, outputs, remedies[0], parts[0]);
      assert forall i | 0 <= i < |parts[1..]| :: parts[1..][i] == parts[i + 1] && remedies[1..][i] == remedies[i + 1];
      PartsApplyNoRule(env, who, outputs, remedies[1..], parts[1..]);
      if parts[0].Ran? {
        assert !who.isRemedy by { MayRunOnce(env, who, remedies[0], outputs, parts[0]); }
        RemediesLeaveTheirOwn(env, Who(parts[0].capability, true, parts[0].inputs), map[], 0, parts[0].blocks);
      }
    }
  }

  lemma MayRunOnce(env: Env, who: Who, remedy: Remedy, outputs: Bindings, part: Part)
    requires Begins(env, who, outputs, remedy, part) && part.Ran?
    ensures !who.isRemedy
  {
    hide Supplies, Story;
  }

  lemma {:induction false} RemediesLeaveTheirOwn(env: Env, who: Who, outputs: Bindings, prior: nat, blocks: seq<Block>)
    requires who.isRemedy && Story(env, who, outputs, prior, blocks)
    ensures forall e | e in Written(blocks) :: OfARemedy(e)
    decreases blocks
  {
    hide MeetsItsScreen, Begins, ReadAlong, Cut, FilledIn;
    if blocks != [] {
      assert Written(blocks) == BlockLog(blocks[0]) + Written(blocks[1..]);
      RemediesLeaveTheirOwn(env, who, ReadAlong(env, true, outputs, BlockLog(blocks[0])), InARow(blocks[0]),
                            blocks[1..]);
      if blocks[0].Recovery? {
        var remedies := blocks[0].applied.rule.remedy[..|blocks[0].parts|];
        PartsApplyNoRule(env, who, outputs, remedies, blocks[0].parts);
      }
    }
  }

  // ---------------------------------------------------------------- what it counted and why it ended

  /** A run past its gates reports what its log shows it did, and has a cause for the
      way it ended that lies with the step it was at, the first it did not complete, or
      with its checkpoint once all were completed. */
  lemma {:induction false} EveryEndingHasItsCause(env: Env, c: Call) returns (cause: Cause)
    requires Admitted(env, c) && !(Opens(c) && EntryRefused(env, c).Some?)
    ensures var out := Run(env, c);
            var st, r, t := out.m.st, out.result.value,
                TallyAlong(env, false, Tally(0, 0, 0, c.priorAttempts, 0), out.log);
            && st.capability == c.capability && !st.isRemedy && st.inputs == Whose(env, c).inputs
            && st.outputs == ReadAlong(env, false, c.priorOutputs, out.log)
            && st.recoveryAttempts == t.spent + Overdrawn(cause)
            && (!r.ending.Raised? ==>
                  r.stepsExecuted == t.executed && r.resolutions == t.resolved && r.drifted == t.drifted)
            && (!r.ending.Raised? && !r.ending.BusinessOutcome? ==> r.recoveryAttempts == st.recoveryAttempts)
            && WhyEnded(env, st, c.broker, out.m.tick, t.streak, Body(out.log), r.ending, cause)
            && exists j: nat :: UndoneFrom(c, out, j, cause)
  {
    hide Run, RunThrough, Fail, Admitted, Opens, EntryRefused, Refusal, Carries, WhyEnded;
    var blocks := TheRunIsAStory(env, c);
    var entry, m, body, refused := RunShape(env, c);
    cause := C.RunThroughCounts(env, m, c.start);
    C.ThenStopped(env, m, body, cause);
    assert C.TallyOf(m.st, 0) == Tally(0, 0, 0, c.priorAttempts, 0);
    EnteringCountsNothing(env, c, C.TallyOf(m.st, 0), entry, body.log);
    C.BodyInTurn(entry, body.log);
    CarriedThrough(env, m, c.start);
    var streak := TallyAlong(env, false, C.TallyOf(m.st, 0), body.log).streak;
    C.EndsStay(env, body.m.st, c.broker, body.m.tick, streak, entry, Body(body.log), body.result.value.ending, cause);
    var j := TheFirstStepUndone(env, m, c, cause);
    EnteringCompletesNothing(c, entry, body.log);
    assert UndoneFrom(c, Run(env, c), j, cause);
  }

  /** Every step before `j` from the start index on was completed, and none after; the
      run is at step `j`, or, with no step left, at its checkpoint. */
  ghost predicate UndoneFrom(c: Call, out: Out, j: nat, cause: Cause) {
    && j <= Max(c.start, |c.capability.steps|)
    && Done(out.log, false) == Range(c.start, j)
    && (j < |c.capability.steps| ==> out.m.st.stepIndex == Some(j) && !cause.CheckpointMissed?)
    && (j >= |c.capability.steps| ==> cause.CheckpointMissed? || cause.NoneNeeded?)
  }

  lemma {:induction false} TheFirstStepUndone(env: Env, m: Machine, c: Call, cause: Cause) returns (j: nat)
    requires !m.st.isRemedy && m.st.capability == c.capability
    requires RunSteps(env, m, c.start).result.Some? ==> !cause.CheckpointMissed?
    requires RunSteps(env, m, c.start).result.None? ==> cause.CheckpointMissed? || cause.NoneNeeded?
    ensures UndoneFrom(c, RunThrough(env, m, c.start), j, cause)
  {
    hide RunSteps, Tallied, EndsHonestly, VerifyCheckpoint;
    RunStepsLaw(env, m, c.start, Uncounted);
    var ran := RunSteps(env, m, c.start);
    j := StoppedAt(m, c.start, ran);
    if ran.result.None? {
      CheckpointCompletesNothing(env, ran.m);
      CountsAdd(ran.log, VerifyCheckpoint(env, ran.m).log);
      assert Done(ran.log, false) + [] == Done(ran.log, false);
    }
  }

  lemma {:induction false} CheckpointCompletesNothing(env: Env, m: Machine)
    ensures Done(VerifyCheckpoint(env, m).log, false) == []
  {
    var out := VerifyCheckpoint(env, m);
    R.FailShape(env, m.(tick := m.tick + 1), CheckpointFailed);
    hide Fail;
    assert out.log == [] || out.log[1..] == [];
  }

  lemma CarriedThrough(env: Env, m: Machine, start: nat)
    ensures var st := RunThrough(env, m, start).m.st;
            st.capability == m.st.capability && st.isRemedy == m.st.isRemedy && st.inputs == m.st.inputs
  {
    hide RunThrough;
  }

  lemma {:induction false} EnteringCountsNothing(env: Env, c: Call, t: Tally, entry: seq<Event>, log: seq<Event>)
    requires entry == [] || entry == [EntryEvent(c)]
    ensures TallyAlong(env, false, t, entry + log) == TallyAlong(env, false, t, log)
  {
    if entry == [] {
      assert entry + log == log;
    } else {
      assert (entry + log)[0] == EntryEvent(c) && (entry + log)[1..] == log;
      assert AfterOne(env, false, t, EntryEvent(c)) == t;
    }
  }

  /** A resume whose inputs do not validate or whose screen the flow cannot start from
      touches nothing and ends for that. */
  lemma {:induction false} AnUnanchoredResumeTouchesNothing(env: Env, h: Handback)
    requires Anchor(env, h).None?
    ensures var out, c := ResumeRun(env, h), h.call;
            var code := if env.cfg.validate(c.capability, c.supplied).None? then InputValidationFailed
                        else UnexpectedState;
            && (out.log == [] || out.log == [Escalated])
            && Stops(Begun(c).st, c.broker, code, out.result.value.ending)
  {
    hide Execute, Fail, Carries;
    var m := Machine(Fresh(h.call.capability, map[], 0), h.call.tick, h.call.broker);
    C.FailIs(env, m, InputValidationFailed);
    C.FailIs(env, m.(tick := h.call.tick + 1), UnexpectedState);
  }
}
