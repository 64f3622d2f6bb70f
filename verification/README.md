# A verified model of the replay, hand-over and evidence core

The system records how a person drives a legacy screen, freezes it as a capability, and replays it
without a model in the loop, handing the session to an operator when it does not know what to do. These
Dafny modules model the deterministic half of it and prove what its documentation promises: on every
surface, for every capability, over every run and interleaving.

| part | modules |
|---|---|
| bounded replay | `Capabilities`, `Bind`, `Reanchor`, `Replay` (what a run does, as functions), `Executor` (the same in its own imperative form, proved to do what `Replay` says), `ReplayLaws`, `ReplayOrder`, `ReplayTheorems`, `ReplayStory` and `ReplayReads` (every log is a story of dispatches, reads and remedies), `ReplayEndings` and `ReplayCauses` (what is counted, and why a run ended), `ReplayAccounts` (both, of whole runs) |
| control transfer | `Leases`, `Interventions`, `Broker`, `BrokerLaws`, `HandoverLaws`, `Protocol` |
| snapshots and targets | `Snapshots`, `Names`, `NodeIds`, `SnapshotBuild`, `Trees`, `SnapshotLaws`, `SnapshotOrder`, `SnapshotShows`, `Targets`, `Targeting`, `Resolving`, `TargetingLaws`, `ResolvingLaws`, `Synthesis`, `SynthesisLaws`, `SynthesisCases` |
| authorization and approval | `Documents`, `TenantBindings`, `Authorization` |
| evidence | `Evidence`, `EvidenceLaws`, `RecordLaws` |
| transformations that keep meaning | `Serde`, `SerdeLaws`, `Compile`, `CompileLaws`, `Keys` |

The live surface is an oracle: `Env.surface` answers every observation and every dispatch at successive
ticks in any way it likes, so the results hold on adaptive and hostile pages alike. Predicates, regular
expressions, name folding, hashing, schema validation and the risk lexicon are parameters, with
injectivity assumed of a hash only where a lemma says so in a `requires`. Identifiers minted at run time
(requests, decisions) are taken to be new where that matters. Building a snapshot asks
of a raw report distinct element ids and no cycle, without which the code would not end; the laws of the tree
that is built ask besides that each listed child name its lister and that the roles reported read, once
normalized, without a slash. Termination of every replay is
part of what is verified: the loops and the mutual recursion between a step, its recovery and the remedy
it runs go down on the recovery budget that is left, never on the clock.

## Where the code and its promise part

Each of these is stated twice: as a lemma with the exact condition under which the promise does hold, and as
a lemma at an input where it does not.

- A `lease_epoch` preset on an executor is safe exactly when it is not beyond the next epoch at which
  automation has the session; on a running session, exactly when it is not in the future
  (`Protocol.PresetEpochIsSafeExactlyWhenNotInTheFuture`). With the very next epoch preset, a run that was
  cleared acts after another run's escalation has paused the session
  (`Protocol.AForeignEscalationReachesAFuturePreset`).
- A resume carries the recovery count on exactly when it finds its place
  (`ReplayTheorems.ResumeCarriesTheBudgetExactlyWhenAnchored`). One that cannot re-anchor answers from a new
  state with a count of zero and no outputs, so a caller who passes that count on hands back the whole budget
  (`ReplayTheorems.AResumeCanForgetTheBudget`). The docstring of `resume` says a retry budget cannot be
  refreshed by being resumed.
- Cleaning a name is not idempotent (exact condition in `Names.CleaningTwice`): `Name: *` becomes `Name:` and
  only then `Name` (`Names.SeparatorsComeOffInRounds`).
- A synthesized name finds its node exactly when no other name cleans to the same text
  (`Synthesis.NamedNodesAreFoundAgain`): beside a box `Name`, the required box `Name: *` is recorded as unique
  and refused (`SynthesisCases.ARequiredFieldIsNotFoundAgain`).
- A synthesized position is counted over the whole pool but applied to whichever rung is ambiguous, and works
  exactly when everything before it is in that rung's list (`Synthesis.PositionedNodesAreFoundAgain`): else it
  is refused, or the next node of the same style is taken for it (`SynthesisCases.AnImageIsTakenForItsNeighbour`).
- A synthesized label skips data on its way to the left, and replay reads the first cell after the label that
  fits (`Synthesis.LabelledCellsAreFoundAgain`): of two figures beside one label, the near one is read for the
  far one, although the description is recorded as unique
  (`SynthesisCases.TheFigureNextToTheLabelIsReadInstead`).
- A step in the run record carries its own target resolution exactly when it made one or none was left
  over (`EvidenceLaws.AResolutionIsItsOwnExactlyWhen`): a navigation taken after a refused click is recorded
  with the refused click's node (`EvidenceLaws.ANavigationIsRecordedWithTheRefusedClicksNode`).
- The compiler may declare an input no step refers to, which its documentation means to rule out
  (`Compile.AnInputIsUsedExactlyWhen`): when two labels were typed the same value
  (`Compile.AValueTypedTwiceLeavesAnInputUnused`), or a value was typed on a control that could not be
  described (`Compile.AValueTypedNowhereLeavesAnInputUnused`).
- The difference shown after a hand-over says "nothing changed" as long as no value that was there reads
  differently (`Reanchor.UnchangedMeans`): filling in a blank box, or clearing one, is no change
  (`Reanchor.FillingABlankIsNoChange`).
- Writing a document and reading it back is the identity exactly when everything left out equals its default
  (`Serde.RoundTrip`): an outcome whose data holds an empty list is read back with no data
  (`Serde.AnEmptyAnswerIsReadBackAsNone`).
- The key under which replays are compared is one-to-one exactly when no two input values have the same text
  (`Keys.KeysAreOneToOneExactlyWhen`): runs on the number 1 and on the text `1` are compared with each other
  (`Keys.ANumberIsTakenForItsText`).

Two differences are of wording only, and the model follows the code: a resume planned at index 0 does open the
entrypoint, which the docstring of `resume` says no resume does; and `assert` and `wait_for` steps return before
their own wait and postcondition, so that the evidence stated for them (`ReplayLaws.StepEvidence`) is
accordingly weaker.

## Model

| member | source | states |
|---|---|---|
| Replay.Classify | src/cua/replay/classify.py:49-105 | An outcome verdict names the first declared outcome that matches; a recovery verdict only comes when no outcome matches; anything else means nothing declared explains the screen, and the expectation decides |
| Replay.Polls | src/cua/replay/wait.py:34-77 | A wait stops at the first poll that settles it, no earlier, and at the deadline at the latest |
| ReplayTheorems.WaitsEndOnWhatTheyWaitFor | src/cua/replay/wait.py:34-92 | A wait ends, satisfied, at the first look at which what it waits for has come about, and otherwise, unsatisfied, at its deadline: for stillness two looks of this wait in a row with the same address and the same node ids, names and values; for a navigation a changed address or node count; for a predicate that it holds |
| ReplayLaws.DispatchStepIsSound | src/cua/replay/executor.py:440-587 | A step that completes was accepted by the surface after the look that chose it, its wait was satisfied by a later screen, and that screen met the postcondition |
| ReplayLaws.RunStepLaw | src/cua/replay/executor.py:392-438 | However often a step recovers first: budget, dispatch count, evidence and endings of the piece it adds |
| ReplayLaws.RecoverLaw | src/cua/replay/executor.py:591-652 | One recovery: within the rule's own attempts and the run's total, all its events belonging to this run |
| ReplayLaws.RunRemedyLaw | src/cua/replay/executor.py:654-761 | A remedy capability draws on, and reports back to, the count of the run it serves; it escalates nothing itself |
| ReplayLaws.FailEndsHonestly | src/cua/replay/executor.py:837-949 | No failure path returns success; an escalation is the last event and opens exactly one request |
| ReplayTheorems.SuccessIsEarned | src/cua/replay/executor.py:300-390 | SUCCESS only past the gates and if each step from the start index was completed in order, with its evidence, within the duration and on unexplained screens; exactly those that act were dispatched, once each, and right before each stands the accepted dispatch its evidence is about; each look is taken after the screen the step before settled on; the entrypoint was opened if it had to be; and the very last look of the run meets the checkpoint with no outcome or rule matching |
| ReplayTheorems.RunTold | src/cua/replay/executor.py:300-438 | Over every run, remedies included and however it ends: events in order of time, each completed step right after its own dispatch, and an answer read from the last look taken |
| ReplayAccounts.TheGatesComeFirst | src/cua/replay/executor.py:330-380 | A run that does not hold the session, has too many steps, inputs that do not validate or no approval where one is needed dispatches nothing and ends with the code of the first of these; past them the entrypoint is opened first, and a surface that refuses that ends the run with its own code |
| ReplayAccounts.TheRunIsAStory | src/cua/replay/executor.py:440-556 | Past its gates, and however it ends, a run's log is the entry, then dispatches of its own steps, each the declared action filled in from the inputs, the secrets and the outputs read so far, its own completions, and rules, each the first to match its screen, followed by its remedies; what SUCCESS and NEEDS_HUMAN hand back is what was carried in updated, in the order of the log, by what each `extract` read off the node its dispatch resolved: the non-empty value, else the name, under the transform; success leaves no remedy out |
| ReplayAccounts.EachRuleIsCarriedOut | src/cua/replay/executor.py:591-761 | Wherever a run applied a rule, its log goes on with that rule's remedies, each once and in order: an action put to the surface, or the whole run of a capability the remedy may run, on inputs that resolve and validate; all of them accepted or ended on their checkpoint, unless the first that was not is the last thing the run did |
| ReplayAccounts.EveryEndingHasItsCause | src/cua/replay/executor.py:392-949 | Every ending past the gates but success and an answer has a cause that can be read off the log, the surface and the capability, with the code that goes with it: overtime, an unexplained screen, a value that stands for nothing, a failed assertion, a wait that was never met, a refused or unreadable dispatch, a missing effect, a spent rule or budget, a remedy that could not start, was refused or failed for a cause of its own, or the checkpoint; it lies with the first step not completed; a person is called exactly when the capability lists the code; and the counts of steps, resolutions, drift and attempts reported are those of the log |
| ReplayAccounts.AnUnanchoredResumeTouchesNothing | src/cua/replay/executor.py:214-283 | A resume whose inputs do not validate or that finds no place to start dispatches nothing and ends for that |
| ReplayReads.ConcludeTells | src/cua/replay/executor.py:518-556 | What follows a dispatch goes on from the outputs with what that dispatch read |
| ReplayReads.RecoverTells | src/cua/replay/executor.py:591-652 | One recovery tells its rule, met on the screen it is declared for, and the parts of it that were carried out |
| ReplayReads.RunRemedyTells | src/cua/replay/executor.py:654-761 | A remedy capability's whole run is one part of the recovery it serves, and has a story of its own |
| ReplayCauses.RunThroughCounts | src/cua/replay/executor.py:382-388 | The steps and the checkpoint: the state kept is the tally of the log, and an ending has its cause |
| ReplayStory.BindingFillsIn | src/cua/replay/bind.py:33-83 | A bound action is the declared one with the value its expression stands for |
| ReplayTheorems.TheAnswerIsTheFirstDeclared | src/cua/replay/executor.py:811-835 | BUSINESS_OUTCOME carries the first declared outcome that matches, under the validated inputs, the last screen the run looked at |
| ReplayTheorems.RecoveryIsBounded | src/cua/replay/executor.py:591-652 | Rule applications, those inside remedies included, number at most max(0, total minus prior attempts), each within its rule's maximum, and the returned count covers them |
| ReplayTheorems.RerunningNeverRefreshesTheBudget | src/cua/replay/executor.py:355-357 | Running again with the count the first run returned: both together stay within the first one's budget |
| ReplayTheorems.RemediesDoNotNest | src/cua/replay/executor.py:670-690 | A remedy starts no remedy and opens no intervention |
| ReplayTheorems.DispatchesAreBounded | src/cua/replay/executor.py:300-390 | Driver calls number at most 1 + n + T * R * max(1, M) |
| ReplayTheorems.ThePolicyBoundsDispatches | src/cua/replay/executor.py:141-146 | With the policy's step ceiling S, driver calls number at most 1 + S + T * R * max(1, S), whatever is in the catalog |
| ReplayTheorems.OneEscalationExactlyWhenAHumanIsNeeded | src/cua/replay/executor.py:837-949 | A supervised run opens exactly one intervention and pauses the session when it ends NEEDS_HUMAN, and touches neither otherwise, however many remedies failed in it |
| ReplayTheorems.ResumeRepeatsNothing | src/cua/replay/executor.py:214-283 | A resume planned at r dispatches no step before r, opens the entrypoint only if r is 0, and on success keeps every prior output name |
| ReplayTheorems.ResumeCarriesTheBudgetExactlyWhenAnchored | src/cua/replay/executor.py:248-283 | The returned count covers what was spent exactly when the resume found its place or nothing had been spent |
| ReplayTheorems.AResumeCanForgetTheBudget | src/cua/replay/executor.py:248-271 | A concrete family in which three spent attempts come back as zero |
| Executor.Executor.WaitFor | src/cua/replay/wait.py:34-77 | The polling loop ends where and as the specification of waiting says |
| Executor.Executor.Fail | src/cua/replay/executor.py:837-949 | Leaves state, session and journal as specified for a failure, through the broker's own `escalate` |
| Executor.Executor.DispatchStep | src/cua/replay/executor.py:440-497 | Binds, evaluates assertions and waits without the surface, dispatches the rest; state and journal as specified |
| Executor.Executor.DispatchBound | src/cua/replay/executor.py:499-516 | One dispatch, counted with its resolution and drift, then its conclusion |
| Executor.Executor.Conclude | src/cua/replay/executor.py:518-556 | A read that resolved is stored, as the non-empty value or else the name of the node under the transform, or refused for blankness or its transform; any other status but OK fails; nothing else changes the outputs |
| Executor.Executor.Settle | src/cua/replay/executor.py:558-587 | Waits, then holds the settled screen to the postcondition |
| Executor.Executor.RunStep | src/cua/replay/executor.py:392-438 | The look-classify-recover loop does exactly the specified step, from the same starting state |
| Executor.Executor.Recover | src/cua/replay/executor.py:591-625 | Counts the attempt before either limit is checked; if the run goes on, what the journal gained is the application of the rule and all its remedies, in order, each carried out |
| Executor.Executor.ApplyRemedies | src/cua/replay/executor.py:626-652 | The loop over remedies stops at the first that ends the run |
| Executor.Executor.RunRemedy | src/cua/replay/executor.py:654-761 | Runs on a state of its own and hands its count back whichever way it ends |
| Executor.Executor.RunThrough | src/cua/replay/executor.py:382-388 | The loop over the steps, then the checkpoint |
| Executor.Executor.VerifyCheckpoint | src/cua/replay/executor.py:765-809 | Outcome, success or CHECKPOINT_FAILED on one last look |
| Executor.Executor.Execute | src/cua/replay/executor.py:300-388 | The gates in order, the entrypoint, the run |
| Executor.Executor.Resume | src/cua/replay/executor.py:214-283 | Validates, observes once, reconciles, and executes from the planned index |
| Reanchor.Reconcile | src/cua/hitl/reanchor.py:104-153 | The scan returns the specified plan |
| Reanchor.ReconcilePlansTheLeastUndoneStep | src/cua/hitl/reanchor.py:104-153 | The index returned is the least at or after the start whose step is not visibly done; none is returned exactly when that step cannot start; exactly the steps before it are skipped |
| Reanchor.UnchangedMeans | src/cua/hitl/reanchor.py:37-87 | "Nothing changed" means same address, same node ids, and no value that was there reads differently |
| Reanchor.FillingABlankIsNoChange | src/cua/hitl/reanchor.py:37-87 | Two screens that differ by a value, between which nothing changed |
| Reanchor.TheDeltaTells | src/cua/hitl/reanchor.py:37-87 | The difference counts exactly the nodes that came and went, has both addresses, and lists exactly the values that read differently where both had one |
| Leases.TransitionsFollowTheDiagram | src/cua/hitl/lease.py:95-155 | Each transition is possible from exactly one state, moves the epoch by one, keeps the history, and leaves the fields telling one story |
| Leases.Lease.AssertHeld | src/cua/hitl/lease.py:75-93 | Passes exactly for the holder, at the current epoch, before the hold runs out, and says which of the three it was |
| Leases.Lease.Claim | src/cua/hitl/lease.py:114-125 | The whole new lease, the operator's from now until `now + hold_for`, or the old one and a refusal |
| Leases.Lease.ReclaimExpired | src/cua/hitl/lease.py:145-155 | Only a lapsed human hold goes back to PAUSED |
| Interventions.InterventionQueue.Claim | src/cua/hitl/intervention.py:104-111 | Only an open request is claimed; the queue is otherwise unchanged |
| Interventions.InterventionQueue.Release | src/cua/hitl/intervention.py:113-123 | Only a claimed request is handed back, with what the operator did |
| Broker.SessionBroker.ClaimSession | src/cua/hitl/broker.py:117-152 | Queue and lease move together or, by the explicit rollback, not at all |
| Broker.SessionBroker.DoHumanAction | src/cua/hitl/broker.py:154-179 | Dispatches at the current epoch under an unexpired hold and counts the action |
| Broker.SessionBroker.ReleaseSession | src/cua/hitl/broker.py:210-241 | Files the delta and the count with the request and hands the lease back |
| Broker.SessionBroker.SweepSession | src/cua/hitl/broker.py:243-279 | A lapsed hold is abandoned and the session paused, with the reading of the clock taken twice |
| Broker.SessionBroker.ResumeSession | src/cua/hitl/broker.py:281-289 | Resolves the request and gives automation a new epoch |
| BrokerLaws.ReachableStatesAgree | src/cua/hitl/broker.py:69-289 | RUNNING: all requests resolved; PAUSED: exactly one unresolved, claimable; HUMAN_CONTROL: exactly one, claimed by the lease's operator and named by the handoff; RESUMING: exactly one, handed back; over every sequence of calls |
| BrokerLaws.RefusedCallsChangeNothing | src/cua/hitl/broker.py:69-289 | A call succeeds exactly when a stated condition on what the caller can see holds, and one that raises leaves lease, queue and handoff as they were |
| BrokerLaws.EveryCallIsOneTransitionOrNone | src/cua/hitl/lease.py:95-155 | No call moves control by anything but one edge of the diagram |
| BrokerLaws.OnlyAnUnexpiredHoldDispatches | src/cua/hitl/broker.py:154-206 | Only an operator's calls reach the driver, only in HUMAN_CONTROL on an unexpired hold, at the lease's epoch |
| BrokerLaws.NeverStranded | src/cua/hitl/broker.py:117-289 | From every reachable state a claim, a release and a resume, or what is left of them, give the session back to automation at a stated epoch, whoever comes, at every clock reading and hold whose end is an instant |
| BrokerLaws.AnAbandonedHoldIsClaimable | src/cua/hitl/broker.py:243-279 | From the end of a hold on, a sweep makes the session claimable again |
| BrokerLaws.ReleaseFilesEveryAction | src/cua/hitl/broker.py:210-241 | What a release files is the number of dispatches made under that hold, over every history |
| HandoverLaws.AHoldLastsAsLongAsClaimed | src/cua/hitl/lease.py:114-155 | Whatever was asked of the broker since a claim at `now` for `hold_for`, as long as control has not moved: an operator's call at t goes through, and reaches the driver, exactly when t is before `now + hold_for`, and a sweep takes the session exactly from then on |
| HandoverLaws.TheVisitIsOnRecord | src/cua/hitl/broker.py:69-289 | A visit from end to end: the request keeps what was asked, who came and when, how many calls came within the hold and the difference between the screens before and after; exactly those calls reached the driver, in order, at the hold's epoch; automation has the session again four epochs on, all four in the history with their reasons |
| HandoverLaws.ASweptHoldIsOnRecord | src/cua/hitl/broker.py:243-279 | A hold that ran out leaves its request abandoned, with who held it, and the session nobody's |
| HandoverLaws.RefusalsSayWhy | src/cua/hitl/broker.py:69-289 | Every refused call says what stood in its way |
| HandoverLaws.ActingTakesAHold | src/cua/hitl/broker.py:154-206 | In any state whatever an operator's call goes through only under a person's unexpired hold, a raw gesture only with a hand-over to count it in |
| Protocol.SingleWriter | src/cua/runtime/dispatcher.py:241-258 | Over every interleaving of a supervised run, its epoch adopted or safely preset, with broker calls, on a session with any past: every automation call reaches the driver in RUNNING at the epoch its run holds, every operator call on an unexpired hold; calls are ordered by epoch and one epoch has one writer |
| Protocol.PresetEpochIsSafeExactlyWhenNotInTheFuture | src/cua/replay/executor.py:133-139 | On every reachable session, a preset epoch keeps that guarantee exactly when it is not above the next epoch at which automation has the session; while it is running, exactly when not above the current one |
| Protocol.AForeignEscalationReachesAFuturePreset | src/cua/replay/executor.py:165-180 | The input at which it is lost: the next epoch preset, and another run's escalation between the check and the dispatch |
| Names.CleanedNamesAreClean | src/cua/perception/normalize.py:127-139 | A cleaned name is non-empty, has no surplus whitespace and no zero-width space |
| Names.FixedPointsOfCleaning | src/cua/perception/normalize.py:127-139 | Exactly the names cleaning leaves alone |
| Names.CleaningTwice | src/cua/perception/normalize.py:127-139 | Cleaning is idempotent exactly where the first pass left no separator at the end |
| Names.SeparatorsComeOffInRounds | src/cua/perception/normalize.py:127-139 | Every clean name has a raw form that takes two passes |
| Names.CleaningKeepsTheWords | src/cua/perception/normalize.py:127-139 | A cleaned name is the words of the raw one with a blank between any two, without the separators at the end |
| NodeIds.IdsGiveBackPaths | src/cua/perception/normalize.py:156-167 | Two equal ids have equal paths, whatever the frames are called |
| NodeIds.IdPrefixIsPathPrefix | src/cua/perception/normalize.py:156-167 | Within a frame, "id plus slash is a prefix" says exactly "lies below" |
| NodeIds.AnIdReads | src/cua/perception/normalize.py:156-167 | The form of an id, at two paths |
| SnapshotBuild.BuildSnapshot | src/cua/perception/build.py:46-142 | The recursive visit with its counters and dictionary writes exactly the specified nodes, for every report without a cycle |
| SnapshotBuild.Builder.VisitElement | src/cua/perception/build.py:61-125 | One visit adds exactly the specified subtree to the list and the dictionary |
| SnapshotLaws.BuiltNodesAreATree | src/cua/perception/build.py:46-142 | Ids pairwise distinct, parents before children, `parent_id` and `child_ids` exact inverses listing nothing else |
| SnapshotLaws.OnlyNoiseIsDropped | src/cua/perception/build.py:108-125 | Every root that is not noise is kept, and with an element every reported child that is not noise |
| SnapshotLaws.IdsShowDescent | src/cua/perception/normalize.py:156-167 | On built snapshots, for nodes of one frame, the id prefix test holds exactly for ancestors |
| SnapshotLaws.SurfaceIdsLeaveNoTrace | src/cua/perception/build.py:46-142 | Two reports that differ by renaming surface ids give identical nodes |
| Trees.Climb | src/cua/domain/snapshot.py:156-163 | The walk with its `seen` set is the chain of parents; on a tree the set is never hit |
| Trees.ChildrenAreExact | src/cua/domain/snapshot.py:150-154 | A node's children are the nodes whose parent it is, each once |
| Trees.DescendantsHaveItAbove | src/cua/domain/snapshot.py:156-169 | Below and above are inverses |
| Trees.FilteredDescendantsAreTheChildren | src/cua/targeting/candidates.py:142-144 | Descendants filtered by parent are exactly the children, in order |
| SnapshotOrder.DescendantsAreTheNodesThatFollow | src/cua/domain/snapshot.py:164-168 | On built snapshots depth-first is document order: the descendants of a node are the block of nodes right after it, and these are all it is above |
| SnapshotShows.EveryNodeShowsItsElement | src/cua/perception/build.py:61-125 | Every node of a built snapshot shows its element: role, cleaned name, value, states, frame and hints; its id is its parent's path, its role and the number of shown children of that role before it; its region is what it names as a heading, else its parent's; its fingerprint is taken over the roles above it |
| Targeting.StructuralAnchor | src/cua/targeting/candidates.py:100-195 | The collecting and de-duplicating loops give, in document order, exactly the nodes some matching anchor reaches |
| TargetingLaws.AdjacentIsTheFirstLaterChild | src/cua/targeting/candidates.py:132-172 | On built snapshots ADJACENT_TO contributes, per anchor, the first child of the row after the one at or around the anchor that fits, and never another |
| Resolving.CandidatesAreOrderedAndFit | src/cua/targeting/candidates.py:52-227 | Every rung's list is a duplicate-free subsequence of document order, all of the right role and in scope |
| Resolving.Resolve | src/cua/targeting/resolver.py:122-170 | The ladder loop; the rungs tried are all those up to the one that decides |
| Resolving.ResolvesExactlyWhenDistinguishable | src/cua/targeting/resolver.py:122-170 | A node is returned exactly when the first rung that offers anything offers one, or an in-range ordinal picks one; otherwise the refusal says which |
| ResolvingLaws.EveryRung | src/cua/targeting/candidates.py:52-227 | What each rung offers, in terms of the fields of nodes and descriptor: the exact name in each match mode, the same non-empty folded name, for each relation the nodes it leads to from an anchor that matches, the same style hint and no other name, the position among the nodes in place |
| ResolvingLaws.WhatResolutionMeans | src/cua/targeting/resolver.py:122-170 | The first available rung that offers a node decides; alone it is returned, among several the ordinal picks in document order, else they are refused as ambiguous; when none offers anything, nothing matched |
| ResolvingLaws.FoundByItsFoldedName | src/cua/targeting/candidates.py:74-89 | A node returned by its folded name has that very name, folded and not empty |
| Synthesis.NamedNodesAreFoundAgain | src/cua/targeting/synthesize.py:138-155 | A node described by name resolves to itself at SEMANTIC_EXACT without drift exactly when no other name in its pool cleans to the same text; else it is refused |
| Synthesis.CleanNamesAreFoundAgain | src/cua/targeting/synthesize.py:138-155 | Always so when all names are fixed points of cleaning |
| Synthesis.LabelledCellsAreFoundAgain | src/cua/targeting/synthesize.py:71-121 | A cell described by its label, however often the label recurs: resolution takes the first fitting cell after its own label exactly when no node that reads like the label offers another, else it refuses; that cell is the described one exactly when no skipped cell fits |
| Synthesis.LabelledControlsAreFoundAgain | src/cua/targeting/synthesize.py:56-68 | A control described by its row's label resolves to itself exactly when nothing else that fits is in the row of a node that reads like the label; else it is refused |
| Synthesis.PositionedNodesAreFoundAgain | src/cua/targeting/synthesize.py:169-182 | A node described by position resolves to itself exactly when it has neither name nor style hint, or is offered alone, or everything before it in the pool is offered with it; else it is refused exactly when its place is beyond what is offered, and otherwise a node further down is taken for it |
| SynthesisLaws.TheDescriptorSays | src/cua/targeting/synthesize.py:56-182 | What is recorded: role, frame, region, hints and fingerprint always; the name when it is the node's alone among its like, with its label if it has one; else the label, for what is read the closest wording before it, for what is acted on the first named cell of its row; else its position among its like |
| SynthesisCases.ARequiredFieldIsNotFoundAgain | src/cua/targeting/synthesize.py:138-155 | A built screen of two boxes, one of them recorded as unique and refused |
| SynthesisCases.AnImageIsTakenForItsNeighbour | src/cua/targeting/synthesize.py:169-182 | A built screen of three images, on which one is taken for another and one refused |
| SynthesisCases.TheFigureNextToTheLabelIsReadInstead | src/cua/targeting/synthesize.py:71-121 | A built row of a label and two figures, of which the wrong one is read |
| TenantBindings.FillText | src/cua/domain/tenant_binding.py:202-217 | The replacement loop over the variables |
| TenantBindings.FillingTouchesOnlySlots | src/cua/domain/tenant_binding.py:202-217 | Same tree; every text has the values in the places of the placeholders, and is unchanged where no declared one stands |
| TenantBindings.BracelessTextHasNoSlot | src/cua/domain/tenant_binding.py:202-217 | In particular every text without an opening brace |
| TenantBindings.ReplacingSwaps | src/cua/domain/tenant_binding.py:202-217 | Where a placeholder stood, found from the left, its value stands, and every stretch between is as it was |
| TenantBindings.Apply | src/cua/domain/tenant_binding.py:111-165 | Patching in place gives the specified document or the first refusal |
| TenantBindings.ABindingStaysInItsPlace | src/cua/domain/tenant_binding.py:111-165 | A binding changes the steps it names, the checkpoint, added recovery rules, and placeholders, and nothing else; a named step has what the binding says of its target's fields, its wait and its conditions and keeps the rest; the added rules follow the base's own; the product is valid and sealed under its own hash |
| TenantBindings.ABindingAppliesExactlyWhen | src/cua/domain/tenant_binding.py:98-165 | It applies exactly when it is for this id and version, names only steps there are, retargets only steps with a target, and makes something valid |
| TenantBindings.VerifiedExactlyWhenDerived | src/cua/domain/tenant_binding.py:184-199 | Verification passes exactly for a sealed capability that is the binding's product from a sealed base |
| Authorization.NoStepTalksAControlDown | src/cua/policy/engine.py:151-207 | Where the policy's table, from the tier of a known control up, has nothing that passes undeclared actions of this actor, a step that declares less never gets through, whatever was approved |
| Authorization.AnApprovalReachesExactlyItsFillings | src/cua/policy/irreversible.py:67-100 | An approval permits its own sealed content and placeholder fillings of it, and nothing else |
| Authorization.AllowedExactlyWhen | src/cua/policy/engine.py:87-207 | The whole decision, in terms of the policy's table at this very actor and the worst tier given: allowed exactly past the first gates with what the entry asks for, the declaration of that very tier, a confirmation, or besides the declaration the opt-in and an approval that reaches what runs; without an entry never; a confirmation is asked for exactly when the entry asks for one and it is missing |
| Authorization.TheTierIsTheWorstGiven | src/cua/policy/risk.py:43-83 | The tier is the worst of the policy's default, the action's, the lexicon's for the control's name and the one declared; reading, asserting, waiting and scrolling are safe |
| Authorization.ADenialNamesTheFirstThingAmiss | src/cua/policy/engine.py:87-207 | Every denial and what it stands for, in the order in which they are asked |
| Authorization.WhatRunsIsWhatWasApproved | src/cua/policy/irreversible.py:67-100 | What runs is the document approved, or the same tree but for texts that held a placeholder and have its value in its place |
| Evidence.Bus.Emit | src/cua/evidence/bus.py:60-85 | Appends one numbered event |
| Evidence.Dispatcher.Execute | src/cua/runtime/dispatcher.py:217-438 | The events and driver calls of one attempt, on every path |
| Evidence.BuildRunRecord | src/cua/evidence/record.py:89-135 | The two passes over the trace compute the specified projection |
| EvidenceLaws.DispatchesFollowTheirAuthorization | src/cua/runtime/dispatcher.py:326-395 | Every dispatch that reached the surface stands after a granted authorization with its own decision id |
| EvidenceLaws.TheBusFindsNothing | src/cua/evidence/bus.py:116-137 | The bus's list of unauthorized dispatches is always empty |
| EvidenceLaws.TheRecordIsWhatTheDriverDid | src/cua/evidence/record.py:89-135 | With fresh decision ids the record has exactly one step per driver call, in order, each authorized by the decision taken for it |
| RecordLaws.EachStepIsReadBack | src/cua/evidence/record.py:89-135 | Over every trace: one step for each dispatch that was not refused, in order, with the action, the actor and the epoch; the step named last before it, else the action; the rule applied and the node resolved last since the dispatch before; and the reason of the authorization granted under its decision |
| RecordLaws.StatusesTell | src/cua/runtime/dispatcher.py:217-438 | The status of an attempt is what its events show |
| EvidenceLaws.AResolutionIsItsOwnExactlyWhen | src/cua/evidence/record.py:98-135 | When a recorded step's resolution is its own |
| EvidenceLaws.ANavigationIsRecordedWithTheRefusedClicksNode | src/cua/evidence/record.py:98-135 | A refused click and a navigation, recorded as one step with the node of the click |
| Serde.PruneModel | src/cua/domain/serde.py:91-116 | The loop over the fields keeps what the specification keeps |
| Serde.BlindPruningIsPlain | src/cua/domain/serde.py:70-81 | Where no defaults are known, pruning a value is pruning its dump |
| SerdeLaws.PruningTidies | src/cua/domain/serde.py:70-81 | Pruning leaves the one document without nulls or empty containers in its mappings that says all the given one says |
| SerdeLaws.AModelIsWrittenFieldByField | src/cua/domain/serde.py:91-116 | One entry for each field that is neither null nor an empty container its default would give back |
| SerdeLaws.TheRestIsWrittenPartByPart | src/cua/domain/serde.py:119-129 | Lists item by item; mappings without what says nothing |
| SerdeLaws.AModelIsReadFieldByField | src/cua/domain/serde.py:143-144 | No unknown key, each field from its entry or its default |
| Serde.RoundTrip | src/cua/domain/serde.py:70-144 | Pruning then loading is the identity exactly when everything left out equals its default |
| Serde.AnEmptyAnswerIsReadBackAsNone | src/cua/domain/serde.py:70-144 | A typed document that is read back, without an error, as another |
| Serde.TidyDocumentsSurvive | src/cua/domain/serde.py:91-129 | That is so whenever nullable fields default to null and free-form maps hold nothing null or empty, explicit empty containers included |
| Serde.DumpsTell | src/cua/domain/capability.py:422-425 | Of values of one type no two have the same dump |
| Serde.DumpedCapabilitiesReload | src/cua/domain/serde.py:147-169 | A dumped capability reloads with a valid hash exactly when nothing was lost; a lossy dump is refused, never loaded as something else |
| Compile.LiftInputs | src/cua/recorder/compile.py:203-250 | The loop lifts the specified inputs |
| Compile.CompileSteps | src/cua/recorder/compile.py:302-356 | The loop compiles, or skips with a warning, the specified steps |
| CompileLaws.TheStepsAreTheRuns | src/cua/recorder/compile.py:302-356 | The compiled actions are, one for one and in order, the steps on a described control with a tool there is an action for, each doing the same to the same target with durable hints; a typed text becomes a reference exactly when an input was declared with it, to the last such |
| CompileLaws.WhatIsWarnedOf | src/cua/recorder/compile.py:302-356 | A warning for exactly the other steps that describe a control or navigate |
| CompileLaws.TheInputsAreTheTextsOfTheGoal | src/cua/recorder/compile.py:203-250 | The inputs are the names under which texts of the goal were typed, in the order they first were, each with its first text; a control is called by its name, else by the label beside it |
| Compile.LiftingDeclares | src/cua/recorder/compile.py:203-250 | Input names are unique and each stands for the value it was first seen with |
| Compile.BindingGivesTheRunBack | src/cua/recorder/compile.py:302-356 | Bound with the lifted inputs, the compiled steps type and select exactly what the run did, in order, also when labels or values repeat |
| Compile.ReferencesAreDeclared | src/cua/recorder/compile.py:302-356 | Every emitted reference is to a declared input |
| Compile.AnInputIsUsedExactlyWhen | src/cua/recorder/compile.py:302-356 | A declared input is referred to exactly when it was the last lifted for its value and that value was typed on a describable control |
| Compile.AValueTypedTwiceLeavesAnInputUnused | src/cua/recorder/compile.py:203-356 | Two labels typed one value: both inputs declared, the first never referred to |
| Compile.AValueTypedNowhereLeavesAnInputUnused | src/cua/recorder/compile.py:203-356 | A value typed on nothing describable: an input declared and no step compiled |
| Keys.EscapingIsCharByChar | src/cua/evals/scorers.py:242-243 | The three replacements in a row escape each special character once |
| Keys.KeysAreReadBack | src/cua/evals/scorers.py:246-250 | Unescaping and splitting a key recovers the names and the texts of the inputs, of whatever kind their values are |
| Keys.KeysTellTexts | src/cua/evals/scorers.py:246-250 | Two runs share a key exactly when their inputs have the same names and the same texts |
| Keys.KeysAreOneToOneExactlyWhen | src/cua/evals/scorers.py:246-250 | The mapping from inputs to keys is one-to-one exactly when no two values have the same text |
| Keys.ANumberIsTakenForItsText | src/cua/evals/scorers.py:246-250 | A number and its text share a key and a verdict |
| Keys.ByInputs | src/cua/evals/scorers.py:185-189 | The grouping loop |
| Keys.DeterminismHolds | src/cua/evals/scorers.py:158-182 | None without a group of two, false exactly when some group disagrees |
| Keys.NondeterministicCases | src/cua/evals/scorers.py:192-201 | Exactly the keys whose runs disagree, sorted |
| Keys.TheVerdictIsAboutEqualTexts | src/cua/evals/scorers.py:158-201 | In terms of runs: measured when inputs that read the same were replayed twice, false exactly when two runs on such inputs decided differently |
| Keys.TheVerdictIsAboutEqualInputs | src/cua/evals/scorers.py:158-201 | The same for equal inputs, when no two values given under one name read the same without being the same |

## Left out

- Wall clocks: a wait's deadline is the number of polls made before it, a duration budget a verdict per
  step look, a lease reading an argument; no real-time bound is stated.
- The driver, accessibility trees, screenshots, allowlist syntax and navigation interception are part of
  the surface oracle or of a parameter.
- Predicates, regular expressions, folding, fingerprints, region inference, type and pattern inference,
  redaction, sensitive keys, secrets and transforms are uninterpreted functions or absent.
- Requests in the intervention queue are values in a map, so aliasing of a request object held outside the
  queue is not captured; the order of `pending()` is not modelled.
- An operator's clock reading and dispatch are one step of the protocol, as are automation's epoch reading
  and its dispatch; races inside those are not captured.
- Snapshot facts no code here reads (titles, bounds, capture times), hash texts, run ids, durations, token
  counts and strategy counters of results and records.
- Executor.Executor.Execute: the epoch a run adopts is modelled in `Protocol`, not here; here a lost lease
  is one of the surface's answers.
- Executor.Executor.Resume: likewise, that a resume adopts the epoch anew is `ResumeRun` in `Protocol`.
- SnapshotBuild.BuildSnapshot: reports in which two elements have one element id, which the surfaces do not
  make; the code would then take an element's children and its own facts from different reports of it.
- SnapshotBuild.Builder.VisitElement: the same, and that a cycle among the elements ends in a recursion error.
- Synthesis.LabelledControlsAreFoundAgain: rows nested inside the row of the control, where the first named
  cell may stand in an inner row and name that one.
- TenantBindings.Apply: schema validation is a yes or no on the derived document, which is then taken as it
  stands; coercions during validation are not modelled.
- Serde.RoundTrip: YAML text, and values the schema library would coerce on loading, are not modelled;
  value expressions are taken as raw documents.
- Evidence.Dispatcher.Execute: what the resolver, the policy and the driver answer are arguments;
  `Resolving` and `Authorization` model the first two.
- Compile.CompileSteps: step ids, descriptions and waits of compiled steps, declared outputs and the
  inferred checkpoint.
- Success, wrong-action, refusal, drift and fallback rates: simple sums over records.
- The discovery loop, prompts, assisted recovery, the console server, catalog storage, code generation and
  the command line.
