/** The capability artifact as the replay engine reads it: `domain/capability.py`,
    `domain/action.py`, `domain/values.py`. */
module Capabilities {
  import opened Outcomes
  import opened Snapshots
  import opened Targets

  type Bindings = map<string, string>

  /** A predicate is a pure function of a snapshot and the run's inputs. */
  type Predicate = (UiSnapshot, Bindings) -> bool

  datatype ValueExpr =
    | Literal(text: string)
    | InputRef(inputName: string)
    | OutputRef(outputName: string)
    | SecretRef(secretName: string)

  datatype Action =
    | Click(target: TargetDescriptor)
    | Type(target: TargetDescriptor, value: ValueExpr)
    | Select(target: TargetDescriptor, value: ValueExpr)
    | PressKey(key: string, on: Option<TargetDescriptor>)
    | Navigate(url: string)
    | Reload
    | Scroll(on: Option<TargetDescriptor>)
    | WaitFor(until: Predicate)
    | Extract(target: TargetDescriptor, into: string, transform: Option<string>)
    | Assert(that: Predicate)

  datatype WaitKind = SnapshotStable | Navigation | PredicateHolds

  datatype WaitPolicy = WaitPolicy(kind: WaitKind, until: Option<Predicate>)

  datatype Step = Step(
    id: string,
    action: Action,
    precondition: Option<Predicate>,
    wait: WaitPolicy,
    postcondition: Option<Predicate>)

  datatype Outcome = Outcome(code: string, detect: Predicate)

  datatype Remedy =
    | Act(action: Action)
    | RunCapability(capabilityId: string, inputs: map<string, ValueExpr>)

  datatype RecoveryRule = RecoveryRule(id: string, detect: Predicate, remedy: seq<Remedy>, maxAttempts: int)

  datatype FailureCode =
    | TargetNotFound | TargetAmbiguous | PreconditionFailed | CheckpointFailed | ActionFailed
    | Timeout | NavigationBlocked | PolicyDenied | SurfaceUnavailable | RecoveryExhausted
    | InputValidationFailed | UnexpectedState | LeaseLost | Internal

  datatype Escalation = Escalation(triggers: set<FailureCode>, pauseAndRequestHuman: bool)

  datatype Capability = Capability(
    id: string,
    entrypoint: string,
    steps: seq<Step>,
    checkpoint: Predicate,
    outcomes: seq<Outcome>,
    recovery: seq<RecoveryRule>,
    escalation: Escalation,
    maxSteps: int)
}
