/** The single-writer lease of `hitl/lease.py`: who holds the live session, in
    which control state, at which epoch. */
module Leases {
  import opened Outcomes

  datatype Actor = Automation | Human | System

  datatype ControlState = Running | Paused | HumanControl | Resuming

  datatype LeaseError =
    | WrongState(state: ControlState)
    | HoldExpired
    | NotTheHolder(holder: Actor)
    | StaleEpoch(current: int)
    | NotExpired
    | ClockOverflow

  datatype HistoryEntry = HistoryEntry(epoch: int, state: ControlState, note: string)

  /** The abstract value of a lease: every field except the session id. */
  datatype LeaseValue = LeaseValue(
    holder: Actor,
    state: ControlState,
    epoch: int,
    operator: Option<string>,
    expiresAt: Option<int>,
    history: seq<HistoryEntry>)

  const Initial := LeaseValue(Automation, Running, 1, None, None, [])

  /** The last instant a Python `datetime` can hold, in microseconds. */
  const MAX_INSTANT: int := 315_537_897_599_999_999

  predicate Representable(instant: int) {
    0 <= instant <= MAX_INSTANT
  }

  predicate Expired(v: LeaseValue, now: int) {
    v.expiresAt.Some? && now >= v.expiresAt.value
  }

  // ---------------------------------------------------------------- what each call does to the value

  function Transition(v: LeaseValue, holder: Actor, state: ControlState, note: string): LeaseValue {
    v.(holder := holder, state := state, epoch := v.epoch + 1,
       history := v.history + [HistoryEntry(v.epoch + 1, state, note)])
  }

  function CheckHeld(v: LeaseValue, actor: Actor, epoch: int, now: int): Result<(), LeaseError> {
    if Expired(v, now) then Err(HoldExpired)
    else if v.holder != actor then Err(NotTheHolder(v.holder))
    else if v.epoch != epoch then Err(StaleEpoch(v.epoch))
    else Ok(())
  }

  function Escalated(v: LeaseValue, reason: string): Result<LeaseValue, LeaseError> {
    if v.state != Running then Err(WrongState(v.state))
    else Ok(Transition(v.(operator := None, expiresAt := None), System, Paused, reason))
  }

  function Claimed(v: LeaseValue, operator: string, now: int, holdFor: int): Result<LeaseValue, LeaseError> {
    if v.state != Paused then Err(WrongState(v.state))
    else if !Representable(now + holdFor) then Err(ClockOverflow)
    else Ok(Transition(v.(operator := Some(operator), expiresAt := Some(now + holdFor)),
                       Human, HumanControl, "claimed by " + operator))
  }

  function Released(v: LeaseValue): Result<LeaseValue, LeaseError> {
    if v.state != HumanControl then Err(WrongState(v.state))
    else Ok(Transition(v.(expiresAt := None), System, Resuming,
                       "released by " + v.operator.GetOr("operator")))
  }

  function Resumed(v: LeaseValue): Result<LeaseValue, LeaseError> {
    if v.state != Resuming then Err(WrongState(v.state))
    else Ok(Transition(v.(operator := None), Automation, Running, "resumed"))
  }

  function Reclaimed(v: LeaseValue, now: int): Result<LeaseValue, LeaseError> {
    if !Expired(v, now) then Err(NotExpired)
    else Ok(Transition(v.(operator := None, expiresAt := None), System, Paused, "hold expired"))
  }

  // ---------------------------------------------------------------- the object

  /** What a call must have done, given what its value-level meaning says: on a
      refusal nothing moved, on success the new epoch is returned. */
  ghost predicate Follows(before: LeaseValue, after: LeaseValue,
                          meaning: Result<LeaseValue, LeaseError>, r: Result<int, LeaseError>)
  {
    match meaning
    case Ok(v) => after == v && r == Ok(v.epoch)
    case Err(e) => after == before && r == Err(e)
  }

  class Lease {
    var holder: Actor
    var state: ControlState
    var epoch: int
    var operator: Option<string>
    var expiresAt: Option<int>
    var history: seq<HistoryEntry>

    function Value(): LeaseValue
      reads this
    {
      LeaseValue(holder, state, epoch, operator, expiresAt, history)
    }

    constructor ()
      ensures Value() == Initial
    {
      holder, state, epoch, operator, expiresAt, history := Automation, Running, 1, None, None, [];
    }

    method AssertHeld(actor: Actor, epoch: int, now: int) returns (r: Result<(), LeaseError>)
      ensures r == CheckHeld(Value(), actor, epoch, now)
      ensures r.Ok? <==> holder == actor && this.epoch == epoch && !(expiresAt.Some? && now >= expiresAt.value)
      ensures r.Err? ==>
                r.error == if expiresAt.Some? && now >= expiresAt.value then HoldExpired
                           else if holder != actor then NotTheHolder(holder)
                           else StaleEpoch(this.epoch)
    {
      if expiresAt.Some? && now >= expiresAt.value {
        return Err(HoldExpired);
      }
      if holder != actor {
        return Err(NotTheHolder(holder));
      }
      if this.epoch != epoch {
        return Err(StaleEpoch(this.epoch));
      }
      return Ok(());
    }

    method Move(holder: Actor, state: ControlState, note: string) returns (newEpoch: int)
      modifies this
      ensures Value() == Transition(old(Value()), holder, state, note) && newEpoch == epoch
    {
      this.holder := holder;
      this.state := state;
      epoch := epoch + 1;
      history := history + [HistoryEntry(epoch, state, note)];
      newEpoch := epoch;
    }

    method Escalate(reason: string) returns (r: Result<int, LeaseError>)
      modifies this
      ensures Follows(old(Value()), Value(), Escalated(old(Value()), reason), r)
    {
      if state != Running {
        return Err(WrongState(state));
      }
      operator := None;
      expiresAt := None;
      var e := Move(System, Paused, reason);
      return Ok(e);
    }

    method Claim(operator: string, now: int, holdFor: int) returns (r: Result<int, LeaseError>)
      modifies this
      ensures Follows(old(Value()), Value(), Claimed(old(Value()), operator, now, holdFor), r)
      ensures r.Ok? ==> holder == Human && this.operator == Some(operator) && expiresAt == Some(now + holdFor)
    {
      if state != Paused {
        return Err(WrongState(state));
      }
      // computed before anything is assigned: an overflow must leave the lease alone
      var until := now + holdFor;
      if !Representable(until) {
        return Err(ClockOverflow);
      }
      this.operator := Some(operator);
      expiresAt := Some(until);
      var e := Move(Human, HumanControl, "claimed by " + operator);
      return Ok(e);
    }

    method Release() returns (r: Result<int, LeaseError>)
      modifies this
      ensures Follows(old(Value()), Value(), Released(old(Value())), r)
    {
      if state != HumanControl {
        return Err(WrongState(state));
      }
      expiresAt := None;
      var e := Move(System, Resuming, "released by " + operator.GetOr("operator"));
      return Ok(e);
    }

    method Resume() returns (r: Result<int, LeaseError>)
      modifies this
      ensures Follows(old(Value()), Value(), Resumed(old(Value())), r)
    {
      if state != Resuming {
        return Err(WrongState(state));
      }
      operator := None;
      var e := Move(Automation, Running, "resumed");
      return Ok(e);
    }

    method ReclaimExpired(now: int) returns (r: Result<int, LeaseError>)
      modifies this
      ensures Follows(old(Value()), Value(), Reclaimed(old(Value()), now), r)
    {
      if !(expiresAt.Some? && now >= expiresAt.value) {
        return Err(NotExpired);
      }
      operator := None;
      expiresAt := None;
      var e := Move(System, Paused, "hold expired");
      return Ok(e);
    }
  }

  // ---------------------------------------------------------------- what every transition keeps

  function HolderOf(state: ControlState): Actor {
    match state
    case Running => Automation
    case HumanControl => Human
    case Paused => System
    case Resuming => System
  }

  /** The state is legible from any one of its fields, and the history numbers
      every epoch since the first. */
  ghost predicate Coherent(v: LeaseValue) {
    && v.holder == HolderOf(v.state)
    && (v.expiresAt.Some? <==> v.state == HumanControl)
    && (v.operator.Some? <==> v.state in {HumanControl, Resuming})
    && v.epoch == 1 + |v.history|
    && (forall i :: 0 <= i < |v.history| ==> v.history[i].epoch == i + 2)
    && v.state == (if v.history == [] then Running else v.history[|v.history| - 1].state)
  }

  /** One transition of the control diagram: the epoch moves by exactly one and
      the record of earlier epochs is kept. */
  ghost predicate OneTransition(before: LeaseValue, after: LeaseValue) {
    && after.epoch == before.epoch + 1
    && |after.history| == |before.history| + 1
    && before.history <= after.history
    && (before.state, after.state) in {
         (Running, Paused), (Paused, HumanControl), (HumanControl, Resuming),
         (HumanControl, Paused), (Resuming, Running)}
  }

  lemma TransitionsFollowTheDiagram(v: LeaseValue, operator: string, reason: string, now: int, holdFor: int)
    requires Coherent(v)
    ensures Escalated(v, reason).Ok? <==> v.state == Running
    ensures Claimed(v, operator, now, holdFor).Ok? <==> v.state == Paused && Representable(now + holdFor)
    ensures Released(v).Ok? <==> v.state == HumanControl
    ensures Resumed(v).Ok? <==> v.state == Resuming
    ensures Reclaimed(v, now).Ok? <==> v.state == HumanControl && now >= v.expiresAt.value
    ensures forall r | r in {Escalated(v, reason), Claimed(v, operator, now, holdFor), Released(v), Resumed(v),
           Reclaimed(v, now)} ::
              r.Ok? ==> Coherent(r.value) && OneTransition(v, r.value)
  {
  }
}
