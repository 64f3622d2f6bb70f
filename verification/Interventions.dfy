/** `hitl/intervention.py`: the queue of requests for a person. */
module Interventions {
  import opened Outcomes
  import opened Reanchor

  datatype InterventionState = Open | ClaimedBy | HandedBack | Resolved | Abandoned

  datatype Request = Request(
    runId: string,
    reason: string,
    state: InterventionState,
    operator: Option<string>,
    claimedAt: Option<int>,
    releasedAt: Option<int>,
    humanActions: int,
    humanDelta: Option<HumanDelta>,
    note: string)

  type Requests = map<string, Request>

  datatype QueueError = NoSuchIntervention(id: string) | NotOpen(state: InterventionState) | NotClaimed

  function NewRequest(runId: string, reason: string): Request {
    Request(runId, reason, Open, None, None, None, 0, None, "")
  }

  predicate Claimable(state: InterventionState) {
    state == Open || state == Abandoned
  }

  function ClaimRequest(q: Requests, id: string, operator: string, at: int): Result<Requests, QueueError> {
    if id !in q then Err(NoSuchIntervention(id))
    else if !Claimable(q[id].state) then Err(NotOpen(q[id].state))
    else Ok(q[id := q[id].(state := ClaimedBy, operator := Some(operator), claimedAt := Some(at))])
  }

  function ReleaseRequest(q: Requests, id: string, actions: int, delta: Option<HumanDelta>, at: int)
    : Result<Requests, QueueError>
  {
    if id !in q then Err(NoSuchIntervention(id))
    else if q[id].state != ClaimedBy then Err(NotClaimed)
    else Ok(q[id := q[id].(state := HandedBack, releasedAt := Some(at), humanActions := actions, humanDelta := delta)])
  }

  /** `resolve` and `abandon`: unconditional once the request exists. */
  function CloseRequest(q: Requests, id: string, state: InterventionState, note: string): Result<Requests, QueueError> {
    if id !in q then Err(NoSuchIntervention(id))
    else Ok(q[id := q[id].(state := state, note := note)])
  }

  class InterventionQueue {
    var requests: Requests

    constructor ()
      ensures requests == map[]
    {
      requests := map[];
    }

    method OpenRequest(id: string, request: Request)
      modifies this
      ensures requests == old(requests)[id := request]
    {
      requests := requests[id := request];
    }

    method Claim(id: string, operator: string, at: int) returns (r: Result<(), QueueError>)
      modifies this
      ensures Follows(old(requests), requests, ClaimRequest(old(requests), id, operator, at), r)
    {
      if id !in requests {
        return Err(NoSuchIntervention(id));
      }
      var request := requests[id];
      if !Claimable(request.state) {
        return Err(NotOpen(request.state));
      }
      requests := requests[id := request.(state := ClaimedBy, operator := Some(operator), claimedAt := Some(at))];
      return Ok(());
    }

    /** The broker's rollback: the three fields a claim wrote, put back. */
    method Restore(id: string, state: InterventionState, operator: Option<string>, claimedAt: Option<int>)
      requires id in requests
      modifies this
      ensures requests == old(requests[id := requests[id].(state := state, operator := operator,
             claimedAt := claimedAt)])
    {
      requests := requests[id := requests[id].(state := state, operator := operator, claimedAt := claimedAt)];
    }

    method Release(id: string, actions: int, delta: Option<HumanDelta>, at: int) returns (r: Result<(), QueueError>)
      modifies this
      ensures Follows(old(requests), requests, ReleaseRequest(old(requests), id, actions, delta, at), r)
    {
      if id !in requests {
        return Err(NoSuchIntervention(id));
      }
      if requests[id].state != ClaimedBy {
        return Err(NotClaimed);
      }
      requests := requests[id := requests[id].(
        state := HandedBack, releasedAt := Some(at), humanActions := actions, humanDelta := delta)];
      return Ok(());
    }

    method Resolve(id: string, note: string) returns (r: Result<(), QueueError>)
      modifies this
      ensures Follows(old(requests), requests, CloseRequest(old(requests), id, Resolved, note), r)
    {
      if id !in requests {
        return Err(NoSuchIntervention(id));
      }
      requests := requests[id := requests[id].(state := Resolved, note := note)];
      return Ok(());
    }

    method Abandon(id: string, note: string) returns (r: Result<(), QueueError>)
      modifies this
      ensures Follows(old(requests), requests, CloseRequest(old(requests), id, Abandoned, note), r)
    {
      if id !in requests {
        return Err(NoSuchIntervention(id));
      }
      requests := requests[id := requests[id].(state := Abandoned, note := note)];
      return Ok(());
    }
  }

  ghost predicate Follows(before: Requests, after: Requests, meaning: Result<Requests, QueueError>,
                          r: Result<(), QueueError>)
  {
    match meaning
    case Ok(q) => after == q && r == Ok(())
    case Err(e) => after == before && r == Err(e)
  }
}
