/** RequestRouter: one method per lock region, each tied to the value functions of RouterState, and
    the whole operations composed from their regions. */
module RequestRouter {
  import opened Common
  import RouterState

  const TIMED_OUT := "TDLib read request timed out"
  const NOT_PENDING := "TDLib request is no longer pending"

  datatype Result<+R> = Result(response: Option<R>, error: string)

  /** What a ticket holds, what each completion makes of it, and what a waiter reads from it. */
  datatype Content<+R> = Content(response: Option<R>, error: string, ready: bool)

  function WithResponse<R>(c: Content<R>, response: R): Content<R> {
    c.(response := Some(response), ready := true)
  }

  function WithError<R>(c: Content<R>, error: string): Content<R> {
    c.(error := error, ready := true)
  }

  function WaitResult<R>(c: Content<R>): Option<Result<R>> {
    if c.ready then Some(Result(c.response, c.error)) else None
  }

  /** A ticket: shared by the waiter and by whoever completes the request. */
  class RequestState<R> {
    var response: Option<R>
    var error: string
    var ready: bool

    constructor ()
      ensures Contents() == Content(None, "", false)
    {
      response, error, ready := None, "", false;
    }

    ghost function Contents(): Content<R>
      reads this
    {
      Content(response, error, ready)
    }
  }

  class RequestRouter<R> {
    var requests: map<nat, RequestState<R>>
    var retired: set<nat>
    var retiredOrder: seq<nat>
    var accepting: bool

    ghost function State(): RouterState.Router<RequestState<R>>
      reads this
    {
      RouterState.Router(requests, retired, retiredOrder, accepting)
    }

    constructor ()
      ensures State() == RouterState.Router(map[], {}, [], true)
    {
      requests, retired, retiredOrder, accepting := map[], {}, [], true;
    }

    method Open(id: nat) returns (ticket: RequestState?<R>)
      modifies this
      ensures ticket != null <==> RouterState.CanOpen(old(State()), id)
      ensures ticket == null ==> State() == old(State())
      ensures ticket != null ==>
                && fresh(ticket) && ticket.Contents() == Content(None, "", false)
                && State() == RouterState.Open(old(State()), id, ticket)
    {
      if !accepting {
        return null;
      }
      var state := new RequestState<R>();
      if id in requests {
        return null;
      }
      requests := requests[id := state];
      return state;
    }

    method Contains(id: nat) returns (found: bool)
      ensures found <==> id in State().requests
    {
      found := id in requests;
    }

    method DiscardLate(id: nat) returns (discarded: bool)
      modifies this`retired
      ensures discarded <==> id in old(State()).retired
      ensures State() == RouterState.Discard(old(State()), id)
    {
      discarded := id in retired;
      retired := retired - {id};
    }

    /** The eviction loop pops the oldest entry until the deque fits. */
    method Retire(id: nat)
      modifies this`retired, this`retiredOrder
      ensures State() == RouterState.Retire(old(State()), id)
    {
      if id !in retired {
        retired := retired + {id};
        retiredOrder := retiredOrder + [id];
      }
      ghost var all, order := retired, retiredOrder;
      ghost var k := 0;
      while |retiredOrder| > RouterState.MAXIMUM_RETIRED
        invariant k <= RouterState.Excess(order)
        invariant retiredOrder == order[k..]
        invariant retired == all - Elems(order[..k])
      {
        assert order[..k + 1] == order[..k] + [order[k]];
        retired := retired - {retiredOrder[0]};
        retiredOrder := retiredOrder[1..];
        k := k + 1;
      }
    }

    /** First region of fulfill: whoever removes the id from the map owns the completion. */
    method FulfillClaim(id: nat) returns (state: RequestState?<R>)
      modifies this`requests
      ensures state == if id in old(requests) then old(requests)[id] else null
      ensures State() == RouterState.Claim(old(State()), id)
    {
      if id !in requests {
        assert requests - {id} == requests;
        return null;
      }
      state := requests[id];
      requests := requests - {id};
    }

    /** fulfill run without interference between its two regions. */
    method Fulfill(id: nat, response: R) returns (ok: bool)
      modifies this`requests, if id in requests then {requests[id]} else {}
      ensures ok <==> id in old(requests)
      ensures State() == RouterState.Claim(old(State()), id)
      ensures ok ==> var t := old(requests)[id]; t.Contents() == WithResponse(old(t.Contents()), response)
    {
      var state := FulfillClaim(id);
      if state == null {
        return false;
      }
      state.response, state.ready := Some(response), true;
      return true;
    }

    /** Second region of wait: reached only after the waiter saw its ticket unready. */
    method WaitTimeout(id: nat, state: RequestState<R>) returns (result: Result<R>)
      modifies this
      ensures result == Result(None, TIMED_OUT)
      ensures State() == RouterState.TimeOut(old(State()), id, state)
    {
      if id in requests && requests[id] == state {
        requests := requests - {id};
        Retire(id);
      }
      result := Result(None, TIMED_OUT);
    }

    /** wait from the moment its condition variable returns: notified or past the deadline. */
    method Wait(id: nat, state: RequestState?<R>) returns (result: Result<R>)
      modifies this
      ensures state == null ==>
                result == Result(None, "TDLib request is no longer pending") && State() == old(State())
      ensures state != null ==>
                match WaitResult(state.Contents())
                case Some(r) => result == r && State() == old(State())
                case None =>
                  && result == Result(None, "TDLib read request timed out")
                  && State() == RouterState.TimeOut(old(State()), id, state)
    {
      if state == null {
        return Result(None, NOT_PENDING);
      }
      if !state.ready {
        result := WaitTimeout(id, state);
        return;
      }
      result := Result(state.response, state.error);
    }

    /** First region of close. The map is iterated in an unspecified order. */
    method CloseClaim() returns (pending: seq<RequestState<R>>, ghost order: seq<nat>)
      modifies this
      ensures Enumerates(order, old(requests).Keys)
      ensures |pending| == |order|
      ensures forall i :: 0 <= i < |order| && order[i] in old(requests) ==> pending[i] == old(requests)[order[i]]
      ensures State() == RouterState.Close(old(State()), order)
    {
      accepting := false;
      pending, order := [], [];
      var ids := requests.Keys;
      ghost var start := State();
      while ids != {}
        invariant ids <= requests.Keys && requests == old(requests)
        invariant Enumerates(order, requests.Keys - ids)
        invariant |pending| == |order|
        invariant forall i :: 0 <= i < |order| ==> order[i] in requests && pending[i] == requests[order[i]]
        invariant State() == RouterState.RetireAll(start, order)
      {
        var id :| id in ids;
        ids := ids - {id};
        Retire(id);
        RetireAllSnoc(start, order, id);
        assert id !in Elems(order);
        assert Elems(order + [id]) == Elems(order) + {id};
        pending, order := pending + [requests[id]], order + [id];
      }
      requests := map[];
    }

    /** close run without interference between its two regions. */
    method Close(error: string)
      modifies this, requests.Values
      ensures exists order :: Enumerates(order, old(requests).Keys) && State() == RouterState.Close(old(State()), order)
      ensures forall t :: t in old(requests).Values ==> t.Contents() == WithError(old(t.Contents()), error)
    {
      var pending, order := CloseClaim();
      PendingAreValues(old(requests), order, pending);
      for i := 0 to |pending|
        invariant State() == RouterState.Close(old(State()), order)
        invariant forall t :: t in pending ==> t.response == old(t.response)
        invariant forall k :: 0 <= k < i ==> pending[k].ready && pending[k].error == error
      {
        pending[i].error, pending[i].ready := error, true;
      }
    }

    method Reopen()
      modifies this
      ensures State() == RouterState.Reopen(old(State()))
    {
      accepting, retired, retiredOrder := true, {}, [];
    }
  }

  /** What close collects are the tickets of the map, all of them and no others. */
  lemma PendingAreValues<T>(requests: map<nat, T>, order: seq<nat>, pending: seq<T>)
    requires Enumerates(order, requests.Keys) && |pending| == |order|
    requires forall i :: 0 <= i < |order| && order[i] in requests ==> pending[i] == requests[order[i]]
    ensures forall t :: t in pending <==> t in requests.Values
  {
    forall i | 0 <= i < |order| ensures pending[i] in requests.Values {
      assert order[i] in Elems(order);
    }
    forall id | id in requests ensures requests[id] in pending {
      assert id in Elems(order);
      var i :| 0 <= i < |order| && order[i] == id;
      assert pending[i] == requests[id];
    }
  }

  lemma {:induction false} RetireAllSnoc<T>(r: RouterState.Router<T>, ids: seq<nat>, id: nat)
    ensures RouterState.RetireAll(r, ids + [id]) == RouterState.Retire(RouterState.RetireAll(r, ids), id)
    decreases |ids|
  {
    if ids == [] {
      assert ([] + [id])[1..] == [];
    } else {
      RetireAllSnoc(RouterState.Retire(r, ids[0]), ids[1..], id);
      assert (ids + [id])[1..] == ids[1..] + [id];
    }
  }
}
