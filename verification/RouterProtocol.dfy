/** RequestRouter as a transition system with one step per lock region: any number of callers of
    open, wait, fulfill, discard_late and close, interleaved at every unlock. A ticket's name is its
    index in `tickets`, which plays the part of the heap address of its shared state. */
module RouterProtocol {
  import opened Common
  import RS = RouterState
  import opened RR = RequestRouter

  /** Who removed the ticket from the map. `Pending` means nobody has. */
  datatype Owner<+R> = Pending | Fulfilled(resp: R) | TimedOut | Closed(err: string)

  /** The one `wait` call made on the ticket. */
  datatype Waiter<+R> = Blocked | SawNotReady | Returned(result: Result<R>)

  datatype Ticket<+R> = Ticket(
    id: nat, epoch: nat,
    response: Option<R>, error: string, ready: bool,
    owner: Owner<R>, waiter: Waiter<R>)

  /** `issued`, `history` and `discarded` record, since the last reopen, the ids passed to open, the
      retirements in order, and the successful discard_late calls. */
  datatype System<+R> = System(
    router: RS.Router<nat>, tickets: seq<Ticket<R>>, epoch: nat,
    issued: set<nat>, history: seq<nat>, discarded: set<nat>)

  datatype Step<+R> =
    | Open(id: nat)
    | DiscardLate(id: nat)
    | FulfillClaim(id: nat, resp: R)
    | Publish(n: nat)
    | Observe(n: nat)
    | TimeoutRemove(n: nat)
    | CloseClaim(order: seq<nat>, err: string)
    | Reopen

  const FRESH: RS.Router<nat> := RS.Router(map[], {}, [], true)

  function Init<R>(): System<R> {
    System(FRESH, [], 0, {}, [], {})
  }

  /** Claimed by a fulfill or a close that has not yet run its second region. */
  predicate AwaitsPublish<R>(t: Ticket<R>) {
    (t.owner.Fulfilled? || t.owner.Closed?) && !t.ready
  }

  /** The caller's side: ids are fresh within an epoch, one wait per ticket, reopen only after close. */
  ghost predicate Enabled<R>(s: System<R>, step: Step<R>) {
    match step
    case Open(id) => id !in s.issued
    case DiscardLate(_) => true
    case FulfillClaim(_, _) => true
    case Publish(n) => n < |s.tickets| && AwaitsPublish(s.tickets[n])
    case Observe(n) => n < |s.tickets| && s.tickets[n].waiter.Blocked?
    case TimeoutRemove(n) => n < |s.tickets| && s.tickets[n].waiter.SawNotReady?
    case CloseClaim(order, _) => Enumerates(order, s.router.requests.Keys)
    case Reopen => !s.router.accepting
  }

  function ContentOf<R>(t: Ticket<R>): Content<R> {
    Content(t.response, t.error, t.ready)
  }

  function Filled<R>(t: Ticket<R>, c: Content<R>): Ticket<R> {
    t.(response := c.response, error := c.error, ready := c.ready)
  }

  function PublishTicket<R>(t: Ticket<R>): Ticket<R>
    requires AwaitsPublish(t)
  {
    match t.owner
    case Fulfilled(resp) => Filled(t, WithResponse(ContentOf(t), resp))
    case Closed(err) => Filled(t, WithError(ContentOf(t), err))
  }

  function ObserveTicket<R>(t: Ticket<R>): Ticket<R> {
    match WaitResult(ContentOf(t))
    case Some(result) => t.(waiter := Returned(result))
    case None => t.(waiter := SawNotReady)
  }

  function CloseTicket<R>(t: Ticket<R>, err: string): Ticket<R> {
    if t.owner.Pending? then t.(owner := Closed(err)) else t
  }

  /** The step as the code performs it; a close marks exactly the tickets it took out of the map. */
  ghost function Apply<R>(s: System<R>, step: Step<R>): System<R>
    requires Enabled(s, step)
  {
    match step
    case Open(id) =>
      var n := |s.tickets|;
      if RS.CanOpen(s.router, id) then
        s.(router := RS.Open(s.router, id, n), issued := s.issued + {id},
           tickets := s.tickets + [Ticket(id, s.epoch, None, "", false, Pending, Blocked)])
      else s.(issued := s.issued + {id})
    case DiscardLate(id) =>
      s.(router := RS.Discard(s.router, id),
         discarded := if id in s.router.retired then s.discarded + {id} else s.discarded)
    case FulfillClaim(id, resp) =>
      if id in s.router.requests && s.router.requests[id] < |s.tickets| then
        var n := s.router.requests[id];
        s.(router := RS.Claim(s.router, id), tickets := s.tickets[n := s.tickets[n].(owner := Fulfilled(resp))])
      else s
    case Publish(n) => s.(tickets := s.tickets[n := PublishTicket(s.tickets[n])])
    case Observe(n) => s.(tickets := s.tickets[n := ObserveTicket(s.tickets[n])])
    case TimeoutRemove(n) =>
      var t := s.tickets[n];
      var t' := t.(waiter := Returned(Result(None, TIMED_OUT)));
      if RS.StillOwns(s.router, t.id, n) then
        s.(router := RS.TimeOut(s.router, t.id, n), history := s.history + [t.id],
           tickets := s.tickets[n := t'.(owner := TimedOut)])
      else s.(tickets := s.tickets[n := t'])
    case CloseClaim(order, err) =>
      s.(router := RS.Close(s.router, order), history := s.history + order,
         tickets := seq(|s.tickets|, n requires 0 <= n < |s.tickets| => CloseTicket(s.tickets[n], err)))
    case Reopen =>
      s.(router := RS.Reopen(s.router), epoch := s.epoch + 1, issued := {}, history := [], discarded := {})
  }

  // ---- Invariant --------------------------------------------------------------------------------

  /** What the ticket holds agrees with who claimed it and whether that party has published. */
  ghost predicate ContentOk<R>(t: Ticket<R>) {
    && (!t.ready ==> t.response == None && t.error == "")
    && (t.ready ==>
          match t.owner
          case Fulfilled(resp) => t.response == Some(resp) && t.error == ""
          case Closed(err) => t.response == None && t.error == err
          case _ => false)
    && (t.owner.TimedOut? ==> t.waiter == Returned(Result(None, TIMED_OUT)))
    && (t.waiter.Returned? ==>
          && !t.owner.Pending?
          && (|| t.waiter.result == Result(None, TIMED_OUT)
              || (t.ready && t.waiter.result == Result(t.response, t.error))))
  }

  ghost predicate TicketOk<R>(s: System<R>, n: nat)
    requires n < |s.tickets|
  {
    var t := s.tickets[n];
    && t.epoch <= s.epoch
    && (t.owner.Pending? <==> RS.StillOwns(s.router, t.id, n))
    && (t.owner.Pending? ==> t.epoch == s.epoch)
    && ContentOk(t)
  }

  ghost predicate MapOk<R>(s: System<R>) {
    && (forall id :: id in s.router.requests ==>
          s.router.requests[id] < |s.tickets| && s.tickets[s.router.requests[id]].id == id)
    && (!s.router.accepting ==> s.router.requests == map[])
  }

  ghost predicate IdsOk<R>(s: System<R>) {
    && s.router.requests.Keys <= s.issued
    && Elems(s.history) <= s.issued
    && s.router.requests.Keys !! Elems(s.history)
  }

  ghost predicate Inv<R>(s: System<R>) {
    && RS.WindowOk(s.router, s.history, s.discarded)
    && MapOk(s)
    && IdsOk(s)
    && forall n :: 0 <= n < |s.tickets| ==> TicketOk(s, n)
  }

  // ---- Every step keeps the invariant -----------------------------------------------------------

  lemma InvInit<R>()
    ensures Inv(Init<R>())
  {
  }

  lemma StepKeepsWindow<R>(s: System<R>, step: Step<R>)
    requires Inv(s) && Enabled(s, step)
    ensures var s' := Apply(s, step); RS.WindowOk(s'.router, s'.history, s'.discarded)
  {
    match step
    case DiscardLate(id) =>
      RS.DiscardKeepsWindow(s.router, s.history, s.discarded, id);
    case TimeoutRemove(n) =>
      var t := s.tickets[n];
      if RS.StillOwns(s.router, t.id, n) {
        RS.RetireKeepsWindow(RS.Claim(s.router, t.id), s.history, s.discarded, t.id);
      }
    case CloseClaim(order, _) =>
      RS.RetireAllKeepsWindow(s.router.(accepting := false), s.history, s.discarded, order);
    case _ =>
  }

  lemma StepKeepsMap<R>(s: System<R>, step: Step<R>)
    requires MapOk(s) && IdsOk(s) && Enabled(s, step)
    ensures MapOk(Apply(s, step)) && IdsOk(Apply(s, step))
  {
  }

  lemma StepKeepsContent<R>(s: System<R>, step: Step<R>, n: nat)
    requires Enabled(s, step) && MapOk(s) && n < |Apply(s, step).tickets|
    requires n < |s.tickets| ==> TicketOk(s, n)
    ensures ContentOk(Apply(s, step).tickets[n])
  {
  }

  lemma StepKeepsTickets<R>(s: System<R>, step: Step<R>, n: nat)
    requires MapOk(s) && Enabled(s, step) && n < |Apply(s, step).tickets|
    requires n < |s.tickets| ==> TicketOk(s, n)
    ensures TicketOk(Apply(s, step), n)
  {
    StepKeepsContent(s, step, n);
  }

  /** Where a ticket and its owner come from: a new ticket from an accepted open, a fulfilled owner
      from the fulfill that found the ticket pending under its own id. */
  lemma OwnerStep<R>(s: System<R>, step: Step<R>, n: nat)
    requires MapOk(s) && Enabled(s, step) && n < |Apply(s, step).tickets|
    requires n < |s.tickets| ==> TicketOk(s, n)
    ensures var t' := Apply(s, step).tickets[n];
            if n < |s.tickets| then
              var t := s.tickets[n];
              && t'.id == t.id && t'.epoch == t.epoch
              && (t'.owner.Fulfilled? ==>
                    || t'.owner == t.owner
                    || (t.owner.Pending? && t.epoch == s.epoch && step == FulfillClaim(t.id, t'.owner.resp)))
            else
              step == Open(t'.id) && RS.CanOpen(s.router, t'.id) && t'.epoch == s.epoch && t'.owner.Pending?
  {
  }

  /** Once claimed, a ticket stays as it is until its own publication. */
  lemma ClaimStays<R>(s: System<R>, step: Step<R>, n: nat)
    requires MapOk(s) && Enabled(s, step) && n < |s.tickets| && TicketOk(s, n) && AwaitsPublish(s.tickets[n])
    requires step != Publish(n)
    ensures n < |Apply(s, step).tickets|
    ensures Apply(s, step).tickets[n].owner == s.tickets[n].owner && !Apply(s, step).tickets[n].ready
  {
  }

  lemma StepKeepsInv<R>(s: System<R>, step: Step<R>)
    requires Inv(s) && Enabled(s, step)
    ensures Inv(Apply(s, step))
  {
    StepKeepsWindow(s, step);
    StepKeepsMap(s, step);
    forall n | 0 <= n < |Apply(s, step).tickets| ensures TicketOk(Apply(s, step), n) {
      StepKeepsTickets(s, step, n);
    }
  }
}
