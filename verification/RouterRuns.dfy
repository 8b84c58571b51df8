/** What every run of the router protocol satisfies, whatever the interleaving. */
module RouterRuns {
  import opened Common
  import RS = RouterState
  import opened RR = RequestRouter
  import opened RouterProtocol

  ghost predicate IsRun<R(!new)>(ss: seq<System<R>>, steps: seq<Step<R>>) {
    && |ss| == |steps| + 1
    && ss[0] == Init()
    && forall i {:trigger steps[i]} :: 0 <= i < |steps| ==>
         Enabled(ss[i], steps[i]) && ss[i + 1] == Apply(ss[i], steps[i])
  }

  lemma {:induction false} RunInv<R(!new)>(ss: seq<System<R>>, steps: seq<Step<R>>, i: nat)
    requires IsRun(ss, steps) && i < |ss|
    ensures Inv(ss[i])
  {
    if i == 0 {
      InvInit<R>();
    } else {
      RunInv(ss, steps, i - 1);
      StepKeepsInv(ss[i - 1], steps[i - 1]);
    }
  }

  lemma RunExtends<R(!new)>(ss: seq<System<R>>, steps: seq<Step<R>>, step: Step<R>)
    requires IsRun(ss, steps) && Enabled(ss[|steps|], step)
    ensures IsRun(ss + [Apply(ss[|steps|], step)], steps + [step])
  {
  }

  // ---- Tickets only move forward ----------------------------------------------------------------

  /** A claim, a completion and a returned result are final. */
  predicate Forward<R(==)>(t: Ticket<R>, t': Ticket<R>) {
    && t'.id == t.id && t'.epoch == t.epoch
    && (!t.owner.Pending? ==> t'.owner == t.owner)
    && (t.ready ==> t'.ready && t'.response == t.response && t'.error == t.error)
    && (t.waiter.SawNotReady? ==> !t'.waiter.Blocked?)
    && (t.waiter.Returned? ==> t'.waiter == t.waiter)
  }

  lemma StepForward<R(!new)>(s: System<R>, step: Step<R>, n: nat)
    requires Inv(s) && Enabled(s, step) && n < |s.tickets|
    ensures n < |Apply(s, step).tickets| && Forward(s.tickets[n], Apply(s, step).tickets[n])
  {
    assert TicketOk(s, n);
    if step.FulfillClaim? && step.id in s.router.requests {
      assert TicketOk(s, s.router.requests[step.id]);
    }
  }

  lemma {:induction false} RunForward<R(!new)>(ss: seq<System<R>>, steps: seq<Step<R>>, i: nat, j: nat, n: nat)
    requires IsRun(ss, steps) && i <= j < |ss| && n < |ss[i].tickets|
    ensures n < |ss[j].tickets| && Forward(ss[i].tickets[n], ss[j].tickets[n])
    decreases j
  {
    if i < j {
      RunForward(ss, steps, i, j - 1, n);
      RunInv(ss, steps, j - 1);
      StepForward(ss[j - 1], steps[j - 1], n);
    }
  }

  // ---- Exclusive completion ---------------------------------------------------------------------

  /** Step `i` takes ticket `n` out of the map. */
  ghost predicate Removes<R(!new)>(ss: seq<System<R>>, i: nat, n: nat) {
    && i + 1 < |ss| && n < |ss[i].tickets| && n < |ss[i + 1].tickets|
    && RS.StillOwns(ss[i].router, ss[i].tickets[n].id, n)
    && !RS.StillOwns(ss[i + 1].router, ss[i].tickets[n].id, n)
  }

  ghost predicate BecomesReady<R(!new)>(ss: seq<System<R>>, i: nat, n: nat) {
    && i + 1 < |ss| && n < |ss[i].tickets| && n < |ss[i + 1].tickets|
    && !ss[i].tickets[n].ready && ss[i + 1].tickets[n].ready
  }

  /** At most one of fulfill, the timeout branch and close removes a ticket, and it does so once. */
  lemma ClaimedOnce<R(!new)>(ss: seq<System<R>>, steps: seq<Step<R>>, i: nat, j: nat, n: nat)
    requires IsRun(ss, steps) && Removes(ss, i, n) && Removes(ss, j, n)
    ensures i == j
    ensures match steps[i]
            case FulfillClaim(id, resp) => id == ss[i].tickets[n].id && ss[i + 1].tickets[n].owner == Fulfilled(resp)
            case TimeoutRemove(m) => m == n && ss[i + 1].tickets[n].owner == TimedOut
            case CloseClaim(_, err) => ss[i + 1].tickets[n].owner == Closed(err)
            case _ => false
  {
    RunInv(ss, steps, i);
    RunInv(ss, steps, i + 1);
    RunInv(ss, steps, j);
    RunInv(ss, steps, j + 1);
    assert TicketOk(ss[i], n) && TicketOk(ss[i + 1], n) && TicketOk(ss[j], n) && TicketOk(ss[j + 1], n);
    RunForward(ss, steps, i, i + 1, n);
    RunForward(ss, steps, j, j + 1, n);
    if i < j {
      RunForward(ss, steps, i + 1, j, n);
    } else if j < i {
      RunForward(ss, steps, j + 1, i, n);
    }
  }

  /** A ticket becomes ready at most once, only after its claim, and holds either the response or
      the error of the party that claimed it, never both. */
  lemma ReadyOnce<R(!new)>(ss: seq<System<R>>, steps: seq<Step<R>>, i: nat, j: nat, n: nat)
    requires IsRun(ss, steps) && BecomesReady(ss, i, n) && BecomesReady(ss, j, n)
    ensures i == j && steps[i] == Publish(n)
    ensures forall k :: i < k < |ss| ==>
              && n < |ss[k].tickets| && ss[k].tickets[n].ready
              && (ss[k].tickets[n].response == None || ss[k].tickets[n].error == "")
  {
    if i < j {
      RunForward(ss, steps, i + 1, j, n);
    } else if j < i {
      RunForward(ss, steps, j + 1, i, n);
    }
    forall k | i < k < |ss|
      ensures n < |ss[k].tickets| && ss[k].tickets[n].ready
              && (ss[k].tickets[n].response == None || ss[k].tickets[n].error == "")
    {
      RunForward(ss, steps, i + 1, k, n);
      RunInv(ss, steps, k);
      assert TicketOk(ss[k], n);
    }
  }

  /** Step `c` is the fulfill that claimed ticket `n`, with response `resp`. */
  ghost predicate ClaimsFor<R(!new)>(ss: seq<System<R>>, steps: seq<Step<R>>, c: nat, n: nat, resp: R) {
    && c < |steps| && c < |ss| && n < |ss[c].tickets|
    && steps[c] == FulfillClaim(ss[c].tickets[n].id, resp)
    && RS.StillOwns(ss[c].router, ss[c].tickets[n].id, n)
  }

  lemma {:induction false} FulfilledHasClaim<R(!new)>(ss: seq<System<R>>, steps: seq<Step<R>>, j: nat, n: nat)
    requires IsRun(ss, steps) && j < |ss| && n < |ss[j].tickets| && ss[j].tickets[n].owner.Fulfilled?
    ensures exists c: nat :: c < j && ClaimsFor(ss, steps, c, n, ss[j].tickets[n].owner.resp)
    decreases j
  {
    var i := j - 1;
    RunInv(ss, steps, i);
    if n < |ss[i].tickets| && ss[i].tickets[n].owner.Fulfilled? {
      FulfilledHasClaim(ss, steps, i, n);
      RunForward(ss, steps, i, j, n);
    } else {
      var resp := ss[j].tickets[n].owner.resp;
      assert n < |ss[i].tickets|;
      RunForward(ss, steps, i, j, n);
      assert TicketOk(ss[i], n);
      assert ClaimsFor(ss, steps, i, n, resp);
    }
  }

  /** A response returned by `wait` is the one passed to the fulfill that claimed that very ticket. */
  lemma ResponseProvenance<R(!new)>(ss: seq<System<R>>, steps: seq<Step<R>>, j: nat, n: nat, resp: R)
    requires IsRun(ss, steps) && j < |ss| && n < |ss[j].tickets|
    requires ss[j].tickets[n].waiter.Returned? && ss[j].tickets[n].waiter.result.response == Some(resp)
    ensures ss[j].tickets[n].waiter.result.error == ""
    ensures exists c: nat :: c < j && ClaimsFor(ss, steps, c, n, resp)
  {
    RunInv(ss, steps, j);
    assert TicketOk(ss[j], n);
    FulfilledHasClaim(ss, steps, j, n);
  }

  // ---- A fulfill that succeeds against a wait that reports a timeout ----------------------------

  ghost predicate SawUnready<R(!new)>(ss: seq<System<R>>, steps: seq<Step<R>>, o: nat, n: nat) {
    o < |steps| && o < |ss| && n < |ss[o].tickets| && steps[o] == Observe(n) && !ss[o].tickets[n].ready
  }

  lemma {:induction false} TimeoutWasObserved<R(!new)>(ss: seq<System<R>>, steps: seq<Step<R>>, j: nat, n: nat)
    requires IsRun(ss, steps) && j < |ss| && n < |ss[j].tickets| && ss[j].tickets[n].waiter.SawNotReady?
    ensures exists o: nat :: o < j && SawUnready(ss, steps, o, n)
    decreases j
  {
    var i := j - 1;
    RunInv(ss, steps, i);
    if n < |ss[i].tickets| && ss[i].tickets[n].waiter.SawNotReady? {
      TimeoutWasObserved(ss, steps, i, n);
    } else {
      assert n < |ss[i].tickets|;
      assert SawUnready(ss, steps, i, n);
    }
  }

  lemma PublishedAfter<R(!new)>(ss: seq<System<R>>, steps: seq<Step<R>>, o: nat, p: nat, n: nat)
    requires IsRun(ss, steps) && SawUnready(ss, steps, o, n) && p < |steps| && steps[p] == Publish(n)
    ensures o < p
  {
    if p < o {
      RunForward(ss, steps, p + 1, o, n);
    }
  }

  /** The waiter looked before the response was published, its timeout branch found the ticket gone,
      and it changed neither the map nor the retired window. */
  lemma FulfilledYetTimedOut<R(!new)>(ss: seq<System<R>>, steps: seq<Step<R>>, c: nat, j: nat, n: nat, resp: R)
    requires IsRun(ss, steps) && j < |steps| && steps[j] == TimeoutRemove(n) && ClaimsFor(ss, steps, c, n, resp)
    ensures c < j && ss[j + 1].router == ss[j].router && ss[j + 1].history == ss[j].history
    ensures exists o: nat :: o < j && SawUnready(ss, steps, o, n)
                             && forall p :: 0 <= p < |steps| && steps[p] == Publish(n) ==> o < p
  {
    RunInv(ss, steps, c);
    RunInv(ss, steps, j);
    RunInv(ss, steps, j + 1);
    assert TicketOk(ss[c], n) && TicketOk(ss[j], n) && TicketOk(ss[j + 1], n);
    if j < c {
      RunForward(ss, steps, j + 1, c, n);
    } else {
      RunForward(ss, steps, c + 1, j, n);
    }
    TimeoutWasObserved(ss, steps, j, n);
    var o: nat :| o < j && SawUnready(ss, steps, o, n);
    forall p | 0 <= p < |steps| && steps[p] == Publish(n) ensures o < p {
      PublishedAfter(ss, steps, o, p, n);
    }
  }

  // ---- The retired window -----------------------------------------------------------------------

  /** In every reachable state the bounded deque and set agree with the unbounded history, and
      discard_late succeeds exactly for undiscarded ids followed by fewer than 256 retirements. */
  lemma RetiredWindow<R(!new)>(ss: seq<System<R>>, steps: seq<Step<R>>, i: nat, id: nat)
    requires IsRun(ss, steps) && i < |ss|
    ensures ss[i].router.order == LastN(ss[i].history, 256)
    ensures ss[i].router.retired == Elems(ss[i].router.order) - ss[i].discarded
    ensures id in ss[i].router.retired <==>
              id !in ss[i].discarded
              && exists p: nat :: RS.RetiredAt(ss[i].history, id, p) && |ss[i].history| - 1 - p < 256
  {
    RunInv(ss, steps, i);
    var s := ss[i];
    if id in s.history {
      var p: nat :| p < |s.history| && s.history[p] == id;
      assert RS.RetiredAt(s.history, id, p);
      RS.DiscardSucceedsIff(s.router, s.history, s.discarded, id, p);
    } else {
      assert id !in s.router.order;
      assert forall p: nat :: RS.RetiredAt(s.history, id, p) ==> id in s.history;
    }
  }

  lemma {:induction false} DiscardedStays<R(!new)>(ss: seq<System<R>>, steps: seq<Step<R>>, i: nat, j: nat, id: nat)
    requires IsRun(ss, steps) && i <= j < |ss| && id in ss[i].discarded
    requires forall k :: i <= k < j ==> steps[k] != Reopen
    ensures id in ss[j].discarded
    decreases j
  {
    if i < j {
      DiscardedStays(ss, steps, i, j - 1, id);
      assert steps[j - 1] != Reopen;
    }
  }

  /** discard_late returns true at most once per id between two reopens. */
  lemma DiscardedOnce<R(!new)>(ss: seq<System<R>>, steps: seq<Step<R>>, i: nat, j: nat, id: nat)
    requires IsRun(ss, steps) && i < j < |steps|
    requires steps[i] == DiscardLate(id) && id in ss[i].router.retired
    requires steps[j] == DiscardLate(id) && id in ss[j].router.retired
    ensures exists k :: i < k < j && steps[k] == Reopen
  {
    if forall k :: i < k < j ==> steps[k] != Reopen {
      DiscardedStays(ss, steps, i + 1, j, id);
      RunInv(ss, steps, j);
    }
  }

  // ---- Epochs -----------------------------------------------------------------------------------

  /** A caller still finishing with a ticket of an earlier epoch touches that ticket alone: it never
      erases, retires or completes the new request that reuses its id. */
  lemma OldEpochIsolated<R(!new)>(ss: seq<System<R>>, steps: seq<Step<R>>, i: nat, n: nat)
    requires IsRun(ss, steps) && i < |steps| && n < |ss[i].tickets| && ss[i].tickets[n].epoch < ss[i].epoch
    requires steps[i] == Publish(n) || steps[i] == Observe(n) || steps[i] == TimeoutRemove(n)
    ensures ss[i + 1].(tickets := ss[i].tickets) == ss[i]
    ensures |ss[i + 1].tickets| == |ss[i].tickets|
    ensures forall m :: 0 <= m < |ss[i].tickets| && m != n ==> ss[i + 1].tickets[m] == ss[i].tickets[m]
  {
    RunInv(ss, steps, i);
    assert TicketOk(ss[i], n);
  }

  /** After a close no earlier ticket is ever pending again, and one that is still unready is either
      in the hands of a fulfill or close between its regions, or abandoned by its own timeout. */
  lemma CloseLeavesNonePending<R(!new)>(ss: seq<System<R>>, steps: seq<Step<R>>, i: nat, j: nat, n: nat)
    requires IsRun(ss, steps) && i < j < |ss| && steps[i].CloseClaim? && n < |ss[i].tickets|
    ensures n < |ss[j].tickets| && !ss[j].tickets[n].owner.Pending?
    ensures !ss[j].tickets[n].ready ==> AwaitsPublish(ss[j].tickets[n]) || ss[j].tickets[n].owner.TimedOut?
    ensures forall id :: id in ss[j].router.requests ==> ss[j].router.requests[id] != n
  {
    RunForward(ss, steps, i + 1, j, n);
    RunInv(ss, steps, j);
    assert TicketOk(ss[j], n);
  }
}
