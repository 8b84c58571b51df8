/** Two runs of the account that show what the fates of late replies come to: 257 readers are waiting when
    the account stops, and TDLib answers the first of them after the close; and a reader gives up between
    the two questions the receive thread asks the router. */
module AccountWitnesses {
  import opened Common
  import RS = RouterState
  import RP = RouterProtocol
  import opened AccountCore
  import opened AccountProtocol
  import opened AccountRuns
  import opened AccountFates

  /** One reader more than the window has room for. */
  const READERS: nat := 257

  /** getAuthorizationState takes the id 1, so reads start here. */
  const FIRST_READ: nat := 2

  predicate Within(a: Account, act: Action) {
    RouterStep(a, act).Some? ==>
      match RouterStep(a, act).value
      case Open(id) => id !in a.sys.issued
      case CloseClaim(_, _) => true
      case DiscardLate(_) => true
      case FulfillClaim(_, _) => true
      case Observe(_) => true
      case TimeoutRemove(_) => true
      case Reopen => !a.sys.router.accepting
      case _ => false
  }

  /** The state after an action that stays within the router's contract. */
  ghost function After(a: Account, act: Action): Account
    requires CanDo(a, act) && Within(a, act)
  {
    var sys := match RouterStep(a, act) case None => a.sys case Some(step) => RP.Apply(a.sys, step);
    Account(CoreAfter(a, act), sys, SentAfter(a, act), RepliesAfter(a, act), RxAfter(a, act), CtlAfter(a, act))
  }

  lemma Do(run: seq<Account>, acts: seq<Action>, act: Action) returns (run': seq<Account>, acts': seq<Action>)
    requires IsRun(run, acts) && CanDo(run[|acts|], act) && Within(run[|acts|], act)
    ensures IsRun(run', acts') && run'[|acts'|] == After(run[|acts|], act)
    ensures |acts'| == |acts| + 1 && run'[|acts|] == run[|acts|] && acts'[|acts|] == act
  {
    var a' := After(run[|acts|], act);
    assert Next(run[|acts|], act, a');
    run', acts' := run + [a'], acts + [act];
  }

  /** A live session that waits for TDLib's first word. */
  ghost predicate Started(a: Account) {
    && a.core == Core(FIRST_READ, true, false, true, Starting, 0)
    && a.sys.router == RP.FRESH && a.sys.tickets == []
    && a.sys.epoch == 1 && a.sys.history == [] && a.sys.discarded == {}
    && a.replies == map[] && a.rx == LoopHead && a.ctl == Quiet
  }

  lemma StopNothing() returns (run: seq<Account>, acts: seq<Action>)
    ensures IsRun(run, acts) && run[|acts|] == Init().(ctl := Cleared(true), sys := run[|acts|].sys)
    ensures run[|acts|].sys == RP.Init<Obj>().(router := RP.FRESH.(accepting := false))
  {
    run, acts := [Init()], [];
    run, acts := Do(run, acts, StopMark(true));
    run, acts := Do(run, acts, StopClose([]));
    run, acts := Do(run, acts, Join);
    run, acts := Do(run, acts, ResetFields);
  }

  lemma Start() returns (run: seq<Account>, acts: seq<Action>)
    ensures IsRun(run, acts) && Started(run[|acts|])
  {
    run, acts := StopNothing();
    run, acts := Do(run, acts, BeginFields);
    run, acts := Do(run, acts, Spawn);
    run, acts := Do(run, acts, Hello);
  }

  function ReadIds(k: nat): seq<nat> {
    seq(k, i => FIRST_READ + i)
  }

  lemma ReadIdsSnoc(k: nat)
    requires k > 0
    ensures Elems(ReadIds(k)) == Elems(ReadIds(k - 1)) + {FIRST_READ + k - 1}
  {
    assert ReadIds(k) == ReadIds(k - 1) + [FIRST_READ + k - 1];
    RS.ElemsSnoc(ReadIds(k - 1), FIRST_READ + k - 1);
  }

  /** `k` readers of this session are waiting, and TDLib has answered none of them. */
  ghost predicate Reading(a: Account, k: nat) {
    && a.core == Core(FIRST_READ + k, true, false, true, Authorized, 0)
    && Enumerates(ReadIds(k), a.sys.router.requests.Keys)
    && a.sys.router.accepting
    && a.sys.epoch == 1 && a.sys.history == [] && a.sys.discarded == {}
    && a.replies == map[] && a.rx == LoopHead && a.ctl == Quiet
    && (forall id :: FIRST_READ <= id < FIRST_READ + k ==> SentAs(a, (1, id), Read))
    && forall n :: 0 <= n < |a.sys.tickets| ==> a.sys.tickets[n].waiter.Blocked?
  }

  /** The receive loop has taken the update for what it is. */
  lemma Announce() returns (run: seq<Account>, acts: seq<Action>)
    ensures IsRun(run, acts) && Started(run[|acts|].(rx := LoopHead))
    ensures run[|acts|].rx == Dispatching(0, AuthUpdate(Authorized))
  {
    run, acts := Start();
    run, acts := Do(run, acts, RxReceive(0, AuthUpdate(Authorized)));
    run, acts := Do(run, acts, RxContains);
    run, acts := Do(run, acts, RxDiscard);
  }

  lemma Authorize() returns (run: seq<Account>, acts: seq<Action>)
    ensures IsRun(run, acts) && Reading(run[|acts|], 0)
  {
    run, acts := Announce();
    run, acts := Do(run, acts, RxHandle);
    run, acts := Do(run, acts, RxAct([]));
  }

  lemma ReadStep(a: Account, k: nat)
    requires Reading(a, k) && FIRST_READ + k !in a.sys.issued
    ensures Within(a, ReadOpen) && Reading(After(a, ReadOpen), k + 1)
  {
    ReadIdsSnoc(k + 1);
  }

  lemma {:induction false} ReadRun(k: nat) returns (run: seq<Account>, acts: seq<Action>)
    ensures IsRun(run, acts) && Reading(run[|acts|], k)
    decreases k
  {
    if k == 0 {
      run, acts := Authorize();
    } else {
      run, acts := ReadRun(k - 1);
      GateImpliesTicket(run, acts, |acts|);
      ReadStep(run[|acts|], k - 1);
      run, acts := Do(run, acts, ReadOpen);
    }
  }

  /** The account is stopping, every reader's request has been closed, and the receive loop still runs. */
  ghost predicate ClosedOnReaders(a: Account) {
    && a.core.running && a.core.manager
    && a.sys.router.requests == map[] && a.sys.epoch == 1 && a.sys.discarded == {}
    && a.sys.history == ReadIds(READERS)
    && a.replies == map[] && a.rx == LoopHead && SentAs(a, (1, FIRST_READ), Read)
  }

  lemma CloseRun() returns (run: seq<Account>, acts: seq<Action>)
    ensures IsRun(run, acts) && ClosedOnReaders(run[|acts|])
  {
    run, acts := ReadRun(READERS);
    run, acts := Do(run, acts, StopMark(false));
    run, acts := Do(run, acts, StopClose(ReadIds(READERS)));
  }

  /** TDLib's error reply to the first read reaches the branch for errors as if it answered an
      authorization request. A reply to the second read would still be discarded. */
  lemma ReadReplyOverruns() returns (run: seq<Account>, acts: seq<Action>)
    ensures IsRun(run, acts)
    ensures var a := run[|acts|];
            && a.rx == Dispatching(FIRST_READ, ErrorObj)
            && SentAs(a, (a.sys.epoch, FIRST_READ), Read)
            && Overrun(a.sys.history, FIRST_READ)
            && FIRST_READ + 1 in a.sys.router.retired
  {
    run, acts := CloseRun();
    RunInv(run, acts, |acts|);
    var sys := run[|acts|].sys;
    assert RS.RetiredAt(sys.history, FIRST_READ, 0) && RS.RetiredAt(sys.history, FIRST_READ + 1, 1);
    RS.DiscardSucceedsIff(sys.router, sys.history, sys.discarded, FIRST_READ, 0);
    RS.DiscardSucceedsIff(sys.router, sys.history, sys.discarded, FIRST_READ + 1, 1);
    run, acts := Do(run, acts, RxReceive(FIRST_READ, ErrorObj));
    run, acts := Do(run, acts, RxContains);
    run, acts := Do(run, acts, RxDiscard);
  }

  lemma HitRun() returns (run: seq<Account>, acts: seq<Action>)
    ensures IsRun(run, acts)
    ensures var a := run[|acts|];
            && a.rx == Hit(FIRST_READ, Plain(0)) && FIRST_READ in a.sys.router.requests
            && SentAs(a, (a.sys.epoch, FIRST_READ), Read)
            && forall n :: 0 <= n < |a.sys.tickets| ==> a.sys.tickets[n].waiter.Blocked?
  {
    run, acts := ReadRun(1);
    assert FIRST_READ in run[|acts|].sys.router.requests by {
      assert ReadIds(1)[0] == FIRST_READ;
    }
    run, acts := Do(run, acts, RxReceive(FIRST_READ, Plain(0)));
    run, acts := Do(run, acts, RxContains);
  }

  lemma GiveUp(a: Account, n: nat)
    requires RP.Inv(a.sys) && a.rx.Hit? && RS.StillOwns(a.sys.router, a.rx.id, n)
    requires n < |a.sys.tickets| && a.sys.tickets[n].waiter.Blocked? && a.sys.tickets[n].id == a.rx.id
    ensures CanDo(After(a, ReaderObserve(n)), ReaderTimeout(n))
    ensures var a' := After(After(a, ReaderObserve(n)), ReaderTimeout(n));
            a'.rx == a.rx && a'.rx.id !in a'.sys.router.requests && a'.sys.epoch == a.sys.epoch && a'.sent == a.sent
  {
    assert RP.TicketOk(a.sys, n);
  }

  /** The reader of the only request looks at its ticket and gives up while the receive thread is between
      asking for the request and fulfilling it. */
  lemma ReadReplyLost() returns (run: seq<Account>, acts: seq<Action>, f: nat)
    ensures IsRun(run, acts) && f + 1 == |acts|
    ensures run[f].rx == Hit(FIRST_READ, Plain(0)) && HasFate(run, acts, f, Lost)
  {
    run, acts := HitRun();
    RunInv(run, acts, |acts|);
    var n := run[|acts|].sys.router.requests[FIRST_READ];
    GiveUp(run[|acts|], n);
    run, acts := Do(run, acts, ReaderObserve(n));
    run, acts := Do(run, acts, ReaderTimeout(n));
    f := |acts|;
    run, acts := Do(run, acts, RxClaim);
    ClaimFate(run, acts, f);
  }
}
