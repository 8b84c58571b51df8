/** What every run of the account protocol satisfies. */
module AccountRuns {
  import opened Common
  import RS = RouterState
  import RP = RouterProtocol
  import RR = RouterRuns
  import opened AccountCore
  import opened AccountProtocol

  ghost predicate IsRun(run: seq<Account>, acts: seq<Action>) {
    && |run| == |acts| + 1
    && run[0] == Init()
    && forall i {:trigger acts[i]} :: 0 <= i < |acts| ==> Next(run[i], acts[i], run[i + 1])
  }

  lemma {:induction false} RunInv(run: seq<Account>, acts: seq<Action>, i: nat)
    requires IsRun(run, acts) && i < |run|
    ensures Inv(run[i])
  {
    if i == 0 {
      InvInit();
    } else {
      RunInv(run, acts, i - 1);
      NextKeepsInv(run[i - 1], acts[i - 1], run[i]);
    }
  }

  lemma ExtendByStep(ss: seq<RP.System<Obj>>, steps: seq<RP.Step<Obj>>, step: RP.Step<Obj>)
    returns (ss': seq<RP.System<Obj>>, steps': seq<RP.Step<Obj>>)
    requires RR.IsRun(ss, steps) && RP.Enabled(ss[|steps|], step)
    ensures RR.IsRun(ss', steps') && ss'[|steps'|] == RP.Apply(ss[|steps|], step)
  {
    RR.RunExtends(ss, steps, step);
    ss', steps' := ss + [RP.Apply(ss[|steps|], step)], steps + [step];
  }

  lemma SysMoveOf(run: seq<Account>, acts: seq<Action>, i: nat)
    requires IsRun(run, acts) && i < |acts|
    ensures SysMoves(run[i], acts[i], run[i + 1])
  {
    RunInv(run, acts, i);
    SysStep(run[i], acts[i], run[i + 1]);
  }

  /** Every run of the account drives the router through a run of the router protocol, so fresh ids,
      and reopen only after close, are facts about TdAccount and not assumptions. */
  lemma {:induction false} RefinesRouterProtocol(run: seq<Account>, acts: seq<Action>, i: nat)
    returns (ss: seq<RP.System<Obj>>, steps: seq<RP.Step<Obj>>)
    requires IsRun(run, acts) && i < |run|
    ensures RR.IsRun(ss, steps) && ss[|steps|] == run[i].sys
    decreases i
  {
    if i == 0 {
      return [RP.Init()], [];
    }
    ss, steps := RefinesRouterProtocol(run, acts, i - 1);
    SysMoveOf(run, acts, i - 1);
    match RouterStep(run[i - 1], acts[i - 1])
    case None =>
    case Some(step) => ss, steps := ExtendByStep(ss, steps, step);
  }

  // ---- Reply classification ---------------------------------------------------------------------

  /** A reply to a read that the receive thread is about to look up in the retired window falls
      through to the error and authorization branches exactly when 256 retirements have followed its
      own; with fewer it is discarded. */
  lemma MissedReplyFate(run: seq<Account>, acts: seq<Action>, i: nat)
    requires IsRun(run, acts) && i < |acts| && acts[i].RxDiscard? && run[i].rx.Miss?
    requires SentAs(run[i], (run[i].sys.epoch, run[i].rx.id), Read)
    ensures run[i + 1].rx.Dispatching? <==> Overrun(run[i].sys.history, run[i].rx.id)
    ensures !run[i + 1].rx.Dispatching? ==>
              run[i + 1].rx == LoopHead && run[i + 1].sys.discarded == run[i].sys.discarded + {run[i].rx.id}
  {
    RunInv(run, acts, i);
    SysStep(run[i], acts[i], run[i + 1]);
    MissedRead(run[i]);
  }

  /** No interleaving brings a reply to a read to the error and authorization branches unless 256
      retirements followed that of its id. */
  lemma ReplyClassification(run: seq<Account>, acts: seq<Action>, i: nat)
    requires IsRun(run, acts) && i < |run| && run[i].rx.Dispatching?
    requires run[i].rx.id != 0 && !Overrun(run[i].sys.history, run[i].rx.id)
    ensures exists kind :: kind != Read && SentAs(run[i], (run[i].sys.epoch, run[i].rx.id), kind)
  {
    RunInv(run, acts, i);
    var key := (run[i].sys.epoch, run[i].rx.id);
    assert SentAs(run[i], key, run[i].sent[key]);
  }

  /** What the receive thread hands to fulfill, when fulfill accepts it, is TDLib's reply to a read
      of this session, and it goes to the ticket opened for that read: no update and no reply to an
      authorization request is ever delivered to a reader. */
  lemma OnlyReadsDelivered(run: seq<Account>, acts: seq<Action>, i: nat)
    requires IsRun(run, acts) && i < |acts| && acts[i].RxClaim? && run[i + 1].rx.Delivering?
    ensures var a, n := run[i], run[i + 1].rx.n;
            && a.rx.id != 0
            && SentAs(a, (a.sys.epoch, a.rx.id), Read)
            && n < |a.sys.tickets| && a.sys.tickets[n].id == a.rx.id && a.sys.tickets[n].epoch == a.sys.epoch
            && a.sys.tickets[n].owner.Pending?
            && run[i + 1].sys.tickets[n].owner == RP.Fulfilled(a.rx.obj)
  {
    RunInv(run, acts, i);
    SysStep(run[i], acts[i], run[i + 1]);
    assert RP.TicketOk(run[i].sys, run[i + 1].rx.n);
  }

  /** End to end: a response a reader gets is what TDLib answered to that reader's own request, in
      the session in which it was made. */
  lemma ReaderGetsItsOwnReply(run: seq<Account>, acts: seq<Action>, i: nat, n: nat, obj: Obj)
    requires IsRun(run, acts) && i < |run| && n < |run[i].sys.tickets|
    requires var t := run[i].sys.tickets[n];
             t.waiter.Returned? && t.waiter.result.response == Some(obj)
    ensures var t := run[i].sys.tickets[n];
            && t.waiter.result.error == ""
            && SentAs(run[i], (t.epoch, t.id), Read)
            && (t.epoch, t.id) in run[i].replies && run[i].replies[(t.epoch, t.id)] == obj
  {
    RunInv(run, acts, i);
    assert RP.TicketOk(run[i].sys, n) && AnswerOk(run[i], n);
  }

  /** A read that passes the gate of request_read always gets a ticket: the router is accepting and
      the id is new, so the branch for a null ticket is never taken. */
  lemma GateImpliesTicket(run: seq<Account>, acts: seq<Action>, i: nat)
    requires IsRun(run, acts) && i < |run| && ReadGate(run[i].core)
    ensures RS.CanOpen(run[i].sys.router, run[i].core.nextId)
    ensures run[i].core.nextId !in run[i].sys.issued
  {
    RunInv(run, acts, i);
  }

  // ---- Authorization inputs ---------------------------------------------------------------------

  ghost predicate Accepted(run: seq<Account>, acts: seq<Action>, i: nat) {
    && i < |acts| && i < |run|
    && acts[i].SubmitInput? && AcceptsInput(run[i].core, acts[i].kind)
  }

  /** The receive loop applies a state update, or TDLib's own error reply to the input `id`. */
  ghost predicate Releases(run: seq<Account>, acts: seq<Action>, k: nat, id: nat) {
    && k < |acts| && k < |run| && acts[k].RxHandle? && run[k].rx.Dispatching?
    && (|| run[k].rx.obj.AuthUpdate?
        || (run[k].rx == Dispatching(id, ErrorObj)
            && SentAs(run[k], (run[k].sys.epoch, id), InputSubmit)
            && (run[k].sys.epoch, id) in run[k].replies && run[k].replies[(run[k].sys.epoch, id)] == ErrorObj))
  }

  lemma EpochStep(run: seq<Account>, acts: seq<Action>, i: nat)
    requires IsRun(run, acts) && i < |acts|
    ensures run[i].sys.epoch <= run[i + 1].sys.epoch
    ensures !run[i].core.manager && run[i].sys.epoch == run[i + 1].sys.epoch ==> !run[i + 1].core.manager
  {
    SysMoveOf(run, acts, i);
  }

  lemma {:induction false} EpochGrows(run: seq<Account>, acts: seq<Action>, i: nat, j: nat)
    requires IsRun(run, acts) && i <= j < |run|
    ensures run[i].sys.epoch <= run[j].sys.epoch
    decreases j
  {
    if i < j {
      EpochGrows(run, acts, i, j - 1);
      EpochStep(run, acts, j - 1);
    }
  }

  lemma {:induction false} NoManagerUntilBegin(run: seq<Account>, acts: seq<Action>, i: nat, j: nat)
    requires IsRun(run, acts) && i <= j < |run| && !run[i].core.manager && run[i].sys.epoch == run[j].sys.epoch
    ensures !run[j].core.manager
    decreases j
  {
    if i < j {
      EpochGrows(run, acts, i, j - 1);
      EpochStep(run, acts, j - 1);
      NoManagerUntilBegin(run, acts, i, j - 1);
    }
  }

  /** One step takes the in-flight input away only by a state update, its own error, or a reset. */
  lemma InputKept(a: Account, act: Action, a': Account)
    requires Inv(a) && Next(a, act, a') && a.core.input != 0
    ensures a'.core.input == a.core.input
            || !a'.core.manager
            || (act == RxHandle && a.rx.Dispatching? && a.rx.obj.AuthUpdate?)
            || (act == RxHandle && a.rx == Dispatching(a.core.input, ErrorObj)
                && SentAs(a, (a.sys.epoch, a.core.input), InputSubmit)
                && (a.sys.epoch, a.core.input) in a.replies
                && a.replies[(a.sys.epoch, a.core.input)] == ErrorObj)
  {
  }

  lemma InputStep(run: seq<Account>, acts: seq<Action>, k: nat, id: nat)
    requires IsRun(run, acts) && k < |acts| && id != 0 && run[k].core.input == id && !Releases(run, acts, k, id)
    ensures run[k + 1].core.input == id || !run[k + 1].core.manager
  {
    RunInv(run, acts, k);
    InputKept(run[k], acts[k], run[k + 1]);
  }

  /** While nothing releases it, the input of a live session stays in flight. */
  lemma {:induction false} InputStays(run: seq<Account>, acts: seq<Action>, i: nat, j: nat, id: nat)
    requires IsRun(run, acts) && i <= j < |run| && id != 0 && run[i].core.input == id
    requires run[i].sys.epoch == run[j].sys.epoch && run[j].core.manager
    requires forall k :: i <= k < j ==> !Releases(run, acts, k, id)
    ensures run[j].core.input == id
    decreases j
  {
    if i < j {
      EpochGrows(run, acts, i, j - 1);
      EpochStep(run, acts, j - 1);
      InputStays(run, acts, i, j - 1, id);
      InputStep(run, acts, j - 1, id);
    }
  }

  /** Between two accepted inputs of one session there is a state update, or TDLib's error reply to
      the first of them. No other error, and no late reply to a read, opens the gate. */
  lemma InputsExclusive(run: seq<Account>, acts: seq<Action>, i: nat, j: nat)
    requires IsRun(run, acts) && i < j && Accepted(run, acts, i) && Accepted(run, acts, j)
    requires run[i].sys.epoch == run[j].sys.epoch
    ensures exists k :: i < k < j && Releases(run, acts, k, run[i].core.nextId)
  {
    var id := run[i].core.nextId;
    RunInv(run, acts, i);
    SysStep(run[i], acts[i], run[i + 1]);
    assert run[i + 1].core.input == id;
    EpochGrows(run, acts, i, i + 1);
    if forall k :: i < k < j ==> !Releases(run, acts, k, id) {
      InputStays(run, acts, i + 1, j, id);
    }
  }

  /** Submission `i` of this session got the id `id`, and nothing has released it since. */
  ghost predicate InFlightSince(run: seq<Account>, acts: seq<Action>, i: nat, j: nat, id: nat) {
    && i < j < |run| && Accepted(run, acts, i) && run[i].core.nextId == id && run[i].sys.epoch == run[j].sys.epoch
    && forall k :: i < k < j ==> !Releases(run, acts, k, id)
  }

  /** Where an input in flight after a step comes from: it was accepted by this step, or it was in
      flight before and the step does not answer it. */
  lemma InputFromSubmit(a: Account, act: Action, a': Account)
    requires CanDo(a, act) && SysMoves(a, act, a') && a'.core == CoreAfter(a, act) && GateOk(a) && a'.core.input != 0
    ensures a'.sys.epoch == a.sys.epoch
    ensures if act.SubmitInput? && AcceptsInput(a.core, act.kind) then a'.core.input == a.core.nextId
            else a'.core.input == a.core.input
                 && !(act.RxHandle? && a.rx.Dispatching? && a.rx.obj.AuthUpdate?)
                 && !(act.RxHandle? && a.rx == Dispatching(a.core.input, ErrorObj))
  {
    if RouterStep(a, act).Some? {
      AcceptingStep(a.sys, RouterStep(a, act).value);
    }
  }

  /** Where the input in flight after step `h` comes from. */
  ghost predicate InputOrigin(run: seq<Account>, acts: seq<Action>, h: nat) {
    && h + 1 < |run| && run[h].sys.epoch == run[h + 1].sys.epoch
    && if Accepted(run, acts, h) then run[h + 1].core.input == run[h].core.nextId
       else run[h].core.input == run[h + 1].core.input && !Releases(run, acts, h, run[h].core.input)
  }

  lemma InputBefore(run: seq<Account>, acts: seq<Action>, h: nat)
    requires IsRun(run, acts) && h < |acts| && run[h + 1].core.input != 0
    ensures InputOrigin(run, acts, h)
  {
    RunInv(run, acts, h);
    SysMoveOf(run, acts, h);
    InputFromSubmit(run[h], acts[h], run[h + 1]);
  }

  lemma SinceStep(run: seq<Account>, acts: seq<Action>, i: nat, h: nat, id: nat)
    requires InFlightSince(run, acts, i, h, id) && h + 1 < |run| && run[h].sys.epoch == run[h + 1].sys.epoch
    requires !Releases(run, acts, h, id)
    ensures InFlightSince(run, acts, i, h + 1, id)
  {
  }

  lemma {:induction false} InputSince(run: seq<Account>, acts: seq<Action>, j: nat) returns (i: nat)
    requires j < |run| && run[0].core.input == 0 && run[j].core.input != 0
    requires forall h: nat :: h < j && run[h + 1].core.input != 0 ==> InputOrigin(run, acts, h)
    ensures InFlightSince(run, acts, i, j, run[j].core.input)
    decreases j
  {
    assert InputOrigin(run, acts, j - 1);
    if Accepted(run, acts, j - 1) {
      i := j - 1;
    } else {
      i := InputSince(run, acts, j - 1);
      SinceStep(run, acts, i, j - 1, run[j].core.input);
    }
  }

  /** What authorization_input_request_id_ means while a session is live: the id of an input accepted
      in this session that neither a state update nor its own error reply has answered yet. */
  lemma InputIff(run: seq<Account>, acts: seq<Action>, j: nat, id: nat)
    requires IsRun(run, acts) && j < |run| && run[j].core.manager && id != 0
    ensures run[j].core.input == id <==> exists i: nat :: InFlightSince(run, acts, i, j, id)
  {
    if run[j].core.input == id {
      forall h: nat | h < j && run[h + 1].core.input != 0 ensures InputOrigin(run, acts, h) {
        InputBefore(run, acts, h);
      }
      var i := InputSince(run, acts, j);
    }
    forall i: nat | InFlightSince(run, acts, i, j, id) ensures run[j].core.input == id {
      EpochGrows(run, acts, i, i + 1);
      EpochGrows(run, acts, i + 1, j);
      SysMoveOf(run, acts, i);
      InputStays(run, acts, i + 1, j, id);
    }
  }

  // ---- The authorization status -----------------------------------------------------------------

  predicate TakesUpdate(a: Account, act: Action) {
    act.RxHandle? && a.rx.Dispatching? && a.rx.obj.AuthUpdate?
  }

  /** The steps that assign the authorization status. */
  predicate SetsStatus(a: Account, act: Action) {
    TakesUpdate(a, act) || (act.StopMark? && SendsClose(a.core)) || act.ResetFields? || act.BeginFields?
  }

  /** What such a step assigns; every other step leaves the status alone. */
  function StatusAfter(a: Account, act: Action): Status {
    if TakesUpdate(a, act) then a.rx.obj.st
    else if act.StopMark? && SendsClose(a.core) then Closing
    else if act.ResetFields? then Stopped
    else if act.BeginFields? then Starting
    else a.core.status
  }

  /** Step `i` took TDLib's update to `st`, and nothing has assigned the status since. */
  ghost predicate StatusSince(run: seq<Account>, acts: seq<Action>, i: nat, j: nat, st: Status) {
    && i < j < |run| && j <= |acts|
    && TakesUpdate(run[i], acts[i]) && run[i].rx.obj.st == st
    && forall k :: i < k < j ==> !SetsStatus(run[k], acts[k])
  }

  lemma StatusOf(a: Account, act: Action)
    requires CanDo(a, act)
    ensures CoreAfter(a, act).status == StatusAfter(a, act)
  {
  }

  lemma StatusStep(run: seq<Account>, acts: seq<Action>, h: nat)
    requires IsRun(run, acts) && h < |acts|
    ensures run[h + 1].core.status == StatusAfter(run[h], acts[h])
  {
    StatusOf(run[h], acts[h]);
  }

  lemma {:induction false} StatusFrom(run: seq<Account>, acts: seq<Action>, j: nat, st: Status) returns (i: nat)
    requires j < |run| <= |acts| + 1 && run[0].core.status.Stopped? && run[j].core.status == st
    requires !st.Stopped? && !st.Starting? && !st.Closing?
    requires forall h: nat :: h < j ==> run[h + 1].core.status == StatusAfter(run[h], acts[h])
    ensures StatusSince(run, acts, i, j, st)
    decreases j
  {
    var h := j - 1;
    assert run[h + 1].core.status == StatusAfter(run[h], acts[h]);
    if SetsStatus(run[h], acts[h]) {
      i := h;
    } else {
      i := StatusFrom(run, acts, h, st);
    }
  }

  lemma {:induction false} StatusKept(run: seq<Account>, acts: seq<Action>, i: nat, j: nat)
    requires i <= j < |run| <= |acts| + 1
    requires forall h: nat :: h < j ==> run[h + 1].core.status == StatusAfter(run[h], acts[h])
    requires forall k :: i <= k < j ==> !SetsStatus(run[k], acts[k])
    ensures run[j].core.status == run[i].core.status
    decreases j
  {
    if i < j {
      StatusKept(run, acts, i, j - 1);
      assert run[j - 1 + 1].core.status == StatusAfter(run[j - 1], acts[j - 1]);
    }
  }

  /** A status TDLib alone reports is current exactly when its update was the last thing to assign one. */
  lemma StatusIff(run: seq<Account>, acts: seq<Action>, j: nat, st: Status)
    requires IsRun(run, acts) && j < |run| && !st.Stopped? && !st.Starting? && !st.Closing?
    ensures run[j].core.status == st <==> exists i: nat :: StatusSince(run, acts, i, j, st)
  {
    forall h: nat | h < j ensures run[h + 1].core.status == StatusAfter(run[h], acts[h]) {
      StatusStep(run, acts, h);
    }
    if run[j].core.status == st {
      var i := StatusFrom(run, acts, j, st);
    }
    forall i: nat | StatusSince(run, acts, i, j, st) ensures run[j].core.status == st {
      StatusStep(run, acts, i);
      StatusKept(run, acts, i + 1, j);
    }
  }

  /** A read is sent to TDLib exactly when one is asked for while the session runs, is not stopping, and
      TDLib's last word on the status is that the client is authorized. */
  lemma ReadsNeedAuthorization(run: seq<Account>, acts: seq<Action>, i: nat)
    requires IsRun(run, acts) && i < |acts|
    ensures Sends(run[i], acts[i]) == Some(Read) <==>
              && acts[i].ReadOpen? && run[i].core.running && !run[i].core.stopping && run[i].core.manager
              && exists k: nat :: StatusSince(run, acts, k, i, Authorized)
  {
    StatusIff(run, acts, i, Authorized);
    if ReadGate(run[i].core) {
      GateImpliesTicket(run, acts, i);
    }
    ReadSent(run[i], acts[i]);
  }

  /** What else is sent, and when: an input when one is accepted; a request of the account's own when a
      live session is told to stop, when one has just begun, and when TDLib asks for parameters or for the
      phone number. While the receive loop runs there is always a manager to send through. */
  lemma WhatIsSent(run: seq<Account>, acts: seq<Action>, i: nat)
    requires IsRun(run, acts) && i < |acts|
    ensures Sends(run[i], acts[i]) == Some(InputSubmit) <==> Accepted(run, acts, i)
    ensures Sends(run[i], acts[i]) == Some(Control) <==>
              || (acts[i].StopMark? && run[i].core.manager && !run[i].core.stopping)
              || acts[i].Hello?
              || (acts[i].RxAct? && (run[i].rx == Acting(Preparing) || run[i].rx == Acting(WaitingPhone)))
  {
    RunInv(run, acts, i);
    assert Next(run[i], acts[i], run[i + 1]);
  }

  lemma ReadSent(a: Account, act: Action)
    requires ReadGate(a.core) ==> RS.CanOpen(a.sys.router, a.core.nextId)
    ensures Sends(a, act) == Some(Read) <==>
              act.ReadOpen? && a.core.running && !a.core.stopping && a.core.manager && a.core.status == Authorized
  {
  }

  ghost predicate Unanswered(run: seq<Account>, acts: seq<Action>, j: nat) {
    exists i: nat, id: nat :: InFlightSince(run, acts, i, j, id)
  }

  /** When a live session accepts an input: exactly if TDLib's last word on the status asks for this input
      and every input accepted since the session began has been answered. */
  lemma AcceptsIff(run: seq<Account>, acts: seq<Action>, j: nat, kind: Input)
    requires IsRun(run, acts) && j < |run| && run[j].core.manager
    ensures var wanted := match kind case Code => WaitingCode case Password => WaitingPassword;
            AcceptsInput(run[j].core, kind) <==>
              (exists i: nat :: StatusSince(run, acts, i, j, wanted)) && !Unanswered(run, acts, j)
  {
    StatusIff(run, acts, j, WantedBy(kind));
    if run[j].core.input != 0 {
      InputIff(run, acts, j, run[j].core.input);
    }
    forall i: nat, id: nat | InFlightSince(run, acts, i, j, id) ensures run[j].core.input != 0 {
      RunInv(run, acts, i);
      InputIff(run, acts, j, id);
    }
  }

  // ---- The end of a session ---------------------------------------------------------------------

  /** When TDLib has closed the session and the receive thread has dealt with it, no reader is left pending
      and none can come. */
  lemma ClosedLeavesNoReader(run: seq<Account>, acts: seq<Action>, i: nat)
    requires IsRun(run, acts) && i < |acts| && acts[i].RxMarkClosed?
    ensures run[i].sys.router.requests == map[] && !run[i].sys.router.accepting
    ensures !ReadGate(run[i + 1].core)
    ensures forall n :: 0 <= n < |run[i].sys.tickets| ==> !run[i].sys.tickets[n].owner.Pending?
  {
    RunInv(run, acts, i);
    forall n | 0 <= n < |run[i].sys.tickets| ensures !run[i].sys.tickets[n].owner.Pending? {
      assert RP.TicketOk(run[i].sys, n);
    }
  }

  /** And the receive thread takes nothing more from TDLib in this session, so that stop can join it. */
  lemma {:induction false} ClosedStopsReceiving(run: seq<Account>, acts: seq<Action>, i: nat, j: nat)
    requires IsRun(run, acts) && i < j < |run| && acts[i].RxMarkClosed? && run[j].sys.epoch == run[i].sys.epoch
    ensures !run[j].core.running
    ensures j < |acts| ==> !acts[j].RxReceive?
    ensures CanDo(run[i + 1], RxExit)
    decreases j
  {
    if i + 1 < j {
      EpochGrows(run, acts, i, j - 1);
      EpochGrows(run, acts, j - 1, j);
      ClosedStopsReceiving(run, acts, i, j - 1);
      StaysStopped(run, acts, j - 1);
    }
  }

  lemma StaysStopped(run: seq<Account>, acts: seq<Action>, h: nat)
    requires IsRun(run, acts) && h < |acts| && !run[h].core.running && run[h + 1].sys.epoch == run[h].sys.epoch
    ensures !run[h + 1].core.running
  {
    SysMoveOf(run, acts, h);
  }

  /** The receive loop ends at its head and nowhere else, and only for a session that is over. */
  lemma LoopEndsAtItsHead(run: seq<Account>, acts: seq<Action>, i: nat)
    requires IsRun(run, acts) && i < |acts| && !run[i].rx.Exited? && run[i + 1].rx.Exited?
    ensures acts[i].RxExit? && run[i].rx.LoopHead? && (!run[i].core.running || !run[i].core.manager)
  {
    assert Next(run[i], acts[i], run[i + 1]);
  }

  predicate Stopping(ctl: Controller) {
    ctl.Marked? || ctl.StopFailing? || ctl.Joined? || ctl.Cleared?
  }

  /** Step `i` began the stop the controller is in; `again` says that it belongs to a begin_authorization. */
  ghost predicate StopSince(run: seq<Account>, acts: seq<Action>, i: nat, j: nat, again: bool) {
    i < j && i < |acts| && j <= |acts| && acts[i] == StopMark(again) && forall k :: i < k < j ==> !acts[k].StopMark?
  }

  lemma StopStep(a: Account, act: Action)
    requires CanDo(a, act) && Stopping(CtlAfter(a, act))
    ensures if act.StopMark? then CtlAfter(a, act).again == act.again
            else Stopping(a.ctl) && CtlAfter(a, act).again == a.ctl.again
  {
  }

  lemma {:induction false} StopBegan(run: seq<Account>, acts: seq<Action>, j: nat) returns (i: nat)
    requires IsRun(run, acts) && j < |run| && Stopping(run[j].ctl)
    ensures StopSince(run, acts, i, j, run[j].ctl.again)
    decreases j
  {
    assert j > 0;
    assert Next(run[j - 1], acts[j - 1], run[j]);
    StopStep(run[j - 1], acts[j - 1]);
    if acts[j - 1].StopMark? {
      i := j - 1;
    } else {
      i := StopBegan(run, acts, j - 1);
    }
  }

  /** A stop that begin_authorization asked for goes on to a new session, and any other stop ends there. */
  lemma StopThenBegin(run: seq<Account>, acts: seq<Action>, j: nat)
    requires IsRun(run, acts) && j < |acts| && (acts[j].BeginFields? || acts[j].FinishStop?)
    ensures exists i: nat :: StopSince(run, acts, i, j, acts[j].BeginFields?)
    ensures run[j + 1].core.manager <==> acts[j].BeginFields?
  {
    RunInv(run, acts, j);
    assert Next(run[j], acts[j], run[j + 1]);
    var i := StopBegan(run, acts, j);
    assert run[j].ctl == Cleared(acts[j].BeginFields?);
    assert StopSince(run, acts, i, j, acts[j].BeginFields?);
  }

  // ---- What readers are told --------------------------------------------------------------------

  ghost predicate ClosedBy(t: RP.Ticket<Obj>) {
    t.owner.Closed? ==>
      t.owner.err == "TDLib account stopped" || t.owner.err == "TDLib authorization was closed"
  }

  lemma ClosedByStep(sys: RP.System<Obj>, step: RP.Step<Obj>, n: nat)
    requires RP.Enabled(sys, step) && n < |RP.Apply(sys, step).tickets|
    requires n < |sys.tickets| ==> ClosedBy(sys.tickets[n])
    requires step.CloseClaim? ==> step.err == "TDLib account stopped" || step.err == "TDLib authorization was closed"
    ensures ClosedBy(RP.Apply(sys, step).tickets[n])
  {
  }

  lemma {:induction false} ClosersName(run: seq<Account>, acts: seq<Action>, i: nat, n: nat)
    requires IsRun(run, acts) && i < |run| && n < |run[i].sys.tickets|
    ensures ClosedBy(run[i].sys.tickets[n])
    decreases i
  {
    if i > 0 {
      SysMoveOf(run, acts, i - 1);
      if n < |run[i - 1].sys.tickets| {
        ClosersName(run, acts, i - 1, n);
      }
      match RouterStep(run[i - 1], acts[i - 1])
      case None =>
      case Some(step) => ClosedByStep(run[i - 1].sys, step, n);
    }
  }

  /** Everything wait can tell a reader: TDLib's reply and no error, or no reply and one of three errors. */
  lemma ReaderOutcome(run: seq<Account>, acts: seq<Action>, i: nat, n: nat)
    requires IsRun(run, acts) && i < |run| && n < |run[i].sys.tickets| && run[i].sys.tickets[n].waiter.Returned?
    ensures var r := run[i].sys.tickets[n].waiter.result;
            if r.response.Some? then r.error == ""
            else r.error in {
              "TDLib read request timed out", "TDLib account stopped", "TDLib authorization was closed"}
  {
    RunInv(run, acts, i);
    assert RP.TicketOk(run[i].sys, n);
    ClosersName(run, acts, i, n);
  }
}
