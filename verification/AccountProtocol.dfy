/** TdAccount as a transition system: the controller thread that begins and stops sessions, the
    receive thread, any number of readers, the caller that submits authorization inputs, and TDLib,
    which answers every request at most once and may send updates under id zero at any time. */
module AccountProtocol {
  import opened Common
  import RS = RouterState
  import RP = RouterProtocol
  import opened AccountCore

  datatype Obj = ErrorObj | AuthUpdate(st: Status) | Plain(payload: nat)

  /** Where the receive thread is, between two lock regions. */
  datatype Receiver =
    | NoThread
    | LoopHead
    | Got(id: nat, obj: Obj)
    | Hit(id: nat, obj: Obj)
    | Miss(id: nat, obj: Obj)
    | Delivering(n: nat)
    | Dispatching(id: nat, obj: Obj)
    | Acting(st: Status)
    | FailingReads(pending: seq<nat>)
    | Exited

  /** Where the controller thread is; `again` says that the stop belongs to a begin_authorization. */
  datatype Controller =
    | Quiet
    | Marked(again: bool)
    | StopFailing(pending: seq<nat>, again: bool)
    | Joined(again: bool)
    | Cleared(again: bool)
    | Begun
    | Spawned

  /** A request is named by the epoch of its session and its id. */
  type Key = (nat, nat)

  datatype Account = Account(
    core: Core, sys: RP.System<Obj>, sent: map<Key, Kind>, replies: map<Key, Obj>,
    rx: Receiver, ctl: Controller)

  datatype Action =
    | StopMark(again: bool) | StopClose(order: seq<nat>) | StopPublish | Join | ResetFields | FinishStop
    | BeginFields | Spawn | Hello
    | RxExit | RxReceive(id: nat, obj: Obj) | RxContains | RxClaim | RxDeliver | RxDiscard | RxHandle
    | RxAct(order: seq<nat>) | RxFailPublish | RxMarkClosed
    | ReadOpen | ReaderObserve(n: nat) | ReaderTimeout(n: nat)
    | SubmitInput(kind: Input)

  function Init(): Account {
    Account(INITIAL, RP.Init(), map[], map[], NoThread, Quiet)
  }

  ghost predicate CanDo(a: Account, act: Action) {
    match act
    case StopMark(_) => a.ctl.Quiet?
    case StopClose(order) => a.ctl.Marked? && Enumerates(order, a.sys.router.requests.Keys)
    case StopPublish => a.ctl.StopFailing? && a.ctl.pending != []
    case Join => a.ctl.StopFailing? && a.ctl.pending == [] && (a.rx.NoThread? || a.rx.Exited?)
    case ResetFields => a.ctl.Joined?
    case FinishStop => a.ctl.Cleared? && !a.ctl.again
    case BeginFields => a.ctl.Cleared? && a.ctl.again
    case Spawn => a.ctl.Begun?
    case Hello => a.ctl.Spawned?
    case RxExit => a.rx.LoopHead? && (!a.core.running || !a.core.manager)
    case RxReceive(id, _) =>
      && a.rx.LoopHead? && a.core.running && a.core.manager
      && (id == 0 || ((a.sys.epoch, id) in a.sent && (a.sys.epoch, id) !in a.replies))
    case RxContains => a.rx.Got?
    case RxClaim => a.rx.Hit?
    case RxDeliver => a.rx.Delivering?
    case RxDiscard => a.rx.Miss?
    case RxHandle => a.rx.Dispatching?
    case RxAct(order) => a.rx.Acting? && (a.rx.st.Closed? ==> Enumerates(order, a.sys.router.requests.Keys))
    case RxFailPublish => a.rx.FailingReads? && a.rx.pending != []
    case RxMarkClosed => a.rx.FailingReads? && a.rx.pending == []
    case ReadOpen => true
    case ReaderObserve(n) => n < |a.sys.tickets| && a.sys.tickets[n].waiter.Blocked?
    case ReaderTimeout(n) => n < |a.sys.tickets| && a.sys.tickets[n].waiter.SawNotReady?
    case SubmitInput(_) => true
  }

  /** The router region an action runs, if any. */
  function RouterStep(a: Account, act: Action): Option<RP.Step<Obj>> {
    match act
    case StopClose(order) => Some(RP.CloseClaim(order, "TDLib account stopped"))
    case StopPublish => if a.ctl.StopFailing? && a.ctl.pending != [] then Some(RP.Publish(a.ctl.pending[0])) else None
    case BeginFields => Some(RP.Reopen)
    case RxClaim => if a.rx.Hit? then Some(RP.FulfillClaim(a.rx.id, a.rx.obj)) else None
    case RxDeliver => if a.rx.Delivering? then Some(RP.Publish(a.rx.n)) else None
    case RxDiscard => if a.rx.Miss? then Some(RP.DiscardLate(a.rx.id)) else None
    case RxAct(order) =>
      if a.rx.Acting? && a.rx.st.Closed? then Some(RP.CloseClaim(order, "TDLib authorization was closed")) else None
    case RxFailPublish => if a.rx.FailingReads? && a.rx.pending != [] then Some(RP.Publish(a.rx.pending[0])) else None
    case ReadOpen => if ReadGate(a.core) then Some(RP.Open(a.core.nextId)) else None
    case ReaderObserve(n) => Some(RP.Observe(n))
    case ReaderTimeout(n) => Some(RP.TimeoutRemove(n))
    case _ => None
  }

  /** The tickets a close took out of the map, in its iteration order. */
  function NamesOf(requests: map<nat, nat>, order: seq<nat>): seq<nat> {
    seq(|order|, i requires 0 <= i < |order| => if order[i] in requests then requests[order[i]] else 0)
  }

  // What an action does to each field outside the router. Every action not listed leaves it alone.

  /** The kind of request an action hands to TDLib under the next id, if any. */
  function Sends(a: Account, act: Action): Option<Kind> {
    match act
    case StopMark(_) => if SendsClose(a.core) then Some(Control) else None
    case Hello => if a.core.manager then Some(Control) else None
    case RxAct(_) =>
      if a.core.manager && (a.rx == Acting(Preparing) || a.rx == Acting(WaitingPhone)) then Some(Control) else None
    case ReadOpen =>
      if ReadGate(a.core) && RS.CanOpen(a.sys.router, a.core.nextId) then Some(Read) else None
    case SubmitInput(kind) => if AcceptsInput(a.core, kind) then Some(InputSubmit) else None
    case _ => None
  }

  function SentAfter(a: Account, act: Action): map<Key, Kind> {
    match Sends(a, act)
    case Some(kind) => a.sent[(a.sys.epoch, a.core.nextId) := kind]
    case None => a.sent
  }

  function RepliesAfter(a: Account, act: Action): map<Key, Obj> {
    match act
    case RxReceive(id, obj) => if id == 0 then a.replies else a.replies[(a.sys.epoch, id) := obj]
    case _ => a.replies
  }

  function CoreAfter(a: Account, act: Action): Core {
    match act
    case StopMark(_) => MarkStopping(a.core)
    case ResetFields => Reset(a.core)
    case BeginFields => Begin(a.core)
    case Hello => if a.core.manager then Allocate(a.core) else a.core
    case RxHandle =>
      if a.rx.Dispatching? && a.rx.obj.ErrorObj? then ClearInput(a.core, a.rx.id)
      else if a.rx.Dispatching? && a.rx.obj.AuthUpdate? then SetStatus(a.core, a.rx.obj.st)
      else a.core
    case RxAct(_) => if Sends(a, act).Some? then Allocate(a.core) else a.core
    case RxMarkClosed => MarkClosed(a.core)
    case ReadOpen => if ReadGate(a.core) then Allocate(a.core) else a.core
    case SubmitInput(kind) => Submit(a.core, kind)
    case _ => a.core
  }

  function RxAfter(a: Account, act: Action): Receiver {
    match act
    case Join => NoThread
    case Spawn => LoopHead
    case RxExit => Exited
    case RxReceive(id, obj) => Got(id, obj)
    case RxContains =>
      if !a.rx.Got? then a.rx
      else if a.rx.id in a.sys.router.requests then Hit(a.rx.id, a.rx.obj)
      else Miss(a.rx.id, a.rx.obj)
    case RxClaim =>
      if a.rx.Hit? && a.rx.id in a.sys.router.requests then Delivering(a.sys.router.requests[a.rx.id]) else LoopHead
    case RxDeliver => LoopHead
    case RxDiscard =>
      if a.rx.Miss? && a.rx.id !in a.sys.router.retired then Dispatching(a.rx.id, a.rx.obj) else LoopHead
    case RxHandle =>
      if a.rx.Dispatching? && a.rx.obj.AuthUpdate? then Acting(a.rx.obj.st) else LoopHead
    case RxAct(order) =>
      if a.rx == Acting(Closed) then FailingReads(NamesOf(a.sys.router.requests, order)) else LoopHead
    case RxFailPublish =>
      if a.rx.FailingReads? && a.rx.pending != [] then FailingReads(a.rx.pending[1..]) else a.rx
    case RxMarkClosed => LoopHead
    case _ => a.rx
  }

  function CtlAfter(a: Account, act: Action): Controller {
    match act
    case StopMark(again) => Marked(again)
    case StopClose(order) =>
      if a.ctl.Marked? then StopFailing(NamesOf(a.sys.router.requests, order), a.ctl.again) else a.ctl
    case StopPublish =>
      if a.ctl.StopFailing? && a.ctl.pending != [] then StopFailing(a.ctl.pending[1..], a.ctl.again) else a.ctl
    case Join => if a.ctl.StopFailing? then Joined(a.ctl.again) else a.ctl
    case ResetFields => if a.ctl.Joined? then Cleared(a.ctl.again) else a.ctl
    case FinishStop => Quiet
    case BeginFields => Begun
    case Spawn => Spawned
    case Hello => Quiet
    case _ => a.ctl
  }

  ghost predicate LocalMoves(a: Account, act: Action, a': Account) {
    && a'.sent == SentAfter(a, act)
    && a'.replies == RepliesAfter(a, act)
    && a'.core == CoreAfter(a, act)
    && a'.rx == RxAfter(a, act)
    && a'.ctl == CtlAfter(a, act)
  }

  /** Outside its contract the router may do anything; the invariant shows it is always within. */
  ghost predicate RouterMoves(sys: RP.System<Obj>, step: Option<RP.Step<Obj>>, sys': RP.System<Obj>) {
    match step
    case None => sys' == sys
    case Some(st) => RP.Enabled(sys, st) ==> sys' == RP.Apply(sys, st)
  }

  ghost predicate Next(a: Account, act: Action, a': Account) {
    && CanDo(a, act)
    && RouterMoves(a.sys, RouterStep(a, act), a'.sys)
    && LocalMoves(a, act, a')
  }

  // ---- Invariant --------------------------------------------------------------------------------

  predicate Alive(rx: Receiver) {
    !rx.NoThread? && !rx.Exited?
  }

  /** The receive thread holds a message it has not yet classified. */
  predicate Unclassified(rx: Receiver) {
    rx.Got? || rx.Hit? || rx.Miss?
  }

  predicate SentAs(a: Account, key: Key, kind: Kind) {
    key in a.sent && a.sent[key] == kind
  }

  /** At least 256 retirements followed that of `id`. */
  ghost predicate Overrun(history: seq<nat>, id: nat) {
    exists p: nat :: RS.RetiredAt(history, id, p) && |history| - 1 - p >= 256
  }

  ghost predicate IdsOk(a: Account) {
    && a.core.nextId >= 1
    && (forall key :: key in a.sent ==> key.0 <= a.sys.epoch && key.1 >= 1)
    && (forall id :: (a.sys.epoch, id) in a.sent ==> id < a.core.nextId)
    && (forall id :: id in a.sys.issued ==> 1 <= id < a.core.nextId)
    && (forall key :: key in a.replies ==> key in a.sent)
  }

  /** Only reads of this session are ever in the router or in its retirement history. */
  ghost predicate MappedOk(a: Account) {
    forall id :: id in a.sys.router.requests || id in a.sys.history ==> SentAs(a, (a.sys.epoch, id), Read)
  }

  /** The reply to `id` has arrived and the receive thread is done classifying it. */
  predicate Classified(a: Account, id: nat) {
    (a.sys.epoch, id) in a.replies && (Unclassified(a.rx) ==> a.rx.id != id)
  }

  /** A read of this session is pending, retired, or settled. */
  ghost predicate ReadsOk(a: Account) {
    forall id :: SentAs(a, (a.sys.epoch, id), Read) && id !in a.sys.router.requests && id !in a.sys.history ==>
                   Classified(a, id)
  }

  ghost predicate DiscardedOk(a: Account) {
    forall id :: id in a.sys.discarded ==> Classified(a, id)
  }

  ghost predicate MessageOk(a: Account) {
    && (Unclassified(a.rx) || a.rx.Dispatching? ==>
          a.rx.id != 0 ==> (a.sys.epoch, a.rx.id) in a.replies && a.replies[(a.sys.epoch, a.rx.id)] == a.rx.obj)
    && (a.rx.Miss? ==> a.rx.id !in a.sys.router.requests)
  }

  ghost predicate DispatchOk(a: Account) {
    a.rx.Dispatching? && SentAs(a, (a.sys.epoch, a.rx.id), Read) ==> Overrun(a.sys.history, a.rx.id)
  }

  ghost predicate PendingOk(sys: RP.System<Obj>, pending: seq<nat>) {
    && NoDup(pending)
    && forall i :: 0 <= i < |pending| ==>
         pending[i] < |sys.tickets| && sys.tickets[pending[i]].owner.Closed? && !sys.tickets[pending[i]].ready
  }

  /** The lists of tickets each closer still has to fail: in order, unready, and not shared. */
  ghost predicate ListsOk(sys: RP.System<Obj>, rp: seq<nat>, cp: seq<nat>) {
    && PendingOk(sys, cp) && PendingOk(sys, rp)
    && forall i, j :: 0 <= i < |rp| && 0 <= j < |cp| ==> rp[i] != cp[j]
  }

  function CtlPending(ctl: Controller): seq<nat> {
    if ctl.StopFailing? then ctl.pending else []
  }

  function RxPending(rx: Receiver): seq<nat> {
    if rx.FailingReads? then rx.pending else []
  }

  /** Completions that are under way: one fulfilled ticket, and what each closer still has to fail. */
  ghost predicate CompletionsOk(a: Account) {
    && (a.rx.Delivering? ==>
          a.rx.n < |a.sys.tickets| && a.sys.tickets[a.rx.n].owner.Fulfilled? && !a.sys.tickets[a.rx.n].ready)
    && ListsOk(a.sys, RxPending(a.rx), CtlPending(a.ctl))
  }

  /** Every ticket is a read, and a fulfilled one carries TDLib's answer to that read. */
  ghost predicate TicketsOk(a: Account) {
    forall n :: 0 <= n < |a.sys.tickets| ==> AnswerOk(a, n)
  }

  ghost predicate AnswerOk(a: Account, n: nat)
    requires n < |a.sys.tickets|
  {
    var t := a.sys.tickets[n];
    && SentAs(a, (t.epoch, t.id), Read)
    && (t.owner.Fulfilled? ==> (t.epoch, t.id) in a.replies && a.replies[(t.epoch, t.id)] == t.owner.resp)
  }

  /** Why a session whose router is closed never passes the gate of request_read. */
  ghost predicate GateOk(a: Account) {
    && (a.ctl.Marked? || a.ctl.StopFailing? || a.ctl.Joined? ==> !a.core.manager || a.core.stopping)
    && (a.ctl.StopFailing? || a.ctl.Joined? || a.ctl.Cleared? ==> !a.sys.router.accepting)
    && (a.ctl.Cleared? ==> !a.core.manager && a.core.input == 0)
    && (a.ctl.Begun? || a.ctl.Spawned? ==> a.core.manager)
    && (Alive(a.rx) ==> a.core.manager && !a.ctl.Joined? && !a.ctl.Cleared? && !a.ctl.Begun?)
    && (a.ctl.Joined? || a.ctl.Cleared? || a.ctl.Begun? ==> a.rx.NoThread?)
    && (a.rx == Acting(Closed) || a.rx.FailingReads? ==> a.core.status.Closed? || a.core.stopping)
    && (a.rx.FailingReads? ==> !a.sys.router.accepting)
    && (!a.sys.router.accepting ==>
          || a.core.stopping || !a.core.manager
          || (a.rx.FailingReads? && a.core.status.Closed?))
  }

  ghost predicate InputOk(a: Account) {
    a.core.input != 0 ==> SentAs(a, (a.sys.epoch, a.core.input), InputSubmit)
  }

  ghost predicate Inv(a: Account) {
    && RP.Inv(a.sys)
    && IdsOk(a) && MappedOk(a) && ReadsOk(a) && DiscardedOk(a) && MessageOk(a) && DispatchOk(a)
    && CompletionsOk(a) && TicketsOk(a) && GateOk(a) && InputOk(a)
  }

  lemma InvInit()
    ensures Inv(Init())
  {
    RP.InvInit<Obj>();
  }

  // ---- Preservation -----------------------------------------------------------------------------

  /** The account always uses its router within the router's contract: fresh ids, reopen after close. */
  lemma RouterContractMet(a: Account, act: Action)
    requires Inv(a) && CanDo(a, act) && RouterStep(a, act).Some?
    ensures RP.Enabled(a.sys, RouterStep(a, act).value)
  {
  }

  ghost predicate SysMoves(a: Account, act: Action, a': Account) {
    match RouterStep(a, act)
    case None => a'.sys == a.sys
    case Some(st) => RP.Enabled(a.sys, st) && a'.sys == RP.Apply(a.sys, st)
  }

  /** What an account step does to the router, as a step of the router protocol or none. */
  lemma SysStep(a: Account, act: Action, a': Account)
    requires Inv(a) && Next(a, act, a')
    ensures RP.Inv(a'.sys) && SysMoves(a, act, a')
  {
    if RouterStep(a, act).Some? {
      RouterContractMet(a, act);
      RP.StepKeepsInv(a.sys, RouterStep(a, act).value);
    }
  }

  lemma KeepsIds(a: Account, act: Action, a': Account)
    requires CanDo(a, act) && SysMoves(a, act, a') && IdsOk(a)
    requires a'.sent == SentAfter(a, act) && a'.replies == RepliesAfter(a, act) && a'.core == CoreAfter(a, act)
    ensures IdsOk(a')
  {
  }

  lemma KeepsMapped(a: Account, act: Action, a': Account)
    requires CanDo(a, act) && SysMoves(a, act, a') && a'.sent == SentAfter(a, act)
    requires IdsOk(a) && MappedOk(a) && RP.MapOk(a.sys)
    ensures MappedOk(a')
  {
  }

  /** Only fulfill takes an id out of the map without recording its retirement. */
  lemma LeavesMap(sys: RP.System<Obj>, step: RP.Step<Obj>, id: nat)
    requires RP.Enabled(sys, step) && !step.Reopen?
    requires id !in RP.Apply(sys, step).router.requests && id !in RP.Apply(sys, step).history
    ensures id !in sys.history && (id in sys.router.requests ==> step.FulfillClaim? && step.id == id)
    ensures RP.Apply(sys, step).epoch == sys.epoch
    ensures step.Open? && RS.CanOpen(sys.router, step.id) ==> step.id != id
  {
  }

  lemma ReadStays(a: Account, act: Action, a': Account, id: nat)
    requires CanDo(a, act) && SysMoves(a, act, a')
    requires a'.sent == SentAfter(a, act) && a'.replies == RepliesAfter(a, act) && a'.rx == RxAfter(a, act)
    requires IdsOk(a) && MessageOk(a)
    requires SentAs(a', (a'.sys.epoch, id), Read) && id !in a'.sys.router.requests && id !in a'.sys.history
    requires SentAs(a, (a.sys.epoch, id), Read) && id !in a.sys.router.requests && id !in a.sys.history ==>
               Classified(a, id)
    ensures Classified(a', id)
  {
    if act.BeginFields? {
      assert false;
    } else if RouterStep(a, act).None? {
      assert a'.sys == a.sys;
    } else {
      LeavesMap(a.sys, RouterStep(a, act).value, id);
    }
  }

  lemma KeepsReads(a: Account, act: Action, a': Account)
    requires CanDo(a, act) && SysMoves(a, act, a')
    requires a'.sent == SentAfter(a, act) && a'.replies == RepliesAfter(a, act) && a'.rx == RxAfter(a, act)
    requires IdsOk(a) && ReadsOk(a) && MessageOk(a)
    ensures ReadsOk(a')
  {
    forall id | SentAs(a', (a'.sys.epoch, id), Read) && id !in a'.sys.router.requests && id !in a'.sys.history
      ensures Classified(a', id)
    {
      ReadStays(a, act, a', id);
    }
  }

  lemma KeepsDiscarded(a: Account, act: Action, a': Account)
    requires CanDo(a, act) && SysMoves(a, act, a')
    requires a'.replies == RepliesAfter(a, act) && a'.rx == RxAfter(a, act)
    requires RS.WindowOk(a.sys.router, a.sys.history, a.sys.discarded)
    requires IdsOk(a) && MappedOk(a) && DiscardedOk(a) && MessageOk(a)
    ensures DiscardedOk(a')
  {
    if act.RxDiscard? && a.rx.id in a.sys.router.retired {
      assert a.rx.id in a.sys.history;
      assert SentAs(a, (a.sys.epoch, a.rx.id), Read);
    }
  }

  lemma KeepsMessage(a: Account, act: Action, a': Account)
    requires CanDo(a, act) && SysMoves(a, act, a')
    requires a'.replies == RepliesAfter(a, act) && a'.rx == RxAfter(a, act)
    requires IdsOk(a) && MessageOk(a) && GateOk(a)
    ensures MessageOk(a')
  {
  }

  lemma OverrunStays(history: seq<nat>, more: seq<nat>, id: nat)
    requires Overrun(history, id)
    ensures Overrun(history + more, id)
  {
    var p: nat :| RS.RetiredAt(history, id, p) && |history| - 1 - p >= 256;
    assert RS.RetiredAt(history + more, id, p);
  }

  /** While the receive thread holds an unclassified reply to a read that is not in the map, the read
      is in the retirement history, undiscarded; so discard_late fails only if the id was overrun. */
  lemma MissedRead(a: Account)
    requires RP.Inv(a.sys) && ReadsOk(a) && DiscardedOk(a) && MessageOk(a) && a.rx.Miss?
    requires SentAs(a, (a.sys.epoch, a.rx.id), Read)
    ensures a.rx.id !in a.sys.router.retired <==> Overrun(a.sys.history, a.rx.id)
  {
    var history, id := a.sys.history, a.rx.id;
    assert id in history && id !in a.sys.discarded;
    var p: nat :| p < |history| && history[p] == id;
    RS.DiscardSucceedsIff(a.sys.router, history, a.sys.discarded, id, p);
    forall q: nat | RS.RetiredAt(history, id, q) ensures q == p {
    }
    assert RS.RetiredAt(history, id, p);
  }

  lemma KeepsDispatch(a: Account, act: Action, a': Account)
    requires CanDo(a, act) && SysMoves(a, act, a') && a'.sent == SentAfter(a, act) && a'.rx == RxAfter(a, act)
    requires RP.Inv(a.sys) && IdsOk(a) && ReadsOk(a) && DiscardedOk(a) && MessageOk(a) && DispatchOk(a) && GateOk(a)
    ensures DispatchOk(a')
  {
    if a'.rx.Dispatching? && SentAs(a', (a'.sys.epoch, a'.rx.id), Read) {
      if act.RxDiscard? {
        MissedRead(a);
      } else {
        assert a.rx == a'.rx && a.sys.epoch == a'.sys.epoch;
        assert a.rx.id != a.core.nextId;
        assert SentAs(a, (a.sys.epoch, a.rx.id), Read);
        assert exists more :: a'.sys.history == a.sys.history + more by {
          assert a.sys.history == a.sys.history + [];
        }
        var more :| a'.sys.history == a.sys.history + more;
        OverrunStays(a.sys.history, more, a.rx.id);
      }
    }
  }

  lemma PendingStays(sys: RP.System<Obj>, step: RP.Step<Obj>, pending: seq<nat>)
    requires RP.Inv(sys) && RP.Enabled(sys, step) && PendingOk(sys, pending)
    requires forall i :: 0 <= i < |pending| ==> step != RP.Publish(pending[i])
    ensures PendingOk(RP.Apply(sys, step), pending)
  {
    forall i | 0 <= i < |pending|
      ensures var s' := RP.Apply(sys, step);
              pending[i] < |s'.tickets| && s'.tickets[pending[i]].owner.Closed? && !s'.tickets[pending[i]].ready
    {
      assert RP.TicketOk(sys, pending[i]);
      RP.ClaimStays(sys, step, pending[i]);
    }
  }

  lemma CloseMakesPending(sys: RP.System<Obj>, order: seq<nat>, err: string)
    requires RP.Inv(sys) && RP.Enabled(sys, RP.CloseClaim(order, err))
    ensures PendingOk(RP.Apply(sys, RP.CloseClaim(order, err)), NamesOf(sys.router.requests, order))
    ensures forall i :: 0 <= i < |order| ==>
              var n := NamesOf(sys.router.requests, order)[i];
              n < |sys.tickets| && sys.tickets[n].owner.Pending?
  {
    var names := NamesOf(sys.router.requests, order);
    forall i | 0 <= i < |order|
      ensures names[i] < |sys.tickets| && sys.tickets[names[i]].id == order[i]
              && sys.tickets[names[i]].owner.Pending? && !sys.tickets[names[i]].ready
    {
      assert order[i] in Elems(order);
      assert RP.TicketOk(sys, names[i]);
    }
  }

  lemma KeepsDelivery(a: Account, act: Action, a': Account)
    requires CanDo(a, act) && SysMoves(a, act, a') && a'.rx == RxAfter(a, act)
    requires RP.Inv(a.sys) && CompletionsOk(a) && a'.rx.Delivering?
    ensures a'.rx.n < |a'.sys.tickets| && a'.sys.tickets[a'.rx.n].owner.Fulfilled? && !a'.sys.tickets[a'.rx.n].ready
  {
    if act.RxClaim? {
      assert RP.TicketOk(a.sys, a'.rx.n);
    } else {
      assert a'.rx == a.rx;
      assert RP.TicketOk(a.sys, a.rx.n);
      if RouterStep(a, act).Some? {
        RP.ClaimStays(a.sys, RouterStep(a, act).value, a.rx.n);
      }
    }
  }

  lemma ListsAfterClose(sys: RP.System<Obj>, order: seq<nat>, err: string, rp: seq<nat>, cp: seq<nat>)
    requires RP.Inv(sys) && RP.Enabled(sys, RP.CloseClaim(order, err)) && ListsOk(sys, rp, cp)
    ensures var sys', names := RP.Apply(sys, RP.CloseClaim(order, err)), NamesOf(sys.router.requests, order);
            && ListsOk(sys', rp, cp)
            && ListsOk(sys', names, cp)
            && ListsOk(sys', rp, names)
  {
    CloseMakesPending(sys, order, err);
    PendingStays(sys, RP.CloseClaim(order, err), cp);
    PendingStays(sys, RP.CloseClaim(order, err), rp);
  }

  lemma ListsAfterPublish(sys: RP.System<Obj>, n: nat, rp: seq<nat>, cp: seq<nat>)
    requires RP.Inv(sys) && RP.Enabled(sys, RP.Publish(n)) && ListsOk(sys, rp, cp)
    ensures var sys' := RP.Apply(sys, RP.Publish(n));
            && (sys.tickets[n].owner.Fulfilled? ==> ListsOk(sys', rp, cp))
            && (cp != [] && cp[0] == n ==> ListsOk(sys', rp, cp[1..]))
            && (rp != [] && rp[0] == n ==> ListsOk(sys', rp[1..], cp))
  {
    if sys.tickets[n].owner.Fulfilled? {
      PendingStays(sys, RP.Publish(n), cp);
      PendingStays(sys, RP.Publish(n), rp);
    } else if cp != [] && cp[0] == n {
      PendingStays(sys, RP.Publish(n), cp[1..]);
      PendingStays(sys, RP.Publish(n), rp);
    } else if rp != [] && rp[0] == n {
      PendingStays(sys, RP.Publish(n), cp);
      PendingStays(sys, RP.Publish(n), rp[1..]);
    }
  }

  lemma KeepsLists(a: Account, act: Action, a': Account)
    requires CanDo(a, act) && SysMoves(a, act, a') && a'.rx == RxAfter(a, act) && a'.ctl == CtlAfter(a, act)
    requires RP.Inv(a.sys) && CompletionsOk(a)
    ensures ListsOk(a'.sys, RxPending(a'.rx), CtlPending(a'.ctl))
  {
    var rp, cp := RxPending(a.rx), CtlPending(a.ctl);
    if RouterStep(a, act).Some? {
      var step := RouterStep(a, act).value;
      if step.CloseClaim? {
        ListsAfterClose(a.sys, step.order, step.err, rp, cp);
      } else if step.Publish? {
        ListsAfterPublish(a.sys, step.n, rp, cp);
      } else {
        PendingStays(a.sys, step, cp);
        PendingStays(a.sys, step, rp);
      }
    }
  }

  lemma KeepsCompletions(a: Account, act: Action, a': Account)
    requires CanDo(a, act) && SysMoves(a, act, a') && a'.rx == RxAfter(a, act) && a'.ctl == CtlAfter(a, act)
    requires RP.Inv(a.sys) && CompletionsOk(a)
    ensures CompletionsOk(a')
  {
    if a'.rx.Delivering? {
      KeepsDelivery(a, act, a');
    }
    KeepsLists(a, act, a');
  }

  lemma AnswerStays(a: Account, act: Action, a': Account, n: nat)
    requires CanDo(a, act) && a'.sent == SentAfter(a, act) && a'.replies == RepliesAfter(a, act)
    requires IdsOk(a) && MessageOk(a) && n < |a'.sys.tickets|
    requires if n < |a.sys.tickets| then
               var t, t' := a.sys.tickets[n], a'.sys.tickets[n];
               && AnswerOk(a, n) && t'.id == t.id && t'.epoch == t.epoch
               && (t'.owner.Fulfilled? ==>
                     || t'.owner == t.owner
                     || (t.epoch == a.sys.epoch && RouterStep(a, act) == Some(RP.FulfillClaim(t.id, t'.owner.resp))))
             else
               var t' := a'.sys.tickets[n];
               && RouterStep(a, act) == Some(RP.Open(t'.id)) && RS.CanOpen(a.sys.router, t'.id)
               && t'.epoch == a.sys.epoch && t'.owner.Pending?
    ensures AnswerOk(a', n)
  {
  }

  lemma KeepsTickets(a: Account, act: Action, a': Account)
    requires CanDo(a, act) && SysMoves(a, act, a') && a'.sent == SentAfter(a, act) && a'.replies == RepliesAfter(a, act)
    requires RP.Inv(a.sys) && IdsOk(a) && MappedOk(a) && MessageOk(a) && TicketsOk(a)
    ensures TicketsOk(a')
  {
    forall n | 0 <= n < |a'.sys.tickets| ensures AnswerOk(a', n) {
      if RouterStep(a, act).Some? {
        RP.OwnerStep(a.sys, RouterStep(a, act).value, n);
      }
      AnswerStays(a, act, a', n);
    }
  }

  /** Only a close and a reopen change whether the router accepts. */
  lemma AcceptingStep(sys: RP.System<Obj>, step: RP.Step<Obj>)
    requires RP.Enabled(sys, step)
    ensures RP.Apply(sys, step).router.accepting ==
            (step.Reopen? || (!step.CloseClaim? && sys.router.accepting))
    ensures RP.Apply(sys, step).epoch == sys.epoch + if step.Reopen? then 1 else 0
  {
  }

  lemma KeepsGate(a: Account, act: Action, a': Account)
    requires CanDo(a, act) && SysMoves(a, act, a')
    requires a'.core == CoreAfter(a, act) && a'.rx == RxAfter(a, act) && a'.ctl == CtlAfter(a, act)
    requires GateOk(a)
    ensures GateOk(a')
  {
    if RouterStep(a, act).None? {
      assert a'.sys == a.sys;
    } else {
      AcceptingStep(a.sys, RouterStep(a, act).value);
    }
  }

  lemma KeepsInput(a: Account, act: Action, a': Account)
    requires CanDo(a, act) && SysMoves(a, act, a') && a'.sent == SentAfter(a, act) && a'.core == CoreAfter(a, act)
    requires IdsOk(a) && GateOk(a) && InputOk(a)
    ensures InputOk(a')
  {
    if RouterStep(a, act).None? {
      assert a'.sys == a.sys;
    } else {
      AcceptingStep(a.sys, RouterStep(a, act).value);
    }
  }

  lemma NextKeepsInv(a: Account, act: Action, a': Account)
    requires Inv(a) && Next(a, act, a')
    ensures Inv(a')
  {
    SysStep(a, act, a');
    KeepsIds(a, act, a');
    KeepsMapped(a, act, a');
    KeepsReads(a, act, a');
    KeepsDiscarded(a, act, a');
    KeepsMessage(a, act, a');
    KeepsDispatch(a, act, a');
    KeepsCompletions(a, act, a');
    KeepsTickets(a, act, a');
    KeepsGate(a, act, a');
    KeepsInput(a, act, a');
  }
}
