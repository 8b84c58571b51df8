/** What becomes of every reply to a read that the receive thread takes from TDLib. */
module AccountFates {
  import opened Common
  import RS = RouterState
  import opened AccountCore
  import opened AccountProtocol
  import opened AccountRuns

  /** What can become of a reply to a read. `Lost` is the race of lines 233 to 235: the request was pending
      when the receive thread asked, and gone when it came to fulfill it. */
  datatype Fate = Delivered | Lost | Discarded | Overtaken

  /** Step `f` ends the classification of the message the receive thread holds, in this way. */
  ghost predicate HasFate(run: seq<Account>, acts: seq<Action>, f: nat, fate: Fate)
    requires f < |acts| && f + 1 < |run| && Unclassified(run[f].rx)
  {
    var a, a', id := run[f], run[f + 1], run[f].rx.id;
    match fate
    case Delivered =>
      && acts[f].RxClaim? && a'.rx.Delivering?
      && RS.StillOwns(a.sys.router, id, a'.rx.n) && id !in a'.sys.router.requests
    case Lost =>
      && acts[f].RxClaim? && a'.rx.LoopHead?
      && id !in a.sys.router.requests && a'.sys == a.sys && id in a.sys.history && id !in a.sys.discarded
    case Discarded =>
      && acts[f].RxDiscard? && a'.rx.LoopHead?
      && id !in a.sys.discarded && a'.sys.discarded == a.sys.discarded + {id}
    case Overtaken =>
      && acts[f].RxDiscard? && a'.rx == Dispatching(id, a.rx.obj) && a'.sys == a.sys && Overrun(a.sys.history, id)
  }

  lemma ClaimFate(run: seq<Account>, acts: seq<Action>, f: nat)
    requires IsRun(run, acts) && f < |acts| && acts[f].RxClaim? && run[f].rx.Hit?
    requires SentAs(run[f], (run[f].sys.epoch, run[f].rx.id), Read)
    ensures HasFate(run, acts, f, if run[f].rx.id in run[f].sys.router.requests then Delivered else Lost)
  {
    RunInv(run, acts, f);
    SysStep(run[f], acts[f], run[f + 1]);
  }

  lemma DiscardFate(run: seq<Account>, acts: seq<Action>, f: nat)
    requires IsRun(run, acts) && f < |acts| && acts[f].RxDiscard? && run[f].rx.Miss?
    requires SentAs(run[f], (run[f].sys.epoch, run[f].rx.id), Read)
    ensures HasFate(run, acts, f, if Overrun(run[f].sys.history, run[f].rx.id) then Overtaken else Discarded)
  {
    RunInv(run, acts, f);
    SysStep(run[f], acts[f], run[f + 1]);
    MissedRead(run[f]);
  }

  /** The receive thread still holds this message, in this session. */
  ghost predicate StillHeld(a: Account, epoch: nat, id: nat, obj: Obj) {
    a.sys.epoch == epoch && Unclassified(a.rx) && a.rx.id == id && a.rx.obj == obj && SentAs(a, (epoch, id), Read)
  }

  /** Step `f` ends the classification of the message received in step `r`, in this way and no other. */
  ghost predicate MeetsFate(run: seq<Account>, acts: seq<Action>, r: nat, f: nat, fate: Fate) {
    && r < |acts| && acts[r].RxReceive? && r < |run| && f < |acts| && f + 1 < |run|
    && StillHeld(run[f], run[r].sys.epoch, acts[r].id, acts[r].obj)
    && HasFate(run, acts, f, fate)
    && forall other :: other != fate ==> !HasFate(run, acts, f, other)
  }

  ghost predicate MetFate(run: seq<Account>, acts: seq<Action>, r: nat, f: nat) {
    exists fate :: MeetsFate(run, acts, r, f, fate)
  }

  lemma OnlyFate(run: seq<Account>, acts: seq<Action>, f: nat, fate: Fate, other: Fate)
    requires f < |acts| && f + 1 < |run| && Unclassified(run[f].rx)
    requires HasFate(run, acts, f, fate) && HasFate(run, acts, f, other)
    ensures fate == other
  {
  }

  lemma HeldOtherwise(a: Account, act: Action, a': Account, epoch: nat, id: nat, obj: Obj)
    requires CanDo(a, act) && SysMoves(a, act, a') && a'.rx == RxAfter(a, act) && a'.sent == SentAfter(a, act)
    requires GateOk(a) && IdsOk(a) && StillHeld(a, epoch, id, obj) && !act.RxClaim? && !act.RxDiscard?
    ensures StillHeld(a', epoch, id, obj)
  {
    if RouterStep(a, act).Some? {
      AcceptingStep(a.sys, RouterStep(a, act).value);
    }
  }

  /** Only the steps that claim or discard end the classification. */
  lemma HeldUntil(run: seq<Account>, acts: seq<Action>, f: nat, epoch: nat, id: nat, obj: Obj)
    requires IsRun(run, acts) && f < |acts| && StillHeld(run[f], epoch, id, obj)
    ensures StillHeld(run[f + 1], epoch, id, obj)
            || (acts[f].RxClaim? && run[f].rx.Hit?) || (acts[f].RxDiscard? && run[f].rx.Miss?)
  {
    RunInv(run, acts, f);
    SysMoveOf(run, acts, f);
    if !acts[f].RxClaim? && !acts[f].RxDiscard? {
      HeldOtherwise(run[f], acts[f], run[f + 1], epoch, id, obj);
    }
  }

  /** A held message is either still held after a step, or the step gives it one of the four fates. */
  lemma HeldStep(run: seq<Account>, acts: seq<Action>, r: nat, f: nat)
    requires IsRun(run, acts) && r < |acts| && acts[r].RxReceive? && f < |acts|
    requires StillHeld(run[f], run[r].sys.epoch, acts[r].id, acts[r].obj)
    ensures StillHeld(run[f + 1], run[r].sys.epoch, acts[r].id, acts[r].obj) || MetFate(run, acts, r, f)
  {
    HeldUntil(run, acts, f, run[r].sys.epoch, acts[r].id, acts[r].obj);
    if !StillHeld(run[f + 1], run[r].sys.epoch, acts[r].id, acts[r].obj) {
      var fate := FateOf(run, acts, f);
      forall other | HasFate(run, acts, f, other) ensures other == fate {
        OnlyFate(run, acts, f, fate, other);
      }
      assert MeetsFate(run, acts, r, f, fate);
    }
  }

  lemma FateOf(run: seq<Account>, acts: seq<Action>, f: nat) returns (fate: Fate)
    requires IsRun(run, acts) && f < |acts| && Unclassified(run[f].rx)
    requires (acts[f].RxClaim? && run[f].rx.Hit?) || (acts[f].RxDiscard? && run[f].rx.Miss?)
    requires SentAs(run[f], (run[f].sys.epoch, run[f].rx.id), Read)
    ensures HasFate(run, acts, f, fate)
  {
    if acts[f].RxClaim? {
      ClaimFate(run, acts, f);
      fate := if run[f].rx.id in run[f].sys.router.requests then Delivered else Lost;
    } else {
      DiscardFate(run, acts, f);
      fate := if Overrun(run[f].sys.history, run[f].rx.id) then Overtaken else Discarded;
    }
  }

  lemma Received(run: seq<Account>, acts: seq<Action>, r: nat)
    requires IsRun(run, acts) && r < |acts| && acts[r].RxReceive?
    requires SentAs(run[r], (run[r].sys.epoch, acts[r].id), Read)
    ensures StillHeld(run[r + 1], run[r].sys.epoch, acts[r].id, acts[r].obj)
  {
    SysMoveOf(run, acts, r);
  }

  /** Every reply to a read that the receive thread takes from TDLib in step `r`: at any later moment `j` it
      is still being classified, or it has met exactly one fate. */
  lemma {:induction false} ReadReplyFate(run: seq<Account>, acts: seq<Action>, r: nat, j: nat)
    requires IsRun(run, acts) && r < j < |run| && acts[r].RxReceive?
    requires SentAs(run[r], (run[r].sys.epoch, acts[r].id), Read)
    ensures StillHeld(run[j], run[r].sys.epoch, acts[r].id, acts[r].obj)
            || exists f: nat :: r < f < j && MetFate(run, acts, r, f)
    decreases j
  {
    if j == r + 1 {
      Received(run, acts, r);
    } else {
      ReadReplyFate(run, acts, r, j - 1);
      if StillHeld(run[j - 1], run[r].sys.epoch, acts[r].id, acts[r].obj) {
        HeldStep(run, acts, r, j - 1);
      }
    }
  }

  predicate Holding(a: Account, epoch: nat, id: nat) {
    a.sys.epoch == epoch && Unclassified(a.rx) && a.rx.id == id
  }

  lemma NotTakenUp(a: Account, act: Action, a': Account, epoch: nat, id: nat)
    requires CanDo(a, act) && SysMoves(a, act, a') && GateOk(a)
    requires a'.rx == RxAfter(a, act) && a'.replies == RepliesAfter(a, act)
    requires id != 0 && (epoch, id) in a.replies && !Holding(a, epoch, id)
    ensures (epoch, id) in a'.replies && !Holding(a', epoch, id)
  {
    if RouterStep(a, act).Some? {
      AcceptingStep(a.sys, RouterStep(a, act).value);
    }
  }

  lemma NotTakenUpAt(run: seq<Account>, acts: seq<Action>, h: nat, epoch: nat, id: nat)
    requires IsRun(run, acts) && h < |acts| && id != 0
    requires (epoch, id) in run[h].replies && !Holding(run[h], epoch, id)
    ensures (epoch, id) in run[h + 1].replies && !Holding(run[h + 1], epoch, id)
  {
    RunInv(run, acts, h);
    SysMoveOf(run, acts, h);
    NotTakenUp(run[h], acts[h], run[h + 1], epoch, id);
  }

  /** TDLib answers a request once, so a reply that has been dealt with is not held again. */
  lemma {:induction false} NotHeldAgain(run: seq<Account>, acts: seq<Action>, epoch: nat, id: nat, i: nat, j: nat)
    requires IsRun(run, acts) && i <= j < |run| && id != 0
    requires (epoch, id) in run[i].replies && !Holding(run[i], epoch, id)
    ensures (epoch, id) in run[j].replies && !Holding(run[j], epoch, id)
    decreases j
  {
    if i < j {
      NotHeldAgain(run, acts, epoch, id, i, j - 1);
      NotTakenUpAt(run, acts, j - 1, epoch, id);
    }
  }

  /** The step in which a reply meets its fate is the only one. */
  lemma FateIsFinal(run: seq<Account>, acts: seq<Action>, r: nat, f: nat, g: nat)
    requires IsRun(run, acts) && MetFate(run, acts, r, f) && MetFate(run, acts, r, g)
    ensures f == g
  {
    if f < g {
      FateEnds(run, acts, r, f, g);
    } else if g < f {
      FateEnds(run, acts, r, g, f);
    }
  }

  lemma FateReleases(run: seq<Account>, acts: seq<Action>, f: nat, fate: Fate)
    requires IsRun(run, acts) && f < |acts| && Unclassified(run[f].rx) && HasFate(run, acts, f, fate)
    requires SentAs(run[f], (run[f].sys.epoch, run[f].rx.id), Read)
    ensures run[f].rx.id != 0 && (run[f].sys.epoch, run[f].rx.id) in run[f + 1].replies
    ensures !Unclassified(run[f + 1].rx)
  {
    RunInv(run, acts, f);
    SysMoveOf(run, acts, f);
  }

  lemma FateEnds(run: seq<Account>, acts: seq<Action>, r: nat, f: nat, g: nat)
    requires IsRun(run, acts) && MetFate(run, acts, r, f) && f < g < |run|
    ensures !StillHeld(run[g], run[r].sys.epoch, acts[r].id, acts[r].obj)
  {
    var fate :| MeetsFate(run, acts, r, f, fate);
    FateReleases(run, acts, f, fate);
    NotHeldAgain(run, acts, run[r].sys.epoch, acts[r].id, f + 1, g);
  }
}
