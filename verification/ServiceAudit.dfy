/** The audit log against the backend: which entries record executions, and how they match the sends. */
module ServiceAudit {
  import opened Common
  import opened Policy
  import opened Approval
  import opened ServiceModel
  import opened ServiceRuns

  predicate IsExecution(e: AuditEntry) {
    e.actionId.Some? && (e.result.Failed? || e.result.Succeeded?)
  }

  function Executions(audit: seq<AuditEntry>): seq<AuditEntry> {
    if audit == [] then []
    else
      var rest, e := Executions(audit[..|audit| - 1]), audit[|audit| - 1];
      if IsExecution(e) then rest + [e] else rest
  }

  lemma ExecutionsSnoc(audit: seq<AuditEntry>, e: AuditEntry)
    ensures Executions(audit + [e]) == Executions(audit) + (if IsExecution(e) then [e] else [])
  {
    assert (audit + [e])[..|audit|] == audit;
  }

  /** The log only grows: every earlier log is a prefix of every later one. */
  lemma {:induction false} AuditGrows(run: seq<State>, steps: seq<Step>, i: nat, j: nat)
    requires IsRun(run, steps) && i <= j < |run|
    ensures run[i].audit <= run[j].audit
    decreases j
  {
    if i < j {
      AuditGrows(run, steps, i, j - 1);
      assert run[j] == Apply(run[j - 1], steps[j - 1]);
    }
  }

  // ---- Any interleaving -------------------------------------------------------------------------

  /** Entry `x` of the execution entries was written by execution `c`. */
  predicate Records(st: State, x: nat, c: nat) {
    && x < |Executions(st.audit)| && c < |st.calls| && st.calls[c].phase.Audited?
    && var e := Executions(st.audit)[x];
       e == ExecutionEntry(st.calls[c], st.calls[c].phase.ok, e.timestamp)
  }

  ghost predicate Recorded(st: State, c: nat) {
    exists x: nat :: Records(st, x, c)
  }

  ghost predicate WrittenByCall(st: State, x: nat) {
    exists c: nat :: Records(st, x, c)
  }

  /** Execution entries and audited executions correspond, and no action is recorded twice. */
  ghost predicate AuditOk(st: State) {
    && (forall x: nat :: x < |Executions(st.audit)| ==> WrittenByCall(st, x))
    && (forall c: nat :: c < |st.calls| && st.calls[c].phase.Audited? ==> Recorded(st, c))
    && (forall x, y :: 0 <= x < y < |Executions(st.audit)| ==>
          Executions(st.audit)[x].actionId != Executions(st.audit)[y].actionId)
  }

  /** A step adds at most one audit entry; only an audit step adds an execution entry. */
  lemma ExecutionsAfter(st: State, step: Step)
    requires Enabled(st, step)
    ensures var st' := Apply(st, step);
            Executions(st'.audit) ==
              if step.AuditStep? then
                Executions(st.audit) + [ExecutionEntry(st.calls[step.c], st.calls[step.c].phase.ok, step.at)]
              else Executions(st.audit)
  {
    match step
    case PrepareSend(p, accountId, chatId, _, freshId, _, at) =>
      var inv := SendInvocation(accountId, chatId);
      var effect := Evaluate(p, inv).effect;
      ExecutionsSnoc(st.audit, Entry(p, inv, effect, WasDenied, None, at));
      ExecutionsSnoc(st.audit, Entry(p, inv, effect, WasPrepared, Some(freshId), at));
    case AuditStep(c, at) =>
      ExecutionsSnoc(st.audit, ExecutionEntry(st.calls[c], st.calls[c].phase.ok, at));
    case LogStep(entry) =>
      ExecutionsSnoc(st.audit, entry);
    case _ =>
      assert Apply(st, step).audit == st.audit;
  }

  lemma RecordsStay(st: State, step: Step, x: nat, c: nat)
    requires Enabled(st, step) && Records(st, x, c)
    ensures Records(Apply(st, step), x, c)
  {
    ExecutionsAfter(st, step);
  }

  lemma KeepsWritten(st: State, step: Step, x: nat)
    requires AuditOk(st) && Enabled(st, step) && x < |Executions(Apply(st, step).audit)|
    ensures WrittenByCall(Apply(st, step), x)
  {
    ExecutionsAfter(st, step);
    if x < |Executions(st.audit)| {
      assert WrittenByCall(st, x);
      var c: nat :| Records(st, x, c);
      RecordsStay(st, step, x, c);
    } else {
      assert Records(Apply(st, step), x, step.c);
    }
  }

  lemma KeepsRecorded(st: State, step: Step, c: nat)
    requires AuditOk(st) && Enabled(st, step)
    requires c < |Apply(st, step).calls| && Apply(st, step).calls[c].phase.Audited?
    ensures Recorded(Apply(st, step), c)
  {
    if c < |st.calls| && st.calls[c].phase.Audited? {
      assert Recorded(st, c);
      var x: nat :| Records(st, x, c);
      RecordsStay(st, step, x, c);
    } else {
      ExecutionsAfter(st, step);
      assert Records(Apply(st, step), |Executions(st.audit)|, c);
    }
  }

  lemma KeepsUnrepeated(st: State, step: Step, x: nat)
    requires Inv(st) && AuditOk(st) && Enabled(st, step) && step.AuditStep? && x < |Executions(st.audit)|
    ensures Executions(st.audit)[x].actionId != Some(st.calls[step.c].action.id)
  {
    assert WrittenByCall(st, x);
    var c: nat :| Records(st, x, c);
    if c < step.c {
      assert Apart(st, c, step.c);
    } else {
      assert Apart(st, step.c, c);
    }
  }

  lemma StepKeepsAudit(st: State, step: Step)
    requires Inv(st) && AuditOk(st) && Enabled(st, step)
    ensures AuditOk(Apply(st, step))
  {
    var st' := Apply(st, step);
    forall x: nat | x < |Executions(st'.audit)| ensures WrittenByCall(st', x) {
      KeepsWritten(st, step, x);
    }
    forall c: nat | c < |st'.calls| && st'.calls[c].phase.Audited? ensures Recorded(st', c) {
      KeepsRecorded(st, step, c);
    }
    ExecutionsAfter(st, step);
    if step.AuditStep? {
      forall x: nat | x < |Executions(st.audit)|
        ensures Executions(st.audit)[x].actionId != Some(st.calls[step.c].action.id)
      {
        KeepsUnrepeated(st, step, x);
      }
    }
  }

  lemma {:induction false} RunAudit(run: seq<State>, steps: seq<Step>, i: nat)
    requires IsRun(run, steps) && i < |run|
    ensures AuditOk(run[i])
  {
    if i > 0 {
      RunAudit(run, steps, i - 1);
      RunInv(run, steps, i - 1);
      StepKeepsAudit(run[i - 1], steps[i - 1]);
    }
  }

  /** Entry `x` tells of backend call `k` made by execution `c`: who asked, for which account and chat, under
      which action, and whether the backend accepted the message. */
  ghost predicate TellsOf(st: State, x: nat, k: nat, c: nat) {
    && x < |Executions(st.audit)| && k < |st.sends|
    && Records(st, x, c) && Made(st, c, k)
    && var e, call := Executions(st.audit)[x], st.calls[c];
       && e.accountId == st.sends[k].accountId && e.chatId == Some(st.sends[k].chatId)
       && e.clientId == call.profile.id && e.toolName == call.action.invocation.toolName
       && e.actionId == Some(call.action.id) && e.decision == Allow
       && e.result == (if call.phase.ok then Succeeded else Failed)
  }

  ghost predicate Tells(st: State, x: nat, k: nat) {
    exists c: nat :: TellsOf(st, x, k, c)
  }

  ghost predicate HasEntry(st: State, k: nat) {
    exists x: nat :: Tells(st, x, k)
  }

  ghost predicate HasSend(st: State, x: nat) {
    exists k: nat :: Tells(st, x, k)
  }

  /** When no execution is under way, execution entries and backend sends correspond one to one:
      each send has exactly one entry and each entry tells of exactly one send. */
  lemma AuditMatchesSends(run: seq<State>, steps: seq<Step>, i: nat)
    requires IsRun(run, steps) && i < |run|
    requires forall c: nat :: c < |run[i].calls| ==> run[i].calls[c].phase.Audited?
    ensures forall k: nat :: k < |run[i].sends| ==> HasEntry(run[i], k)
    ensures forall x: nat :: x < |Executions(run[i].audit)| ==> HasSend(run[i], x)
    ensures forall x: nat, y: nat, k: nat, l: nat :: Tells(run[i], x, k) && Tells(run[i], y, l) ==> (x == y <==> k == l)
  {
    RunInv(run, steps, i);
    RunAudit(run, steps, i);
    var st := run[i];
    forall k: nat | k < |st.sends| ensures HasEntry(st, k) {
      EntryFor(st, k);
    }
    forall x: nat | x < |Executions(st.audit)| ensures HasSend(st, x) {
      SendFor(st, x);
    }
    forall x: nat, y: nat, k: nat, l: nat | Tells(st, x, k) && Tells(st, y, l) ensures x == y <==> k == l {
      TellsUnique(st, x, y, k, l);
    }
  }

  lemma EntryFor(st: State, k: nat)
    requires Inv(st) && AuditOk(st) && k < |st.sends|
    requires forall c: nat :: c < |st.calls| ==> st.calls[c].phase.Audited?
    ensures HasEntry(st, k)
  {
    assert WasMade(st, k);
    var c: nat :| Made(st, c, k);
    assert CallOk(st, c) && Recorded(st, c);
    var x: nat :| Records(st, x, c);
    assert TellsOf(st, x, k, c);
    assert Tells(st, x, k);
  }

  lemma SendFor(st: State, x: nat)
    requires Inv(st) && AuditOk(st) && x < |Executions(st.audit)|
    ensures HasSend(st, x)
  {
    assert WrittenByCall(st, x);
    var c: nat :| Records(st, x, c);
    assert CallOk(st, c);
    assert TellsOf(st, x, st.calls[c].phase.k, c);
    assert Tells(st, x, st.calls[c].phase.k);
  }

  lemma TellsUnique(st: State, x: nat, y: nat, k: nat, l: nat)
    requires Inv(st) && AuditOk(st) && Tells(st, x, k) && Tells(st, y, l)
    ensures x == y <==> k == l
  {
    var c: nat :| TellsOf(st, x, k, c);
    var d: nat :| TellsOf(st, y, l, d);
    if c < d {
      assert Apart(st, c, d);
    } else if d < c {
      assert Apart(st, d, c);
    }
  }

  // ---- Where an entry comes from ----------------------------------------------------------------

  /** Step `s` is the backend's answer to execution `c`. */
  ghost predicate AnsweredAt(run: seq<State>, steps: seq<Step>, s: nat, c: nat, ok: bool) {
    s < |steps| && steps[s] == SendStep(c, ok)
  }

  lemma {:induction false} CallWasAnswered(run: seq<State>, steps: seq<Step>, j: nat, c: nat) returns (s: nat)
    requires IsRun(run, steps) && j < |run| && c < |run[j].calls| && !run[j].calls[c].phase.Ready?
    ensures s < j && AnsweredAt(run, steps, s, c, run[j].calls[c].phase.ok)
    decreases j
  {
    assert run[j] == Apply(run[j - 1], steps[j - 1]);
    if c < |run[j - 1].calls| && !run[j - 1].calls[c].phase.Ready? {
      s := CallWasAnswered(run, steps, j - 1, c);
    } else {
      s := j - 1;
    }
  }

  /** Every execution entry, spelled out: the client that took the action, the account and chat it was
      prepared for, and "ok" exactly if the backend had a response. */
  lemma EntryProvenance(run: seq<State>, steps: seq<Step>, j: nat, x: nat)
    returns (p: nat, b: nat, e: nat, s: nat, ok: bool)
    requires IsRun(run, steps) && j < |run| && x < |Executions(run[j].audit)|
    ensures p < b < e < j && steps[p].PrepareSend? && steps[e].TakeStep?
    ensures Executions(run[j].audit)[x].actionId.Some?
    ensures var sent := Send(steps[p].accountId, steps[p].chatId, steps[p].text);
            Origin(run, steps, sent, Executions(run[j].audit)[x].actionId.value, p, b, e)
    ensures s < j && steps[s].SendStep? && steps[s].c < |run[j].calls| && steps[s].ok == ok
    ensures run[j].calls[steps[s].c].action.id == Executions(run[j].audit)[x].actionId.value
    ensures var entry := Executions(run[j].audit)[x];
            entry == AuditEntry(entry.timestamp, steps[e].profile.id, steps[p].accountId,
                                "telegram_prepare_send_message", Some(steps[p].chatId), Allow,
                                if ok then Succeeded else Failed, entry.actionId)
  {
    RunAudit(run, steps, j);
    RunInv(run, steps, j);
    assert WrittenByCall(run[j], x);
    var c: nat :| Records(run[j], x, c);
    assert CallOk(run[j], c);
    var id := run[j].calls[c].action.id;
    e := CallWasTaken(run, steps, j, c);
    b := ApprovedWasApproved(run, steps, e, id);
    p := ActionWasPrepared(run, steps, b, id);
    RunInv(run, steps, b);
    ActionsPersist(run, steps, b, e, id);
    ActionsPersist(run, steps, e, j, id);
    s := CallWasAnswered(run, steps, j, c);
    ok := run[j].calls[c].phase.ok;
  }

  // ---- Sequential runs --------------------------------------------------------------------------

  /** execute_approved_action with nothing in between. */
  function Execute(st: State, id: string, p: Profile, now: real, ok: bool, at: real): State {
    var taken := TakeCall(st, id, p, now);
    if |taken.calls| == |st.calls| then taken
    else
      var sent := SendCall(taken, |st.calls|, ok);
      if sent.calls[|st.calls|].phase.Sent? then AuditCall(sent, |st.calls|, at) else sent
  }

  /** No execution is under way, and the execution entries are the sends, in order. */
  ghost predicate InOrder(st: State) {
    && |st.calls| == |st.sends| == |Executions(st.audit)|
    && forall k :: 0 <= k < |st.sends| ==>
         && st.calls[k].phase.Audited? && st.calls[k].phase.k == k
         && var e := Executions(st.audit)[k];
            && e == ExecutionEntry(st.calls[k], st.calls[k].phase.ok, e.timestamp)
            && e.accountId == st.sends[k].accountId && e.chatId == Some(st.sends[k].chatId)
  }

  /** The backend call and the audit entry of the newest execution. */
  lemma FinishKeepsOrder(st: State, call: Call, ok: bool, at: real)
    requires InOrder(st) && call.phase.Ready? && Complete(call.action)
    ensures var c, taken := |st.calls|, st.(calls := st.calls + [call]);
            var sent := SendCall(taken, c, ok);
            sent.calls[c].phase.Sent? && InOrder(AuditCall(sent, c, at))
  {
    var c, taken := |st.calls|, st.(calls := st.calls + [call]);
    var sent := SendCall(taken, c, ok);
    ExecutionsSnoc(st.audit, ExecutionEntry(sent.calls[c], ok, at));
  }

  lemma ExecuteKeepsOrder(st: State, id: string, p: Profile, now: real, ok: bool, at: real)
    requires Inv(st) && InOrder(st)
    ensures Inv(Execute(st, id, p, now, ok, at)) && InOrder(Execute(st, id, p, now, ok, at))
  {
    var taken := TakeCall(st, id, p, now);
    StepKeepsInv(st, TakeStep(id, p, now));
    if |taken.calls| > |st.calls| {
      var c := |st.calls|;
      assert CallOk(taken, c) && Complete(taken.calls[c].action);
      FinishKeepsOrder(st.(actions := taken.actions), taken.calls[c], ok, at);
      StepKeepsInv(taken, SendStep(c, ok));
      StepKeepsInv(SendCall(taken, c, ok), AuditStep(c, at));
    }
  }

  lemma ExecuteRefused(st: State, id: string, p: Profile, now: real, ok: bool, at: real)
    requires !Takes(st.actions, id, p)
    ensures Execute(st, id, p, now, ok, at) == st.(actions := AfterTake(st.actions, id, p, now))
  {
  }

  /** A successful take executed: one send, one entry and one finished execution more. */
  lemma ExecuteTaken(st: State, id: string, p: Profile, now: real, ok: bool, at: real)
    requires Inv(st) && Takes(st.actions, id, p)
    ensures Complete(st.actions[id])
    ensures var a := st.actions[id].(status := Executed);
            Execute(st, id, p, now, ok, at) ==
              State(AfterTake(st.actions, id, p, now),
                    st.calls + [Call(p, a, Audited(|st.sends|, ok))],
                    st.sends + [Send(a.invocation.accountId, a.invocation.chatId.value, a.arguments["text"])],
                    st.audit + [AuditEntry(at, p.id, a.invocation.accountId, a.invocation.toolName, a.invocation.chatId,
                                           Allow, if ok then Succeeded else Failed, Some(a.id))])
  {
  }

  /** Every other operation of the service leaves the correspondence as it is. */
  lemma OthersKeepOrder(st: State, step: Step)
    requires Inv(st) && InOrder(st) && Enabled(st, step) && !step.TakeStep? && !step.SendStep? && !step.AuditStep?
    ensures Inv(Apply(st, step)) && InOrder(Apply(st, step))
  {
    StepKeepsInv(st, step);
    ExecutionsAfter(st, step);
  }
}
