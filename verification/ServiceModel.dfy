/** The approval store, the audit log and the Telegram backend as one system. An execution takes three
    steps, as in the code: take the action under the approval lock, call the backend, record the
    audit entry; other calls may come in between. */
module ServiceModel {
  import opened Common
  import opened Policy
  import opened Approval

  const MAXIMUM_TEXT_BYTES := 4096

  datatype Outcome = WasDenied | Failed | Succeeded | WasPrepared

  datatype AuditEntry = AuditEntry(
    timestamp: real, clientId: string, accountId: string, toolName: string, chatId: Option<int>,
    decision: Effect, result: Outcome, actionId: Option<string>)

  datatype Send = Send(accountId: string, chatId: int, text: string)

  /** How far an execution that took its action has come; `k` is the position of its backend call. */
  datatype Phase = Ready | Sent(k: nat, ok: bool) | Audited(k: nat, ok: bool)

  datatype Call = Call(profile: Profile, action: Action, phase: Phase)

  datatype State = State(actions: Store, calls: seq<Call>, sends: seq<Send>, audit: seq<AuditEntry>)

  datatype Step =
    | PrepareSend(profile: Profile, accountId: string, chatId: int, text: string, freshId: string, now: real, at: real)
    | ApproveStep(id: string, now: real)
    | DenyStep(id: string, now: real)
    | LockdownStep
    | TakeStep(id: string, profile: Profile, now: real)
    | SendStep(c: nat, ok: bool)
    | AuditStep(c: nat, at: real)
    | LogStep(entry: AuditEntry)

  const INITIAL := State(map[], [], [], [])

  function SendInvocation(accountId: string, chatId: int): ToolInvocation {
    ToolInvocation("telegram_prepare_send_message", accountId, Some(chatId), true)
  }

  predicate GoodText(text: string) {
    1 <= |text| <= MAXIMUM_TEXT_BYTES
  }

  /** What an execution dereferences without checking. */
  predicate Complete(a: Action) {
    && a.invocation.chatId.Some? && a.invocation.isWrite
    && "text" in a.arguments && 1 <= |a.arguments["text"]| <= 4096
  }

  function SendOf(a: Action): Send
    requires Complete(a)
  {
    Send(a.invocation.accountId, a.invocation.chatId.value, a.arguments["text"])
  }

  function Entry(p: Profile, inv: ToolInvocation, d: Effect, result: Outcome, id: Option<string>, at: real): AuditEntry
  {
    AuditEntry(at, p.id, inv.accountId, inv.toolName, inv.chatId, d, result, id)
  }

  function ExecutionEntry(c: Call, ok: bool, at: real): AuditEntry {
    Entry(c.profile, c.action.invocation, Allow, if ok then Succeeded else Failed, Some(c.action.id), at)
  }

  predicate Enabled(st: State, step: Step) {
    match step
    case SendStep(c, _) => c < |st.calls| && st.calls[c].phase.Ready?
    case AuditStep(c, _) => c < |st.calls| && st.calls[c].phase.Sent?
    case LogStep(entry) => entry.actionId.None?
    case _ => true
  }

  function PrepareSendMessage(st: State, p: Profile, accountId: string, chatId: int, text: string,
                              freshId: string, now: real, at: real): State
  {
    var inv := SendInvocation(accountId, chatId);
    var effect := Evaluate(p, inv).effect;
    if !GoodText(text) then st
    else if effect.Deny? then st.(audit := st.audit + [Entry(p, inv, effect, WasDenied, None, at)])
    else
      st.(actions := AfterInsert(st.actions, NewAction(freshId, p.id, inv, map["text" := text], now)),
          audit := st.audit + [Entry(p, inv, effect, WasPrepared, Some(freshId), at)])
  }

  function TakeCall(st: State, id: string, p: Profile, now: real): State {
    var actions := AfterTake(st.actions, id, p, now);
    if Takes(st.actions, id, p) then
      st.(actions := actions, calls := st.calls + [Call(p, st.actions[id].(status := Executed), Ready)])
    else st.(actions := actions)
  }

  function SendCall(st: State, c: nat, ok: bool): State
    requires c < |st.calls|
  {
    if Complete(st.calls[c].action) then
      st.(sends := st.sends + [SendOf(st.calls[c].action)],
          calls := st.calls[c := st.calls[c].(phase := Sent(|st.sends|, ok))])
    else st
  }

  function AuditCall(st: State, c: nat, at: real): State
    requires c < |st.calls| && st.calls[c].phase.Sent?
  {
    var call := st.calls[c];
    st.(audit := st.audit + [ExecutionEntry(call, call.phase.ok, at)],
        calls := st.calls[c := call.(phase := Audited(call.phase.k, call.phase.ok))])
  }

  function Apply(st: State, step: Step): State
    requires Enabled(st, step)
  {
    match step
    case PrepareSend(p, accountId, chatId, text, freshId, now, at) =>
      PrepareSendMessage(st, p, accountId, chatId, text, freshId, now, at)
    case ApproveStep(id, now) => st.(actions := AfterApprove(st.actions, id, now))
    case DenyStep(id, now) => st.(actions := AfterDeny(st.actions, id, now))
    case LockdownStep => st.(actions := AfterLockdown(st.actions))
    case TakeStep(id, p, now) => TakeCall(st, id, p, now)
    case SendStep(c, ok) => SendCall(st, c, ok)
    case AuditStep(c, at) => AuditCall(st, c, at)
    case LogStep(entry) => st.(audit := st.audit + [entry])
  }

  // ---- Status order -----------------------------------------------------------------------------

  predicate LegalMove(s: Status, s': Status) {
    || s' == s
    || (s.Pending? && (s'.Approved? || s'.Denied? || s'.Expired?))
    || (s.Approved? && (s'.Executed? || s'.Denied?))
  }

  /** Nothing is removed or overwritten; only the status moves, and only along the status graph. */
  predicate StoreMoves(s: Store, s': Store) {
    forall id :: id in s ==>
      id in s' && s'[id] == s[id].(status := s'[id].status) && LegalMove(s[id].status, s'[id].status)
  }

  lemma ApproveMoves(s: Store, id: string, now: real)
    ensures StoreMoves(s, AfterApprove(s, id, now)) && StoreMoves(s, AfterDeny(s, id, now))
  {
  }

  lemma TakeMoves(s: Store, id: string, p: Profile, now: real)
    ensures StoreMoves(s, AfterTake(s, id, p, now))
  {
  }

  lemma StepMovesStore(st: State, step: Step)
    requires Enabled(st, step)
    ensures StoreMoves(st.actions, Apply(st, step).actions)
  {
    match step
    case ApproveStep(id, now) => ApproveMoves(st.actions, id, now);
    case DenyStep(id, now) => ApproveMoves(st.actions, id, now);
    case TakeStep(id, p, now) => TakeMoves(st.actions, id, p, now);
    case _ =>
  }

  // ---- Invariant --------------------------------------------------------------------------------

  predicate ActionsOk(st: State) {
    forall id :: id in st.actions ==> st.actions[id].id == id && Complete(st.actions[id])
  }

  /** Each execution holds its own executed action, which its profile may execute. */
  ghost predicate CallOk(st: State, c: nat)
    requires c < |st.calls|
  {
    var call := st.calls[c];
    && call.action.id in st.actions && st.actions[call.action.id] == call.action
    && call.action.status.Executed?
    && call.profile.id == call.action.clientId
    && !Evaluate(call.profile, call.action.invocation).effect.Deny?
    && (!call.phase.Ready? ==>
          call.phase.k < |st.sends| && Complete(call.action) && st.sends[call.phase.k] == SendOf(call.action))
  }

  /** Two executions never share an action or a backend call. */
  predicate Apart(st: State, c: nat, d: nat)
    requires c < |st.calls| && d < |st.calls|
  {
    var call, other := st.calls[c], st.calls[d];
    && call.action.id != other.action.id
    && (!call.phase.Ready? && !other.phase.Ready? ==> call.phase.k != other.phase.k)
  }

  ghost predicate CallsDistinct(st: State) {
    forall c, d :: 0 <= c < d < |st.calls| ==> Apart(st, c, d)
  }

  /** Execution `c` made backend call `k`. */
  predicate Made(st: State, c: nat, k: nat) {
    c < |st.calls| && !st.calls[c].phase.Ready? && st.calls[c].phase.k == k
  }

  ghost predicate WasMade(st: State, k: nat) {
    exists c: nat :: Made(st, c, k)
  }

  ghost predicate SendsOk(st: State) {
    forall k: nat :: k < |st.sends| ==> WasMade(st, k)
  }

  ghost predicate Inv(st: State) {
    && ActionsOk(st)
    && (forall c :: 0 <= c < |st.calls| ==> CallOk(st, c))
    && CallsDistinct(st)
    && SendsOk(st)
  }

  lemma StepKeepsActions(st: State, step: Step)
    requires ActionsOk(st) && Enabled(st, step)
    ensures ActionsOk(Apply(st, step))
  {
    StepMovesStore(st, step);
  }

  /** An executed action is absorbing, so an execution's copy of it stays current. */
  lemma ExecutedStays(s: Store, s': Store, id: string)
    requires StoreMoves(s, s') && id in s && s[id].status.Executed?
    ensures id in s' && s'[id] == s[id]
  {
  }

  lemma OldCallStays(st: State, step: Step, c: nat)
    requires Enabled(st, step) && c < |st.calls| && CallOk(st, c)
    ensures c < |Apply(st, step).calls| && CallOk(Apply(st, step), c)
  {
    StepMovesStore(st, step);
    ExecutedStays(st.actions, Apply(st, step).actions, st.calls[c].action.id);
  }

  lemma StepKeepsCall(st: State, step: Step, c: nat)
    requires Enabled(st, step) && ActionsOk(st) && c < |Apply(st, step).calls|
    requires c < |st.calls| ==> CallOk(st, c)
    ensures CallOk(Apply(st, step), c)
  {
    if c < |st.calls| {
      OldCallStays(st, step, c);
    } else {
      assert Takes(st.actions, step.id, step.profile);
    }
  }

  lemma StepKeepsInv(st: State, step: Step)
    requires Inv(st) && Enabled(st, step)
    ensures Inv(Apply(st, step))
  {
    StepKeepsActions(st, step);
    forall c | 0 <= c < |Apply(st, step).calls| ensures CallOk(Apply(st, step), c) {
      StepKeepsCall(st, step, c);
    }
    StepKeepsDistinct(st, step);
    StepKeepsSends(st, step);
  }

  predicate CallStored(st: State, c: nat)
    requires c < |st.calls|
  {
    var call := st.calls[c];
    && call.action.id in st.actions && st.actions[call.action.id].status.Executed?
    && (!call.phase.Ready? ==> call.phase.k < |st.sends|)
  }

  lemma StepKeepsApart(st: State, step: Step, c: nat, d: nat)
    requires Enabled(st, step) && c < d < |Apply(st, step).calls| && c < |st.calls|
    requires CallStored(st, c) && (d < |st.calls| ==> CallStored(st, d) && Apart(st, c, d))
    requires step.TakeStep? && step.id in st.actions ==> st.actions[step.id].id == step.id
    ensures Apart(Apply(st, step), c, d)
  {
    match step
    case TakeStep(id, p, now) =>
      assert Apply(st, step).calls[c] == st.calls[c];
    case SendStep(e, ok) =>
    case AuditStep(e, at) =>
    case _ => assert Apply(st, step).calls == st.calls;
  }

  lemma StepKeepsDistinct(st: State, step: Step)
    requires Inv(st) && Enabled(st, step)
    ensures CallsDistinct(Apply(st, step))
  {
    forall c, d | 0 <= c < d < |Apply(st, step).calls| ensures Apart(Apply(st, step), c, d) {
      assert CallOk(st, c);
      assert d < |st.calls| ==> CallOk(st, d) && Apart(st, c, d);
      StepKeepsApart(st, step, c, d);
    }
  }

  lemma StepKeepsSends(st: State, step: Step)
    requires Inv(st) && Enabled(st, step)
    ensures SendsOk(Apply(st, step))
  {
    var st' := Apply(st, step);
    forall k: nat | k < |st'.sends| ensures WasMade(st', k) {
      if k < |st.sends| {
        assert WasMade(st, k);
        var c: nat :| Made(st, c, k);
        assert Made(st', c, k);
      } else {
        assert Made(st', step.c, k);
      }
    }
  }
}
