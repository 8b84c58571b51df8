/** Runs of the service: arbitrary interleavings, clock readings, profiles and ids. */
module ServiceRuns {
  import opened Common
  import opened Policy
  import opened Approval
  import opened ServiceModel

  ghost predicate IsRun(run: seq<State>, steps: seq<Step>) {
    && |run| == |steps| + 1
    && run[0] == INITIAL
    && forall i {:trigger steps[i]} :: 0 <= i < |steps| ==>
         Enabled(run[i], steps[i]) && run[i + 1] == Apply(run[i], steps[i])
  }

  lemma {:induction false} RunInv(run: seq<State>, steps: seq<Step>, i: nat)
    requires IsRun(run, steps) && i < |run|
    ensures Inv(run[i])
  {
    if i > 0 {
      RunInv(run, steps, i - 1);
      StepKeepsInv(run[i - 1], steps[i - 1]);
    }
  }

  /** Every action stored through the service has what an execution dereferences: a chat id and a text
      of 1 to 4096 bytes; and it is a write. */
  lemma StoredActionsComplete(run: seq<State>, steps: seq<Step>, i: nat, id: string)
    requires IsRun(run, steps) && i < |run| && id in run[i].actions
    ensures var a := run[i].actions[id];
            && a.id == id && a.invocation.isWrite && a.invocation.chatId.Some?
            && "text" in a.arguments && 1 <= |a.arguments["text"]| <= 4096
  {
    RunInv(run, steps, i);
  }

  // ---- Status order and lockdown ----------------------------------------------------------------

  predicate Terminal(s: Status) {
    s.Denied? || s.Executed? || s.Expired?
  }

  /** From `i` to `j` an action keeps everything but its status, and the status has gone down the
      graph: terminal statuses are absorbing, approved never returns to pending. */
  lemma {:induction false} ActionsPersist(run: seq<State>, steps: seq<Step>, i: nat, j: nat, id: string)
    requires IsRun(run, steps) && i <= j < |run| && id in run[i].actions
    ensures id in run[j].actions
    ensures var a, a' := run[i].actions[id], run[j].actions[id];
            && a' == a.(status := a'.status)
            && (Terminal(a.status) ==> a' == a)
            && (a.status.Approved? ==> !a'.status.Pending? && !a'.status.Expired?)
    decreases j
  {
    if i < j {
      ActionsPersist(run, steps, i, j - 1, id);
      StepPersists(run[j - 1], steps[j - 1], id);
    }
  }

  lemma StepPersists(st: State, step: Step, id: string)
    requires Enabled(st, step) && id in st.actions
    ensures var s' := Apply(st, step).actions;
            && id in s' && s'[id] == st.actions[id].(status := s'[id].status)
            && LegalMove(st.actions[id].status, s'[id].status)
  {
    StepMovesStore(st, step);
  }

  ghost predicate TakenAt(run: seq<State>, steps: seq<Step>, i: nat, id: string, p: Profile) {
    && i < |steps| && i < |run| && steps[i].TakeStep?
    && steps[i].id == id && steps[i].profile == p && Takes(run[i].actions, id, p)
  }

  lemma TakeExecutes(run: seq<State>, steps: seq<Step>, i: nat, id: string, p: Profile)
    requires IsRun(run, steps) && TakenAt(run, steps, i, id, p)
    ensures id in run[i + 1].actions && run[i + 1].actions[id].status.Executed?
  {
  }

  /** An action is taken for execution at most once. */
  lemma TakenOnce(run: seq<State>, steps: seq<Step>, i: nat, j: nat, id: string, p: Profile, q: Profile)
    requires IsRun(run, steps) && TakenAt(run, steps, i, id, p) && TakenAt(run, steps, j, id, q)
    ensures i == j
  {
    if i < j {
      TakeExecutes(run, steps, i, id, p);
      ActionsPersist(run, steps, i + 1, j, id);
    } else if j < i {
      TakeExecutes(run, steps, j, id, q);
      ActionsPersist(run, steps, j + 1, i, id);
    }
  }

  /** After a lockdown no action that existed then is ever taken. */
  lemma LockdownIsFinal(run: seq<State>, steps: seq<Step>, i: nat, j: nat, id: string, p: Profile)
    requires IsRun(run, steps) && i < j < |steps| && steps[i].LockdownStep? && id in run[i].actions
    ensures !TakenAt(run, steps, j, id, p)
  {
    assert Terminal(run[i + 1].actions[id].status);
    ActionsPersist(run, steps, i + 1, j, id);
  }

  /** The status in which this step ends the action `id`, if it ends it: a pending action expires when it
      is touched too late and is denied in time, an approved one is executed or denied when its client
      takes it, and a lockdown denies both. */
  function EndsIn(st: State, step: Step, id: string): Option<Status>
    requires id in st.actions
  {
    var a := st.actions[id];
    match step
    case ApproveStep(x, now) =>
      if x == id && a.status == Pending && now >= a.expiresAt then Some(Expired) else None
    case DenyStep(x, now) =>
      if x == id && a.status == Pending then Some(if now >= a.expiresAt then Expired else Denied) else None
    case TakeStep(x, p, now) =>
      if x == id && a.status == Pending && now >= a.expiresAt then Some(Expired)
      else if x == id && a.status == Approved && a.clientId == p.id then
        Some(if Evaluate(p, a.invocation).effect == Deny then Denied else Executed)
      else None
    case LockdownStep => if a.status == Pending || a.status == Approved then Some(Denied) else None
    case _ => None
  }

  ghost predicate EndedAt(run: seq<State>, steps: seq<Step>, k: nat, id: string, s: Status) {
    k < |steps| && k < |run| && id in run[k].actions && EndsIn(run[k], steps[k], id) == Some(s)
  }

  lemma EndStep(st: State, step: Step, id: string, s: Status)
    requires Enabled(st, step) && id in st.actions && Terminal(s)
    ensures id in Apply(st, step).actions
    ensures Apply(st, step).actions[id].status == s <==> st.actions[id].status == s || EndsIn(st, step, id) == Some(s)
  {
    match step
    case TakeStep(x, p, now) =>
      TakeEnds(st.actions, x, p, now, id);
    case _ =>
  }

  /** What a take does to the status of each action. */
  lemma TakeEnds(s: Store, x: string, p: Profile, now: real, id: string)
    requires id in s
    ensures id in AfterTake(s, x, p, now)
    ensures AfterTake(s, x, p, now)[id].status ==
            if x != id then s[id].status
            else if s[id].status == Pending && now >= s[id].expiresAt then Expired
            else if s[id].status == Approved && s[id].clientId == p.id then
              if Evaluate(p, s[id].invocation).effect == Deny then Denied else Executed
            else s[id].status
  {
  }

  lemma NewIsPending(st: State, step: Step, id: string)
    requires Enabled(st, step) && id !in st.actions && id in Apply(st, step).actions
    ensures Apply(st, step).actions[id].status == Pending
  {
  }

  /** What the final statuses mean: an action is denied, expired or executed exactly when some earlier step
      ended it that way. */
  lemma {:induction false} EndedIff(run: seq<State>, steps: seq<Step>, j: nat, id: string, s: Status)
    requires IsRun(run, steps) && j < |run| && id in run[j].actions && Terminal(s)
    ensures run[j].actions[id].status == s <==> exists k: nat :: k < j && EndedAt(run, steps, k, id, s)
    decreases j
  {
    if j > 0 {
      var h := j - 1;
      assert run[j] == Apply(run[h], steps[h]);
      if id in run[h].actions {
        EndedIff(run, steps, h, id, s);
        EndStep(run[h], steps[h], id, s);
        assert EndedAt(run, steps, h, id, s) <==> EndsIn(run[h], steps[h], id) == Some(s);
      } else {
        NewIsPending(run[h], steps[h], id);
        forall k: nat | k < j ensures !EndedAt(run, steps, k, id, s) {
          if id in run[k].actions {
            ActionsPersist(run, steps, k, h, id);
          }
        }
      }
    }
  }

  /** Step `i` turns the pending or approved action `id` down: a local denial, an approval or denial
      that comes too late, or a take that the policy of the moment denies. */
  predicate TurnsDown(st: State, step: Step, id: string) {
    match step
    case DenyStep(x, _) => x == id && IsPending(st.actions, id)
    case ApproveStep(x, now) => x == id && IsPending(st.actions, id) && now >= st.actions[id].expiresAt
    case TakeStep(x, p, _) => x == id && Claimable(st.actions, id, p) && !Takes(st.actions, id, p)
    case _ => false
  }

  /** An action turned down once is never taken, whoever asks and whatever the policy becomes. */
  lemma RefusalIsFinal(run: seq<State>, steps: seq<Step>, i: nat, j: nat, id: string, p: Profile)
    requires IsRun(run, steps) && i < j < |steps| && TurnsDown(run[i], steps[i], id)
    ensures !TakenAt(run, steps, j, id, p)
  {
    assert Terminal(run[i + 1].actions[id].status);
    ActionsPersist(run, steps, i + 1, j, id);
  }

  /** The steps that end an approval: lockdown, and a take by the client that prepared the action. */
  predicate EndsApproval(st: State, step: Step, id: string)
    requires id in st.actions
  {
    step.LockdownStep? || (step.TakeStep? && step.id == id && step.profile.id == st.actions[id].clientId)
  }

  lemma ApprovalStep(st: State, step: Step, id: string)
    requires Enabled(st, step) && id in st.actions && st.actions[id].status.Approved?
    ensures id in Apply(st, step).actions
    ensures Apply(st, step).actions[id] != st.actions[id] <==> EndsApproval(st, step, id)
  {
  }

  lemma {:induction false} ApprovalStays(run: seq<State>, steps: seq<Step>, i: nat, j: nat, id: string)
    requires IsRun(run, steps) && i <= j < |run| && id in run[i].actions && run[i].actions[id].status.Approved?
    requires forall k :: i <= k < j && id in run[k].actions ==> !EndsApproval(run[k], steps[k], id)
    ensures id in run[j].actions && run[j].actions[id] == run[i].actions[id]
    decreases j
  {
    if i < j {
      ApprovalStays(run, steps, i, j - 1, id);
      ApprovalStep(run[j - 1], steps[j - 1], id);
    }
  }

  /** Expiry limits approval only. Until one of those steps, an approved action stays approved whatever
      the clock says, and at any time a take by its client under a policy that allows it succeeds. */
  lemma ApprovalNeverExpires(run: seq<State>, steps: seq<Step>, i: nat, j: nat, id: string, p: Profile)
    requires IsRun(run, steps) && i <= j < |run| && id in run[i].actions && run[i].actions[id].status.Approved?
    requires forall k :: i <= k < j && id in run[k].actions ==> !EndsApproval(run[k], steps[k], id)
    ensures id in run[j].actions && run[j].actions[id] == run[i].actions[id]
    ensures Takes(run[j].actions, id, p) <==>
              p.id == run[i].actions[id].clientId && !Evaluate(p, run[i].actions[id].invocation).effect.Deny?
  {
    ApprovalStays(run, steps, i, j, id);
  }

  /** Such a run: any write the policy does not deny, prepared at 0 and approved in time, is taken at any
      time after its expiry. */
  lemma TakenAfterExpiry(p: Profile, accountId: string, chatId: int, text: string, id: string, late: real)
    returns (run: seq<State>, steps: seq<Step>)
    requires GoodText(text) && !Evaluate(p, SendInvocation(accountId, chatId)).effect.Deny? && late >= LIFETIME
    ensures IsRun(run, steps) && |steps| == 3 && TakenAt(run, steps, 2, id, p)
    ensures steps[2].now == late && run[2].actions[id].expiresAt == LIFETIME <= late
  {
    steps := [PrepareSend(p, accountId, chatId, text, id, 0.0, 0.0), ApproveStep(id, 60.0), TakeStep(id, p, late)];
    var s1 := Apply(INITIAL, steps[0]);
    assert IsPending(s1.actions, id) && s1.actions[id].expiresAt == LIFETIME;
    var s2 := Apply(s1, steps[1]);
    assert Takes(s2.actions, id, p);
    run := [INITIAL, s1, s2, Apply(s2, steps[2])];
  }

  // ---- Send provenance --------------------------------------------------------------------------

  /** Step `p` stored the action `id`: the id was free and the policy did not deny the write. */
  ghost predicate PreparedAt(run: seq<State>, steps: seq<Step>, p: nat, a: Action) {
    && p < |steps| && p < |run| && steps[p].PrepareSend?
    && steps[p].freshId == a.id && a.id !in run[p].actions
    && a.clientId == steps[p].profile.id
    && a.invocation ==
       ToolInvocation("telegram_prepare_send_message", steps[p].accountId, Some(steps[p].chatId), true)
    && !Evaluate(steps[p].profile, a.invocation).effect.Deny?
    && a.arguments == map["text" := steps[p].text] && 1 <= |steps[p].text| <= 4096
    && a.createdAt == steps[p].now && a.expiresAt == steps[p].now + 120.0
  }

  /** Step `b` approved `id` while it was pending and, by that step's clock, strictly before expiry. */
  ghost predicate ApprovedAt(run: seq<State>, steps: seq<Step>, b: nat, id: string) {
    && b < |steps| && b < |run| && steps[b].ApproveStep? && steps[b].id == id
    && IsPending(run[b].actions, id) && steps[b].now < run[b].actions[id].expiresAt
  }

  lemma {:induction false} ActionWasPrepared(run: seq<State>, steps: seq<Step>, j: nat, id: string)
    returns (p: nat)
    requires IsRun(run, steps) && j < |run| && id in run[j].actions
    ensures p < j && PreparedAt(run, steps, p, run[j].actions[id])
    decreases j
  {
    var i := j - 1;
    RunInv(run, steps, i);
    if id in run[i].actions {
      p := ActionWasPrepared(run, steps, i, id);
      ActionsPersist(run, steps, i, j, id);
    } else {
      p := i;
    }
  }

  /** Step `b` approved `id`, and no step since has ended that approval. */
  ghost predicate ApprovedSince(run: seq<State>, steps: seq<Step>, b: nat, j: nat, id: string) {
    && b < j < |run| && j <= |steps| && ApprovedAt(run, steps, b, id)
    && forall k :: b < k < j && id in run[k].actions ==> !EndsApproval(run[k], steps[k], id)
  }

  lemma NewApproval(run: seq<State>, steps: seq<Step>, i: nat, id: string)
    requires IsRun(run, steps) && i < |steps| && id in run[i + 1].actions && run[i + 1].actions[id].status.Approved?
    requires id in run[i].actions ==> !run[i].actions[id].status.Approved?
    ensures ApprovedAt(run, steps, i, id)
  {
    assert run[i + 1] == Apply(run[i], steps[i]);
  }

  lemma ApprovalKept(run: seq<State>, steps: seq<Step>, b: nat, i: nat, id: string)
    requires IsRun(run, steps) && i < |steps| && ApprovedSince(run, steps, b, i, id)
    requires id in run[i].actions && run[i].actions[id].status.Approved?
    requires id in run[i + 1].actions && run[i + 1].actions[id].status.Approved?
    ensures ApprovedSince(run, steps, b, i + 1, id)
  {
    ApprovalStep(run[i], steps[i], id);
    StepPersists(run[i], steps[i], id);
  }

  lemma {:induction false} ApprovedWasApproved(run: seq<State>, steps: seq<Step>, j: nat, id: string)
    returns (b: nat)
    requires IsRun(run, steps) && j < |run| && id in run[j].actions && run[j].actions[id].status.Approved?
    ensures ApprovedSince(run, steps, b, j, id)
    decreases j
  {
    var i := j - 1;
    if id in run[i].actions && run[i].actions[id].status.Approved? {
      b := ApprovedWasApproved(run, steps, i, id);
      ApprovalKept(run, steps, b, i, id);
    } else {
      NewApproval(run, steps, i, id);
      b := i;
    }
  }

  /** What the status means: approved exactly when some approve in time came before and neither a
      lockdown nor a take by the preparing client has followed it. */
  lemma ApprovedIff(run: seq<State>, steps: seq<Step>, j: nat, id: string)
    requires IsRun(run, steps) && j < |run| && id in run[j].actions
    ensures run[j].actions[id].status.Approved? <==> exists b: nat :: ApprovedSince(run, steps, b, j, id)
  {
    if run[j].actions[id].status.Approved? {
      var b := ApprovedWasApproved(run, steps, j, id);
    }
    forall b: nat | ApprovedSince(run, steps, b, j, id) ensures run[j].actions[id].status.Approved? {
      assert run[b + 1] == Apply(run[b], steps[b]);
      ApprovalStays(run, steps, b + 1, j, id);
    }
  }

  lemma {:induction false} CallWasTaken(run: seq<State>, steps: seq<Step>, j: nat, c: nat)
    returns (e: nat)
    requires IsRun(run, steps) && j < |run| && c < |run[j].calls|
    ensures e < j && TakenAt(run, steps, e, run[j].calls[c].action.id, run[j].calls[c].profile)
    decreases j
  {
    var i := j - 1;
    RunInv(run, steps, i);
    assert run[j] == Apply(run[i], steps[i]);
    if c < |run[i].calls| {
      e := CallWasTaken(run, steps, i, c);
      assert run[j].calls[c] == run[i].calls[c].(phase := run[j].calls[c].phase);
    } else {
      e := i;
    }
  }

  /** Where a backend send comes from: a prepare with that account, chat and text, a later approve
      while the action was pending and unexpired, and a still later take by the preparing client that
      the policy of that moment did not deny. */
  ghost predicate Origin(run: seq<State>, steps: seq<Step>, s: Send, id: string, p: nat, b: nat, e: nat) {
    && p < b < e < |steps| && e < |run|
    && id in run[e].actions && PreparedAt(run, steps, p, run[e].actions[id])
    && ApprovedAt(run, steps, b, id)
    && steps[e].TakeStep? && TakenAt(run, steps, e, id, steps[e].profile)
    && steps[e].profile.id == steps[p].profile.id
    && s == Send(steps[p].accountId, steps[p].chatId, steps[p].text)
  }

  lemma SendProvenance(run: seq<State>, steps: seq<Step>, j: nat, k: nat)
    returns (c: nat, p: nat, b: nat, e: nat)
    requires IsRun(run, steps) && j < |run| && k < |run[j].sends|
    ensures Made(run[j], c, k)
    ensures e < j && Origin(run, steps, run[j].sends[k], run[j].calls[c].action.id, p, b, e)
  {
    RunInv(run, steps, j);
    assert WasMade(run[j], k);
    c :| Made(run[j], c, k);
    assert CallOk(run[j], c);
    var id := run[j].calls[c].action.id;
    e := CallWasTaken(run, steps, j, c);
    b := ApprovedWasApproved(run, steps, e, id);
    RunInv(run, steps, b);
    p := ActionWasPrepared(run, steps, b, id);
    ActionsPersist(run, steps, b, e, id);
    ActionsPersist(run, steps, e, j, id);
  }

  /** Different sends come from different actions, so the map from sends to prepares is injective. */
  lemma SendsInjective(run: seq<State>, steps: seq<Step>, j: nat, c: nat, d: nat, k: nat, l: nat)
    requires IsRun(run, steps) && j < |run| && Made(run[j], c, k) && Made(run[j], d, l) && k != l
    ensures run[j].calls[c].action.id != run[j].calls[d].action.id
  {
    RunInv(run, steps, j);
    if c < d {
      assert Apart(run[j], c, d);
    } else {
      assert Apart(run[j], d, c);
    }
  }

  ghost function Approvals(run: seq<State>, steps: seq<Step>, j: nat): set<nat> {
    set b: nat | b < j && b < |steps| && steps[b].ApproveStep? && ApprovedAt(run, steps, b, steps[b].id)
  }

  /** Step `b` approved the action that send `k` executed. */
  ghost predicate ApprovalBehind(run: seq<State>, steps: seq<Step>, j: nat, k: nat, b: nat)
    requires j < |run|
  {
    b in Approvals(run, steps, j) && exists c: nat :: Made(run[j], c, k) && steps[b].id == run[j].calls[c].action.id
  }

  lemma BehindSend(run: seq<State>, steps: seq<Step>, j: nat, k: nat) returns (b: nat)
    requires IsRun(run, steps) && j < |run| && k < |run[j].sends|
    ensures ApprovalBehind(run, steps, j, k, b)
  {
    var c, p, e;
    c, p, b, e := SendProvenance(run, steps, j, k);
    assert ApprovedAt(run, steps, b, steps[b].id);
  }

  lemma BehindDiffer(run: seq<State>, steps: seq<Step>, j: nat, k: nat, l: nat, b: nat)
    requires IsRun(run, steps) && j < |run| && k != l
    requires ApprovalBehind(run, steps, j, k, b)
    ensures !ApprovalBehind(run, steps, j, l, b)
  {
    if ApprovalBehind(run, steps, j, l, b) {
      var c: nat :| Made(run[j], c, k) && steps[b].id == run[j].calls[c].action.id;
      var d: nat :| Made(run[j], d, l) && steps[b].id == run[j].calls[d].action.id;
      SendsInjective(run, steps, j, c, d, k, l);
    }
  }

  /** The approve steps behind the first `k` sends, all different. */
  lemma {:induction false} ApprovalsBehind(run: seq<State>, steps: seq<Step>, j: nat, k: nat) returns (bs: seq<nat>)
    requires IsRun(run, steps) && j < |run| && k <= |run[j].sends|
    ensures |bs| == k && NoDup(bs)
    ensures forall l :: 0 <= l < k ==> ApprovalBehind(run, steps, j, l, bs[l])
    decreases k
  {
    if k == 0 {
      return [];
    }
    bs := ApprovalsBehind(run, steps, j, k - 1);
    var b := BehindSend(run, steps, j, k - 1);
    forall l | 0 <= l < k - 1 ensures bs[l] != b {
      BehindDiffer(run, steps, j, l, k - 1, bs[l]);
    }
    bs := bs + [b];
  }

  /** Sends never outnumber successful local approvals, whatever the profiles' write policies. */
  lemma SendsBoundedByApprovals(run: seq<State>, steps: seq<Step>, j: nat)
    requires IsRun(run, steps) && j < |run|
    ensures |run[j].sends| <= |Approvals(run, steps, j)|
  {
    var bs := ApprovalsBehind(run, steps, j, |run[j].sends|);
    CountDistinct(bs);
    forall l | 0 <= l < |bs| ensures bs[l] in Approvals(run, steps, j) {
      assert ApprovalBehind(run, steps, j, l, bs[l]);
    }
    var made, all := Elems(bs), Approvals(run, steps, j);
    assert all == made + (all - made);
  }
}
