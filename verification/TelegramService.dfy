/** TelegramApplicationService over its approval store, audit log and backend, called sequentially.
    The backend's answers, the clock readings and the fresh id are parameters. */
module TelegramService {
  import opened Common
  import opened Policy
  import opened Approval
  import opened ServiceModel
  import SA = ServiceAudit
  import Sanitizer

  datatype Answer<+T> = Ok(value: T) | Err(error: string)

  datatype Chat = Chat(id: int, title: string)
  datatype Message = Message(id: int, chatId: int, text: string)

  datatype Refusal = BadTextLength | ByPolicy(reason: string) | NotExecutable | ByBackend(error: string)

  datatype Reply =
    | Refused(why: Refusal)
    | Prepared(actionId: string, expiresAt: real)
    | Delivered(messageId: int, chatId: int)
    | Chats(chats: seq<Chat>)
    | Messages(messages: seq<Message>)

  class AuditService {
    var entries: seq<AuditEntry>

    constructor ()
      ensures entries == []
    {
      entries := [];
    }

    method Record(entry: AuditEntry)
      modifies this
      ensures entries == old(entries) + [entry]
    {
      entries := entries + [entry];
    }
  }

  /** What the backend is asked to read. */
  datatype Query = ChatsOf(accountId: string) | MessagesOf(accountId: string, chatId: int, limit: nat)

  /** ITelegramService; it remembers what it was asked to send and to read. */
  class TelegramBackend {
    var sends: seq<Send>
    var queries: seq<Query>

    constructor ()
      ensures sends == [] && queries == []
    {
      sends, queries := [], [];
    }

    method SendMessage(accountId: string, chatId: int, text: string, answer: Answer<Message>)
      returns (r: Answer<Message>)
      modifies this`sends
      ensures sends == old(sends) + [Send(accountId, chatId, text)] && r == answer
    {
      sends := sends + [Send(accountId, chatId, text)];
      r := answer;
    }

    method Ask(query: Query)
      modifies this`queries
      ensures queries == old(queries) + [query]
    {
      queries := queries + [query];
    }
  }

  /** The chats a profile may see, in the backend's order. */
  function Visible(p: Profile, chats: seq<Chat>): seq<Chat> {
    if chats == [] then []
    else
      var rest, last := Visible(p, chats[..|chats| - 1]), chats[|chats| - 1];
      if last.id in p.allowedChats then rest + [last] else rest
  }

  lemma {:induction false} VisibleIsAllowlisted(p: Profile, chats: seq<Chat>)
    ensures forall c :: c in Visible(p, chats) <==> c in chats && c.id in p.allowedChats
  {
    if chats != [] {
      VisibleIsAllowlisted(p, chats[..|chats| - 1]);
      assert chats == chats[..|chats| - 1] + [chats[|chats| - 1]];
    }
  }

  lemma {:induction false} VisibleConcat(p: Profile, a: seq<Chat>, b: seq<Chat>)
    ensures Visible(p, a + b) == Visible(p, a) + Visible(p, b)
    decreases |b|
  {
    if b == [] {
      assert a + b == a;
    } else {
      var init := b[..|b| - 1];
      assert (a + b)[..|a + b| - 1] == a + init;
      VisibleConcat(p, a, init);
    }
  }

  lemma VisibleOne(p: Profile, chat: Chat)
    ensures Visible(p, [chat]) == if chat.id in p.allowedChats then [chat] else []
  {
    assert [chat][..0] == [];
  }

  /** What list_chats and get_messages record; no action is named. */
  function ReadEntry(p: Profile, inv: ToolInvocation, answered: bool, at: real): AuditEntry {
    var effect := Evaluate(p, inv).effect;
    Entry(p, inv, effect, if !effect.Allow? then WasDenied else if answered then Succeeded else Failed, None, at)
  }

  function ListInvocation(accountId: string): ToolInvocation {
    ToolInvocation("telegram_list_chats", accountId, None, false)
  }

  function MessagesInvocation(accountId: string, chatId: int): ToolInvocation {
    ToolInvocation("telegram_get_messages", accountId, Some(chatId), false)
  }

  predicate MayUse(p: Profile, accountId: string, tool: string) {
    p.enabled && accountId in p.allowedAccounts && tool in p.allowedTools
  }

  const MAXIMUM_MESSAGES := 100

  function Sanitized(messages: seq<Message>): seq<Message> {
    seq(|messages|, i requires 0 <= i < |messages| => messages[i].(text := Sanitizer.Sanitize(messages[i].text)))
  }

  /** The result loop of list_chats. */
  method VisibleChats(p: Profile, chats: seq<Chat>) returns (visible: seq<Chat>)
    ensures visible == Visible(p, chats)
  {
    visible := [];
    for i := 0 to |chats|
      invariant visible == Visible(p, chats[..i])
    {
      assert chats[..i + 1][..i] == chats[..i];
      if chats[i].id in p.allowedChats {
        visible := visible + [chats[i]];
      }
    }
    assert chats[..|chats|] == chats;
  }

  /** The result loop of get_messages. */
  method SanitizeMessages(messages: seq<Message>) returns (result: seq<Message>)
    ensures result == Sanitized(messages)
    ensures |result| == |messages|
    ensures forall i :: 0 <= i < |messages| ==>
              result[i] == Message(messages[i].id, messages[i].chatId, Sanitizer.Sanitize(messages[i].text))
  {
    result := [];
    for i := 0 to |messages|
      invariant result == Sanitized(messages[..i])
    {
      var text := Sanitizer.SanitizeExternalText(messages[i].text);
      result := result + [messages[i].(text := text)];
    }
    assert messages[..|messages|] == messages;
  }

  class TelegramApplicationService {
    const approvals: ApprovalService
    const auditService: AuditService
    const telegram: TelegramBackend
    ghost var calls: seq<Call>  // the executions so far, for the model

    ghost function State(): State
      reads this, approvals, auditService, telegram
    {
      ServiceModel.State(approvals.actions, calls, telegram.sends, auditService.entries)
    }

    /** What sequential use keeps: the model's invariant, and audit entries and sends in step. */
    ghost predicate Valid()
      reads this, approvals, auditService, telegram
    {
      Inv(State()) && SA.InOrder(State())
    }

    constructor (approvals: ApprovalService, auditService: AuditService, telegram: TelegramBackend)
      requires approvals.actions == map[] && auditService.entries == [] && telegram.sends == []
      ensures this.approvals == approvals && this.auditService == auditService && this.telegram == telegram
      ensures Valid() && State() == INITIAL
    {
      this.approvals, this.auditService, this.telegram, calls := approvals, auditService, telegram, [];
    }

    method Prepare(p: Profile, accountId: string, chatId: int, text: string, freshId: string, now: real, at: real)
      returns (reply: Reply)
      requires Valid()
      modifies approvals, auditService
      ensures Valid() && State() == PrepareSendMessage(old(State()), p, accountId, chatId, text, freshId, now, at)
      ensures reply.Prepared? <==>
                && 1 <= |text| <= 4096
                && p.enabled && accountId in p.allowedAccounts && "telegram_prepare_send_message" in p.allowedTools
                && chatId in p.allowedChats && !p.writePolicy.DenyWrites?
      ensures reply.Prepared? ==> reply == Prepared(freshId, now + 120.0) && freshId in approvals.actions
      ensures auditService.entries == old(auditService.entries) +
                if 1 <= |text| <= 4096 then
                  [AuditEntry(at, p.id, accountId, "telegram_prepare_send_message", Some(chatId),
                     if !reply.Prepared? then Deny else if p.writePolicy.AutoApprove? then Allow else RequireApproval,
                     if reply.Prepared? then WasPrepared else WasDenied,
                     if reply.Prepared? then Some(freshId) else None)]
                else []
      ensures !reply.Prepared? ==> reply.Refused? && approvals.actions == old(approvals.actions)
    {
      SA.OthersKeepOrder(State(), PrepareSend(p, accountId, chatId, text, freshId, now, at));
      if text == "" || |text| > 4096 {
        return Refused(BadTextLength);
      }
      var inv := SendInvocation(accountId, chatId);
      var decision := Evaluate(p, inv);
      if decision.effect == Deny {
        auditService.Record(Entry(p, inv, decision.effect, WasDenied, None, at));
        return Refused(ByPolicy(decision.reason));
      }
      var action := approvals.Prepare(p.id, inv, map["text" := text], freshId, now);
      auditService.Record(Entry(p, inv, decision.effect, WasPrepared, Some(action.id), at));
      reply := Prepared(action.id, action.expiresAt);
    }

    /** The backend call for a taken action and its audit entry. */
    method SendAndAudit(p: Profile, taken: Action, answer: Answer<Message>, at: real) returns (reply: Reply)
      requires Complete(taken)
      modifies this`calls, auditService, telegram`sends
      ensures telegram.sends == old(telegram.sends) + [SendOf(taken)]
      ensures auditService.entries ==
                old(auditService.entries) +
                [AuditEntry(at, p.id, taken.invocation.accountId, taken.invocation.toolName, taken.invocation.chatId,
                            Allow, if answer.Ok? then Succeeded else Failed, Some(taken.id))]
      ensures calls == old(calls) + [Call(p, taken, Audited(|old(telegram.sends)|, answer.Ok?))]
      ensures reply == match answer
                         case Ok(message) => Delivered(message.id, message.chatId)
                         case Err(error) => Refused(ByBackend(error))
    {
      calls := calls + [Call(p, taken, Audited(|telegram.sends|, answer.Ok?))];
      var response := telegram.SendMessage(
        taken.invocation.accountId, taken.invocation.chatId.value, taken.arguments["text"], answer);
      if response.Err? {
        auditService.Record(Entry(p, taken.invocation, Allow, Failed, Some(taken.id), at));
        return Refused(ByBackend(response.error));
      }
      auditService.Record(Entry(p, taken.invocation, Allow, Succeeded, Some(taken.id), at));
      reply := Delivered(response.value.id, response.value.chatId);
    }

    method ExecuteApprovedAction(p: Profile, id: string, now: real, answer: Answer<Message>, at: real)
      returns (reply: Reply)
      requires Valid()
      modifies this`calls, approvals, auditService, telegram`sends
      ensures Valid() && State() == SA.Execute(old(State()), id, p, now, answer.Ok?, at)
      ensures !Takes(old(approvals.actions), id, p) ==>
                && reply == Refused(NotExecutable) && telegram.sends == old(telegram.sends)
                && auditService.entries == old(auditService.entries)
      ensures Takes(old(approvals.actions), id, p) ==>
                && Complete(old(approvals.actions)[id])
                && var a := old(approvals.actions)[id];
                && telegram.sends == old(telegram.sends) +
                     [Send(a.invocation.accountId, a.invocation.chatId.value, a.arguments["text"])]
                && auditService.entries == old(auditService.entries) +
                     [AuditEntry(at, p.id, a.invocation.accountId, a.invocation.toolName, a.invocation.chatId, Allow,
                                 if answer.Ok? then Succeeded else Failed, Some(id))]
                && reply == match answer
                         case Ok(message) => Delivered(message.id, message.chatId)
                         case Err(error) => Refused(ByBackend(error))
    {
      ghost var before := State();
      SA.ExecuteKeepsOrder(before, id, p, now, answer.Ok?, at);
      var action := approvals.TakeApprovedForExecution(id, p, now);
      if action.None? {
        SA.ExecuteRefused(before, id, p, now, answer.Ok?, at);
        return Refused(NotExecutable);
      }
      SA.ExecuteTaken(before, id, p, now, answer.Ok?, at);
      reply := SendAndAudit(p, action.value, answer, at);
    }

    /** A read is decided, answered and audited, and never names an action. The backend is asked only if
        policy allows the read. */
    method ListChats(p: Profile, accountId: string, answer: Answer<seq<Chat>>, at: real) returns (reply: Reply)
      requires Valid()
      modifies auditService, telegram`queries
      ensures Valid()
      ensures State() == Apply(old(State()), LogStep(ReadEntry(p, ListInvocation(accountId), answer.Ok?, at)))
      ensures telegram.queries == old(telegram.queries) +
                if MayUse(p, accountId, "telegram_list_chats") then [ChatsOf(accountId)] else []
      ensures reply.Chats? <==> answer.Ok? && MayUse(p, accountId, "telegram_list_chats")
      ensures auditService.entries == old(auditService.entries) +
                [AuditEntry(at, p.id, accountId, "telegram_list_chats", None,
                   if MayUse(p, accountId, "telegram_list_chats") then Allow else Deny,
                   if !MayUse(p, accountId, "telegram_list_chats") then WasDenied
                   else if answer.Ok? then Succeeded else Failed,
                   None)]
      ensures reply.Chats? ==> reply.chats == Visible(p, answer.value)
    {
      var inv := ListInvocation(accountId);
      var decision := Evaluate(p, inv);
      var entry := ReadEntry(p, inv, answer.Ok?, at);
      SA.OthersKeepOrder(State(), LogStep(entry));
      if decision.effect != Allow {
        auditService.Record(entry);
        return Refused(ByPolicy(decision.reason));
      }
      telegram.Ask(ChatsOf(accountId));
      if answer.Err? {
        auditService.Record(entry);
        return Refused(ByBackend(answer.error));
      }
      var chats := VisibleChats(p, answer.value);
      auditService.Record(entry);
      reply := Chats(chats);
    }

    method GetMessages(p: Profile, accountId: string, chatId: int, limit: nat, answer: Answer<seq<Message>>, at: real)
      returns (reply: Reply)
      requires Valid()
      modifies auditService, telegram`queries
      ensures Valid()
      ensures State() ==
              Apply(old(State()), LogStep(ReadEntry(p, MessagesInvocation(accountId, chatId), answer.Ok?, at)))
      ensures telegram.queries == old(telegram.queries) +
                if MayUse(p, accountId, "telegram_get_messages") && chatId in p.allowedChats
                then [MessagesOf(accountId, chatId, if limit <= 100 then limit else 100)] else []
      ensures reply.Messages? <==>
                answer.Ok? && MayUse(p, accountId, "telegram_get_messages") && chatId in p.allowedChats
      ensures reply.Messages? ==> reply.messages == Sanitized(answer.value)
      ensures auditService.entries == old(auditService.entries) +
                [AuditEntry(at, p.id, accountId, "telegram_get_messages", Some(chatId),
                   if MayUse(p, accountId, "telegram_get_messages") && chatId in p.allowedChats then Allow else Deny,
                   if !(MayUse(p, accountId, "telegram_get_messages") && chatId in p.allowedChats) then WasDenied
                   else if answer.Ok? then Succeeded else Failed,
                   None)]
    {
      var inv := MessagesInvocation(accountId, chatId);
      var decision := Evaluate(p, inv);
      var entry := ReadEntry(p, inv, answer.Ok?, at);
      SA.OthersKeepOrder(State(), LogStep(entry));
      if decision.effect != Allow {
        auditService.Record(entry);
        return Refused(ByPolicy(decision.reason));
      }
      telegram.Ask(MessagesOf(accountId, chatId, if limit < MAXIMUM_MESSAGES then limit else MAXIMUM_MESSAGES));
      if answer.Err? {
        auditService.Record(entry);
        return Refused(ByBackend(answer.error));
      }
      var messages := SanitizeMessages(answer.value);
      auditService.Record(entry);
      reply := Messages(messages);
    }
  }
}
