# TgGate: verified model of its protocols

TgGate is a local gateway between MCP clients and a Telegram account driven through TDLib. This
Dafny project models its stateful parts and proves properties of them. `dafny verify dfyconfig.toml`
checks all of it.

**Request correlation.** Synchronous callers wait on tickets; a receive thread completes them;
deadlines expire; `close` and `reopen` recycle the id space. `RouterState` holds the mutex-protected
state as a value with one function per lock region, and relates the bounded retired window to the
unbounded history of retirements. `RequestRouter` is the class, one method per lock region plus the
operations composed from them. `RouterProtocol` is the transition system in which the regions of any
number of concurrent calls interleave, and `RouterRuns` proves what every run satisfies. A ticket's
name is its index in the list of tickets ever made, which plays the part of its heap address.

**The account above it.** `AccountCore` is the class with the fields `TdAccount` guards with its mutex.
Its methods keep an invariant under which the ids of one session are positive and never
repeat. `AccountProtocol` is the transition system of the controller (`begin_authorization`, `stop`), the receive
thread, any number of readers, the caller of `submit_code` and `submit_password`, and TDLib as an
environment that answers each request at most once and sends updates under id zero at any time.
`AccountRuns` shows that this system drives the router only within its contract, so that everything in
`RouterRuns` applies to it, and classifies every reply. `AccountFates` follows every reply
to a read to its end, and `AccountWitnesses` builds runs for the two ends nobody wants.

**Approvals and sends.** `Policy` is the policy engine, `Approval` the approval store, `TelegramService` the
application service over store, audit log and backend. `ServiceModel` is their transition system, where
each step has its own clock reading (which may go backwards), its own profile and its own fresh id, and
where the three parts of an execution (take, backend call, audit) may be interleaved with other calls.
`ServiceRuns` and `ServiceAudit` prove what every run satisfies. `Sanitizer` is the cleaning of external text and
`Utf8` what well-formed UTF-8 is.

**HTTP.** `HttpText`, `Quality` and `AcceptList` prove the cursor loops over `Accept` lists, parameters and
q-values equal to declarative specifications (sections 12.4.2 and 12.5.1 of RFC 9110). `BearerToken` covers the
XOR/OR comparison and the client lookup, `Admission` the atomic counter of concurrent requests.

**Credentials.** `HexToken`, `Credentials` and `ConfigDocument` cover the hexadecimal coding, token
generation, reconciliation, rotation, and the configuration document; `ConfigReading` says key by key what a document means; `HostStart` composes them into the start of
the service and the rotation of a token with the restart that follows. `AuthorizationState` is the session
state machine with generations.

## What the proofs found

- A late reply to a read reaches the error and authorization branches of the receive loop if and only if
  256 retirements have followed its own (`AccountRuns.MissedReplyFate`). `AccountWitnesses.ReadReplyOverruns` is a run that
  gets there: 257 readers wait, the account stops, and TDLib answers the first of them with an error after the
  router has been closed.
- A reply to a read has a fourth fate besides being delivered, discarded or overtaken: if its reader gives up between
  `contains` and `fulfill` (`src/infrastructure/tdlib/TdAccount.cpp:233-235`) the failed `fulfill` drops it, and its id stays
  in the retired window, never to be discarded. `AccountFates.ReadReplyFate` says these four are all there are, and
  `AccountWitnesses.ReadReplyLost` is a run that ends in the fourth.
- Truncation cuts bytes, not characters. UTF-8 text stays UTF-8 if and only if at most 8192 bytes are kept or byte 8192
  starts a character (`Sanitizer.SanitizedStaysUtf8Iff`); 4096 euro signs do not (`Sanitizer.SplitCharacter`). The JSON library
  refuses such a string when the reply is written (`src/mcp/v2026_07_28/ProtocolHandler.cpp:85`), so the client gets the
  error of `src/mcp/http/LocalMcpHttpService.cpp:305` instead of its messages.
- The branch of `request_read` for a missing ticket is never taken: whenever the gate before it is open, the
  router accepts and the id is new (`AccountRuns.GateImpliesTicket`).
- `README.md:10` and `docs/architecture.md:27` call write approvals time-limited, and the refusal text at
  `src/application/TelegramApplicationService.cpp:151` lists "expired". In the code expiry limits approval only: an
  action approved in time stays executable at any later time, until a lockdown or a take by its client
  (`ServiceRuns.ApprovalNeverExpires`, `ServiceRuns.ApprovedIff`; `ServiceRuns.TakenAfterExpiry` is such a run). The model
  follows the code.
- A request can be answered 429 in some run if and only if the server has more threads than
  `maximum_connections` (`Admission.RejectionPossibleIff`). `src/infrastructure/http/SimpleWebHttpHost.cpp:102` and `:106` make
  the two equal and a handler keeps its thread, so the branch at line 115 is dead in the host as `start` builds it
  (`Admission.StartedHostNeverRejects`). With one thread more, a request could be turned away even while nobody is past
  admission.
- Reading a saved configuration back gives the same one if and only if it holds no legacy token, is within
  the bounds, and its client ids are unique and not empty (`ConfigDocument.SaveParseRoundTrip`).
- `start` leaves a file that it can read again exactly if it had nothing to write or no profile has an empty id
  (`HostStart.StartLeavesReady`); `src/application/config/ClientProfileRepository.cpp:64` refuses such profiles.
- An ill-typed `schema_version` leaves `parse` as an exception, because it is read before the `try` block; the
  result `Throws` of `ConfigDocument.Parse` stands for it.

## Model

| member | source | states |
|---|---|---|
| RequestRouter.RequestRouter.Open | src/infrastructure/tdlib/RequestRouter.hpp:39-44 | a fresh unready ticket enters the map exactly when the router accepts and the id is free; otherwise nothing changes |
| RequestRouter.RequestRouter.Contains | src/infrastructure/tdlib/RequestRouter.hpp:46-49 | true exactly for ids in the map |
| RequestRouter.RequestRouter.DiscardLate | src/infrastructure/tdlib/RequestRouter.hpp:51-54 | true exactly for ids in the retired set, which loses that id and nothing else |
| RequestRouter.RequestRouter.FulfillClaim | src/infrastructure/tdlib/RequestRouter.hpp:56-64 | first region of fulfill: hands out the ticket of the id and removes it from the map |
| RequestRouter.RequestRouter.Fulfill | src/infrastructure/tdlib/RequestRouter.hpp:56-72 | both regions without interference: the ticket of the id holds the response and is ready; nothing is retired |
| RequestRouter.RequestRouter.Wait | src/infrastructure/tdlib/RequestRouter.hpp:74-92 | a ready ticket gives its content and changes nothing; an unready one gives the timeout error and retires the id only if the map still holds this very ticket |
| RequestRouter.RequestRouter.WaitTimeout | src/infrastructure/tdlib/RequestRouter.hpp:81-90 | the timeout region alone, with its pointer comparison |
| RequestRouter.RequestRouter.CloseClaim | src/infrastructure/tdlib/RequestRouter.hpp:94-105 | first region of close: stops accepting, retires every id once in some order, collects every ticket, empties the map |
| RequestRouter.RequestRouter.Close | src/infrastructure/tdlib/RequestRouter.hpp:94-114 | both regions without interference: in addition every collected ticket, and no other, is ready with the error |
| RequestRouter.RequestRouter.Reopen | src/infrastructure/tdlib/RequestRouter.hpp:116-121 | accepts again with an empty retired window and the map as it was |
| RequestRouter.RequestRouter.Retire | src/infrastructure/tdlib/RequestRouter.hpp:124-131 | the eviction loop leaves the newest 256 entries and drops exactly the evicted ids from the set |
| RouterState.RetireAllKeepsWindow | src/infrastructure/tdlib/RequestRouter.hpp:99-103 | retiring any number of new ids at once, also more than 256, keeps deque and set equal to the window of the unbounded history |
| RouterState.DiscardSucceedsIff | src/infrastructure/tdlib/RequestRouter.hpp:51-54 | a retired id is still known exactly when it was not discarded and fewer than 256 retirements followed |
| RouterProtocol.StepKeepsInv | src/infrastructure/tdlib/RequestRouter.hpp:39-131 | every lock region of every operation keeps the invariant relating map, tickets, owners, contents and retired window |
| RouterProtocol.OwnerStep | src/infrastructure/tdlib/RequestRouter.hpp:56-64 | a ticket is created only by an accepted open of its id, and becomes fulfilled only by the fulfill of its id in its epoch while pending |
| RouterRuns.RunForward | src/infrastructure/tdlib/RequestRouter.hpp:56-114 | along every run a claim, a completion and a returned result are final |
| RouterRuns.ClaimedOnce | src/infrastructure/tdlib/RequestRouter.hpp:56-114 | at most one step of a run takes a given ticket out of the map: one fulfill, one timeout branch or one close, which then owns it |
| RouterRuns.ReadyOnce | src/infrastructure/tdlib/RequestRouter.hpp:65-69 | a ticket becomes ready at most once, stays ready, and never carries both a response and an error |
| RouterRuns.ResponseProvenance | src/infrastructure/tdlib/RequestRouter.hpp:56-92 | a response that wait returns is the one passed to the fulfill that claimed that ticket, and no error comes with it |
| RouterRuns.FulfilledYetTimedOut | src/infrastructure/tdlib/RequestRouter.hpp:79-90 | if fulfill claimed the ticket but wait reports a timeout, the waiter looked before the publication, and its timeout branch changed neither map nor window |
| RouterRuns.RetiredWindow | src/infrastructure/tdlib/RequestRouter.hpp:51-54 | in every reachable state the deque is the last 256 retirements since reopen, the set is those minus the discarded, and discard_late succeeds exactly for undiscarded ids in the window |
| RouterRuns.DiscardedOnce | src/infrastructure/tdlib/RequestRouter.hpp:51-54 | discard_late succeeds at most once per id between two reopens |
| RouterRuns.OldEpochIsolated | src/infrastructure/tdlib/RequestRouter.hpp:81-90 | a caller still finishing with a ticket of an earlier epoch changes that ticket and nothing else, although its id may be in use again |
| RouterRuns.CloseLeavesNonePending | src/infrastructure/tdlib/RequestRouter.hpp:94-114 | after a close no earlier ticket is pending or mapped ever again; one still unready is in the hands of a fulfill or close, or abandoned by its own timeout |
| AccountCore.TdAccount.Send | src/infrastructure/tdlib/TdAccount.cpp:325 | every send takes the next id, larger than all ids sent before in the session |
| AccountCore.TdAccount.SubmitInput | src/infrastructure/tdlib/TdAccount.cpp:94-136 | an input is accepted exactly when it is not empty, none is in flight, there is a manager and TDLib waits for this kind; it is sent under a new id that is then in flight |
| AccountCore.TdAccount.AllocateRead | src/infrastructure/tdlib/TdAccount.cpp:313-326 | a positive id, never sent before in the session, is allocated exactly when running, not stopping, with a manager and authorized; the request is sent only if a ticket was given |
| AccountCore.TdAccount.ClearAuthorizationInput | src/infrastructure/tdlib/TdAccount.cpp:303-306 | releases the in-flight input only under its own id, which was sent as an input in this session |
| AccountCore.TdAccount.SetStatusTo | src/infrastructure/tdlib/TdAccount.cpp:356-360 | a state update releases the in-flight input |
| AccountCore.TdAccount.MarkStop | src/infrastructure/tdlib/TdAccount.cpp:187-195 | first region of stop: one close request per session, under a new id |
| AccountCore.TdAccount.ResetSession | src/infrastructure/tdlib/TdAccount.cpp:198-206 | the fields after the receive thread has been joined |
| AccountCore.TdAccount.BeginSession | src/infrastructure/tdlib/TdAccount.cpp:77-88 | a new session: running, ids from one again, no error |
| AccountCore.TdAccount.MarkClosedByTdlib | src/infrastructure/tdlib/TdAccount.cpp:257-261 | the fields after TDLib closed the session |
| AccountCore.TdAccount.SendControl | src/infrastructure/tdlib/TdAccount.cpp:268-294 | with a manager, one control request under a new id; without, nothing |
| AccountCore.TdAccount.Restart | src/infrastructure/tdlib/TdAccount.cpp:71-92 | whatever was in flight, the session after a stop and a begin has nothing in flight and has sent one request, under the id 1 |
| AccountProtocol.RouterContractMet | src/infrastructure/tdlib/TdAccount.cpp:71-92 | every use the account makes of its router is within the router's contract: fresh ids within an epoch, reopen only after close |
| AccountProtocol.MissedRead | src/infrastructure/tdlib/TdAccount.cpp:233-237 | an unclassified reply to a read that is not in the map is unknown to the retired set exactly when 256 retirements followed that of its id |
| AccountProtocol.NextKeepsInv | src/infrastructure/tdlib/TdAccount.cpp:187-266 | every step of controller, receive thread, readers, submitter and TDLib keeps the account invariant |
| AccountRuns.RefinesRouterProtocol | src/infrastructure/tdlib/TdAccount.cpp:187-350 | every run of the account is, seen from the router, a run of the router protocol |
| AccountRuns.MissedReplyFate | src/infrastructure/tdlib/TdAccount.cpp:237-243 | a reply to a read that missed the map falls through to the error and authorization branches exactly when it was overrun; otherwise it is discarded and remembered as such |
| AccountRuns.ReplyClassification | src/infrastructure/tdlib/TdAccount.cpp:224-247 | whatever reaches the error and authorization branches, unless overrun, is an update or a reply to a request that was not a read |
| AccountWitnesses.ReadReplyOverruns | src/infrastructure/tdlib/TdAccount.cpp:233-243 | a run of the account, from its start, that ends with TDLib's error reply to a read at the branch meant for errors of authorization requests; the reply to the next read would still be discarded |
| AccountFates.ReadReplyFate | src/infrastructure/tdlib/TdAccount.cpp:224-243 | a reply to a read, once received, is still being classified or has met exactly one fate: delivered to the ticket that owned its id, lost at a failed fulfill with its id retired and not discarded, discarded, or dispatched because overrun |
| AccountFates.FateIsFinal | src/infrastructure/tdlib/TdAccount.cpp:224-243 | a reply meets its fate in one step only |
| AccountWitnesses.ReadReplyLost | src/infrastructure/tdlib/TdAccount.cpp:233-236 | a run of the account, from its start, in which a reader gives up between contains and fulfill and the reply is lost |
| AccountRuns.OnlyReadsDelivered | src/infrastructure/tdlib/TdAccount.cpp:233-236 | what fulfill accepts from the receive loop is a reply to a read of this session, and goes to the pending ticket of that read; no update and no authorization reply is delivered |
| AccountRuns.ReaderGetsItsOwnReply | src/infrastructure/tdlib/TdAccount.cpp:308-341 | the response a reader gets is TDLib's reply to that reader's own request in its own session, with no error beside it |
| AccountRuns.GateImpliesTicket | src/infrastructure/tdlib/TdAccount.cpp:315-324 | a read that passes the gate always gets a ticket, under an id not used before in the session |
| AccountRuns.ReadsNeedAuthorization | src/infrastructure/tdlib/TdAccount.cpp:313-326 | a read is sent to TDLib exactly when one is asked for while the session runs, is not stopping, and TDLib's last word on the status is that the client is authorized |
| AccountRuns.ReaderOutcome | src/infrastructure/tdlib/RequestRouter.hpp:74-114 | whatever wait tells a reader is TDLib's reply and no error, or no reply and one of three errors: timed out, account stopped, authorization closed |
| AccountRuns.WhatIsSent | src/infrastructure/tdlib/TdAccount.cpp:94-136 | an authorization input is sent exactly when one is accepted; a request of the account's own exactly when a live session is told to stop, when one has begun, and when TDLib asks for parameters or for the phone number |
| AccountRuns.LoopEndsAtItsHead | src/infrastructure/tdlib/TdAccount.cpp:224-231 | the receive loop ends only at its head, when the session no longer runs or has no manager |
| AccountRuns.StopThenBegin | src/infrastructure/tdlib/TdAccount.cpp:71-88 | the stop inside begin_authorization goes on to a new session with a manager, and any other stop ends without one |
| AccountRuns.NoManagerUntilBegin | src/infrastructure/tdlib/TdAccount.cpp:187-206 | once stopped, a session has no manager again before the next begin_authorization |
| AccountRuns.ClosedLeavesNoReader | src/infrastructure/tdlib/TdAccount.cpp:251-261 | once the receive thread has dealt with TDLib's closing, no reader is pending, the router does not accept and the gate of request_read is shut |
| AccountRuns.ClosedStopsReceiving | src/infrastructure/tdlib/TdAccount.cpp:225-261 | and in that session nothing more is received and the receive loop can end, so that stop can join it |
| AccountRuns.InputsExclusive | src/infrastructure/tdlib/TdAccount.cpp:94-136 | between two accepted inputs of one session there is a state update, or TDLib's error reply to the first of them |
| AccountRuns.InputIff | src/infrastructure/tdlib/TdAccount.cpp:238-247 | in a live session an id is in flight exactly when an input was accepted under it in this session and neither a state update nor its own error reply has followed; no other error releases it |
| AccountRuns.StatusIff | src/infrastructure/tdlib/TdAccount.cpp:187-260 | a status that only TDLib reports is current exactly when its update was the last thing to assign a status |
| AccountRuns.AcceptsIff | src/infrastructure/tdlib/TdAccount.cpp:94-136 | a live session accepts an input exactly when TDLib's last word on the status asks for it and every input accepted in the session has been answered |
| AuthorizationState.AuthorizationStateMachine.BeginSession | src/domain/telegram/AuthorizationStateMachine.cpp:5-12 | a new generation, larger than the old one, in the first state with nothing in flight |
| AuthorizationState.AuthorizationStateMachine.ObserveState | src/domain/telegram/AuthorizationStateMachine.cpp:14-19 | an update of this generation sets the state and releases the input; any other changes nothing |
| AuthorizationState.AuthorizationStateMachine.FailSession | src/domain/telegram/AuthorizationStateMachine.cpp:21-26 | likewise for a failure |
| AuthorizationState.AuthorizationStateMachine.TryBeginInput | src/domain/telegram/AuthorizationStateMachine.cpp:28-60 | accepted exactly in this generation, with none in flight, in the state that wants this input; each refusal names its first cause |
| AuthorizationState.GenerationsGrow | src/domain/telegram/AuthorizationStateMachine.cpp:5-12 | generations never decrease, and increase between two moments exactly when a session began in between |
| AuthorizationState.StaleEventsIgnored | src/domain/telegram/AuthorizationStateMachine.cpp:14-35 | leaving every event of another generation out of any run gives the same final snapshot |
| AuthorizationState.InFlightIff | src/domain/telegram/AuthorizationStateMachine.cpp:14-46 | in every run an input is in flight exactly when one was accepted in this session and no update or failure of this session has followed |
| AuthorizationState.AcceptsIff | src/domain/telegram/AuthorizationStateMachine.cpp:14-60 | in every run an input is acceptable exactly when the last thing that happened to this session is an update to the state that wants it |
| AuthorizationState.InputsExclusive | src/domain/telegram/AuthorizationStateMachine.cpp:28-46 | between two accepted inputs of one session there is an update or a failure of that session |
| Policy.Evaluate | src/domain/policy/PolicyEngine.cpp:13-41 | not denied exactly when enabled, account, tool and chat are allowlisted and a write is not denied outright; a write is allowed without approval only under auto-approve |
| Approval.ApprovalService.Prepare | src/domain/approval/ApprovalService.cpp:49-67 | a pending action with a two-minute lifetime is stored unless its id is taken; a stored action is never overwritten |
| Approval.ApprovalService.FindAndExpire | src/domain/approval/ApprovalService.cpp:69-78 | expires the action if and only if it is pending and its time has come, and returns what the store then holds |
| Approval.ApprovalService.ApproveAction | src/domain/approval/ApprovalService.cpp:80-88 | succeeds exactly for an action pending strictly before its expiry |
| Approval.ApprovalService.DenyAction | src/domain/approval/ApprovalService.cpp:90-98 | likewise for denial |
| Approval.ApprovalService.TakeApprovedForExecution | src/domain/approval/ApprovalService.cpp:100-118 | succeeds exactly for an approved action of this client that the current policy does not deny, whatever the clock; a policy denial denies the action |
| Approval.ApprovalService.PendingActions | src/domain/approval/ApprovalService.cpp:120-129 | returns every pending or approved action once and no other |
| Approval.ApprovalService.LockdownAll | src/domain/approval/ApprovalService.cpp:131-138 | denies every pending or approved action and changes nothing else |
| ServiceModel.StepMovesStore | src/domain/approval/ApprovalService.cpp:49-138 | no operation removes or overwrites an action; a status moves only from pending to approved, denied or expired, or from approved to executed or denied |
| ServiceModel.StepKeepsInv | src/application/TelegramApplicationService.cpp:125-163 | every operation keeps stored actions complete, executions apart from each other, and every backend call traced to one execution |
| ServiceRuns.StoredActionsComplete | src/application/TelegramApplicationService.cpp:130-140 | in every reachable state each stored action is a write with a chat id and a text of 1 to 4096 bytes, so execution never dereferences a missing field |
| ServiceRuns.ActionsPersist | src/domain/approval/ApprovalService.cpp:49-138 | over whole runs an action keeps everything but its status; denied, executed and expired are absorbing, approved never becomes pending or expired |
| ServiceRuns.TakenOnce | src/domain/approval/ApprovalService.cpp:100-118 | an action is taken for execution at most once |
| ServiceRuns.LockdownIsFinal | src/domain/approval/ApprovalService.cpp:131-138 | no action that existed at a lockdown is ever taken after it |
| ServiceRuns.RefusalIsFinal | src/domain/approval/ApprovalService.cpp:69-114 | an action denied, approved or denied too late, or refused by policy at take time is never taken afterwards, whatever the policy becomes |
| ServiceRuns.ApprovalNeverExpires | src/domain/approval/ApprovalService.cpp:69-118 | an approved action stays approved at any clock reading until a lockdown or a take by its client, and until then a take succeeds exactly for that client under a policy that does not deny |
| ServiceRuns.TakenAfterExpiry | src/domain/approval/ApprovalService.cpp:69-118 | a run for every write the policy does not deny and every time from its expiry on: approved before expiry, taken then |
| ServiceRuns.ApprovedIff | src/domain/approval/ApprovalService.cpp:80-138 | in every reachable state an action is approved exactly when some approve came while it was pending and strictly before expiry, and no lockdown and no take by its client has followed |
| ServiceRuns.EndedIff | src/domain/approval/ApprovalService.cpp:69-138 | in every reachable state an action is denied, expired or executed exactly when an earlier step ended it so: touched too late while pending, denied in time, taken by its client under a policy that denies or does not, or locked down while open |
| ServiceRuns.SendProvenance | src/application/TelegramApplicationService.cpp:125-163 | every backend send comes from a prepare with the same account, chat and text, a later approve in time, and a still later take by the same client under a policy that did not deny |
| ServiceRuns.SendsInjective | src/application/TelegramApplicationService.cpp:146-156 | different sends come from different prepared actions |
| ServiceRuns.SendsBoundedByApprovals | src/application/TelegramApplicationService.cpp:146-163 | sends never outnumber the approve steps that succeeded in time, also for profiles that auto-approve |
| ServiceAudit.AuditGrows | src/application/TelegramApplicationService.cpp:47-63 | every earlier audit log is a prefix of every later one |
| ServiceAudit.AuditMatchesSends | src/application/TelegramApplicationService.cpp:153-162 | when no execution is under way, execution entries and backend sends correspond one to one, with the same account, chat and outcome and the client, tool and action of the execution, in every interleaving |
| ServiceAudit.EntryProvenance | src/application/TelegramApplicationService.cpp:146-162 | in every interleaving an execution entry names the client that took the action, the tool, and the account and chat it was prepared for, and says ok exactly if the backend answered that execution with a message |
| ServiceAudit.ExecuteKeepsOrder | src/application/TelegramApplicationService.cpp:146-163 | an execution run on its own keeps execution entries and sends equal in number and order |
| ServiceAudit.OthersKeepOrder | src/application/TelegramApplicationService.cpp:73-144 | and so does every other operation of the service |
| TelegramService.AuditService.Record | src/application/AuditService.cpp:5-8 | appends the entry and keeps the earlier ones |
| TelegramService.TelegramApplicationService.Prepare | src/application/TelegramApplicationService.cpp:125-144 | a good text that policy does not deny is stored and audited as prepared; a refusal stores nothing |
| TelegramService.TelegramApplicationService.ExecuteApprovedAction | src/application/TelegramApplicationService.cpp:146-163 | sends exactly the account, chat and text of the taken action, once, and audits the outcome; without a take nothing is sent |
| TelegramService.TelegramApplicationService.ListChats | src/application/TelegramApplicationService.cpp:73-96 | asks the backend only when policy allows, answers only if it answered, with the allowlisted chats, and audits the outcome |
| TelegramService.TelegramApplicationService.GetMessages | src/application/TelegramApplicationService.cpp:98-123 | likewise, with the limit capped at 100 and every text sanitised |
| TelegramService.VisibleIsAllowlisted | src/application/TelegramApplicationService.cpp:88-93 | the chats shown are exactly the allowlisted ones |
| TelegramService.VisibleConcat | src/application/TelegramApplicationService.cpp:88-93 | in the backend's order: the selection distributes over concatenation |
| TelegramService.VisibleOne | src/application/TelegramApplicationService.cpp:88-93 | a single chat is shown, once, exactly if its id is on the allowlist |
| Sanitizer.RemoveControlBytes | src/application/TelegramApplicationService.cpp:15-17 | the in-place removal leaves the kept bytes at the front of the buffer |
| Sanitizer.FilterConcat | src/application/TelegramApplicationService.cpp:15-17 | filtering distributes over concatenation, so it keeps order and multiplicity |
| Sanitizer.FilterOne | src/application/TelegramApplicationService.cpp:15-17 | a single byte below 0x20 goes unless it is a newline or a tab; every other byte stays |
| Sanitizer.SanitizeExternalText | src/application/TelegramApplicationService.cpp:14-24 | in-place removal and truncation equal filter and prefix |
| Sanitizer.SanitizedText | src/application/TelegramApplicationService.cpp:14-24 | at most 8192 + 15 bytes, no control byte but newline and tab, and idempotent, also on truncated text |
| Sanitizer.SanitizedStaysUtf8Iff | src/application/TelegramApplicationService.cpp:14-24 | UTF-8 text stays UTF-8 exactly when at most 8192 bytes are kept or byte 8192 of what is kept starts a character |
| Sanitizer.SplitCharacter | src/application/TelegramApplicationService.cpp:19-22 | a text of 4096 three-byte characters is UTF-8 and its sanitised form is not |
| HttpText.AsciiEqualIgnoreCase | src/mcp/http/LocalMcpHttpService.cpp:16-24 | equal lengths and equal elements up to a folding; the header models pass ASCII case folding of characters and of bytes |
| HttpText.LowerIdentifies | src/mcp/http/LocalMcpHttpService.cpp:18-22 | folding identifies the upper and the lower case of each of the 26 letters and nothing else |
| HttpText.TrimAsciiWhitespace | src/mcp/http/LocalMcpHttpService.cpp:84-88 | the two cursor loops compute the trimmed text |
| HttpText.TrimPad | src/mcp/http/LocalMcpHttpService.cpp:84-88 | surrounding whitespace never changes the trimmed text |
| HttpText.TrimmedEnds | src/mcp/http/LocalMcpHttpService.cpp:84-88 | and no whitespace surrounds it |
| HttpText.TrimIs | src/mcp/http/LocalMcpHttpService.cpp:84-88 | whatever consists of space, tab, line feed, vertical tab, form feed and carriage return on both sides goes, and no more |
| HttpText.JoinSplit | src/mcp/http/LocalMcpHttpService.cpp:119-131 | splitting at a separator loses nothing and leaves no separator in a piece |
| HttpText.SplitJoin | src/mcp/http/LocalMcpHttpService.cpp:119-131 | splitting what was joined gives the pieces back |
| Quality.CheckWeight | src/mcp/http/LocalMcpHttpService.cpp:101-111 | a q-value is accepted exactly when it is "0" or "1", alone or with a point and one or more digits, and its exact decimal value lies above 0 and at most at 1, for any number of digits |
| Quality.FractionBounds | src/mcp/http/LocalMcpHttpService.cpp:107-111 | a decimal fraction lies in [0, 1) and is zero exactly when all its digits are |
| Quality.FractionIsExact | src/mcp/http/LocalMcpHttpService.cpp:103-111 | the value compared is the exact decimal one: the digits as a number, divided by ten once for each |
| Quality.PositiveIff | src/mcp/http/LocalMcpHttpService.cpp:101-111 | the exact decimal value lies above 0 and at most at 1 exactly for "1", a one with only zeros after the point, and a zero with only digits after it, not all zero |
| Quality.QualityNamed | src/mcp/http/LocalMcpHttpService.cpp:98-101 | a parameter is a q parameter in either case and with any whitespace around its name and value |
| Quality.HasPositiveQualityLoop | src/mcp/http/LocalMcpHttpService.cpp:95-117 | the cursor loop: true exactly when no parameter is a q parameter, or the first one has a positive weight |
| Quality.AppendParameters | src/mcp/http/LocalMcpHttpService.cpp:95-117 | appending parameters changes nothing if a q parameter is already there, and otherwise they decide |
| AcceptList.AcceptsMediaType | src/mcp/http/LocalMcpHttpService.cpp:119-132 | the offset loop: true exactly when some element between commas names the type, ignoring case, with positive quality |
| AcceptList.AcceptsHomomorphism | src/mcp/http/LocalMcpHttpService.cpp:119-132 | joining two lists by a comma accepts what either accepts, so order never matters |
| AcceptList.AcceptsSpacedList | src/mcp/http/LocalMcpHttpService.cpp:119-132 | any of the six whitespace characters after a comma changes nothing |
| AcceptList.AcceptsOneType | src/mcp/http/LocalMcpHttpService.cpp:119-132 | a single bare type with such whitespace around it is accepted exactly if it is the expected type, letter for letter in either case |
| AcceptList.PrintedList | src/mcp/http/LocalMcpHttpService.cpp:119-132 | writing out any unquoted list of types, parameters and weights with any whitespace and testing the text gives the abstract answer, under the rule that a type must be listed explicitly |
| BearerToken.MatchesBearerToken | src/mcp/http/LocalMcpHttpService.cpp:33-47 | the XOR/OR loop accepts exactly the scheme, ignoring case, followed by the expected bytes |
| BearerToken.MatchesIff | src/mcp/http/LocalMcpHttpService.cpp:36-40 | a header matches exactly if it is each letter of Bearer in either case, one space, and then the expected bytes |
| BearerToken.FindClient | src/mcp/http/LocalMcpHttpService.cpp:251-255 | finds the first enabled profile whose token the header carries, or none |
| BearerToken.SelectionIsOrderIndependent | src/mcp/http/LocalMcpHttpService.cpp:251-255 | with distinct tokens the selected client does not depend on the order of the profiles |
| HexToken.HexEncodeLoop | src/application/config/McpHostConfigurationRepository.cpp:47-52 | two lower-case digits per byte, in order |
| HexToken.HexDecodeLoop | src/application/config/McpHostConfigurationRepository.cpp:54-66 | refuses the empty and the odd text and the first bad pair, else decodes pair by pair |
| HexToken.HexRoundTrip | src/application/config/McpHostConfigurationRepository.cpp:47-66 | decoding what was encoded gives it back, for every byte string but the empty one, which is refused |
| HexToken.EncodedAt | src/application/config/McpHostConfigurationRepository.cpp:47-52 | each byte becomes the digit of its higher and then of its lower four bits, from 0123456789abcdef |
| HexToken.GenerateProtectedBearerToken | src/application/config/McpHostConfigurationRepository.cpp:72-87 | the array loop writes the token of the random seed, protected and encoded |
| HexToken.TokensInjective | src/application/config/McpHostConfigurationRepository.cpp:80-84 | distinct seeds give distinct tokens |
| HexToken.TokenIsEncoding | src/application/config/McpHostConfigurationRepository.cpp:73-84 | the token is the hexadecimal encoding of the seed |
| HexToken.UnprotectBearerToken | src/application/config/McpHostConfigurationRepository.cpp:290-300 | the verifier: decodes, decrypts and insists on 64 hexadecimal digits |
| HexToken.GeneratedTokenVerifies | src/application/config/McpHostConfigurationRepository.cpp:72-87 | every generated token passes the verifier and comes back byte for byte |
| Credentials.FindCredential | src/application/config/McpHostConfigurationRepository.cpp:281-288 | the first credential with this id, or none exists |
| Credentials.CheckCredentials | src/application/config/McpHostConfigurationRepository.cpp:236-248 | true exactly when every credential belongs to a profile and verifies |
| Credentials.EnsureClientCredentials | src/application/config/McpHostConfigurationRepository.cpp:219-259 | succeeds only on a legacy token with a sole profile to adopt it and on valid credentials, and then fails only if generation fails; earlier credentials stay unchanged as a prefix, also on failure; every new credential has its own use of the random source; success leaves all profiles covered; called again it changes nothing |
| Credentials.OneCredentialPerProfile | src/application/config/McpHostConfigurationRepository.cpp:219-259 | from an input with unique profile and credential ids, and no credentials beside a legacy token, success leaves exactly one credential per profile and no other |
| Credentials.FilledStaysDistinct | src/application/config/McpHostConfigurationRepository.cpp:249-257 | each new credential has a token made for it alone: if the stored tokens differ and the random source does not repeat, all tokens differ after reconciliation |
| Credentials.SizeTellsChange | src/mcp/http/LocalMcpHttpService.cpp:166-175 | the number of credentials changes exactly when reconciliation changed the configuration, so writing back on that test misses nothing |
| Credentials.RegenerateClientCredential | src/application/config/McpHostConfigurationRepository.cpp:261-279 | replaces the token of the first credential with this id by a generated one and nothing else, or changes nothing |
| Credentials.BuildClients | src/mcp/http/LocalMcpHttpService.cpp:177-193 | the client table pairs every profile with its own decrypted token; it never fails on a reconciled configuration |
| Credentials.OldTokenSelectsNobody | src/mcp/http/LocalMcpHttpService.cpp:177-193 | in the table built from a rotated configuration a header with the old token selects no profile |
| Credentials.NewTokenSelectsOwner | src/mcp/http/LocalMcpHttpService.cpp:177-193 | and a header with the new token selects the enabled profile it was made for |
| HostStart.Start | src/mcp/http/LocalMcpHttpService.cpp:146-215 | reads, reconciles, writes back exactly what changed and builds one client per profile; a disabled host and every failure have no clients; it fails on a readable, enabled document only for a missing profile, credentials that do not verify, a token that cannot be made, or the socket host, and a failure leaves the file alone or reconciled |
| HostStart.StartLeavesReady | src/mcp/http/LocalMcpHttpService.cpp:166-193 | after a start the clients belong to a reconciled configuration with unique ids, and the file holds that configuration exactly if nothing had to be written or no profile has an empty id |
| HostStart.StartTokensDistinct | src/mcp/http/LocalMcpHttpService.cpp:166-193 | so no two clients of a started host share a token; on a first start this needs only a random source that does not repeat |
| HostStart.SecondStartChangesNothing | src/mcp/http/LocalMcpHttpService.cpp:146-196 | if no profile has an empty id, starting again from what a start left gives the same document, configuration and clients and uses no random bytes |
| HostStart.RegenerateToken | src/ui/desktop/DesktopUiState.cpp:129-147 | from any document it reconciles, rotates and saves; if the host was running with distinct profiles and tokens on that configuration, then whether or not the restart succeeds the old token selects nobody, unless the random source repeated it, and if it succeeds the new token selects its enabled profile; a host that is not running keeps its table and the file holds the rotation |
| ConfigDocument.ParseCredentialsLoop | src/application/config/McpHostConfigurationRepository.cpp:139-152 | the loop with its set of ids equals the recursive reading of the array |
| ConfigDocument.ParsedCredentialsIff | src/application/config/McpHostConfigurationRepository.cpp:139-152 | it returns given credentials exactly when the elements are well-formed, hold them in order, and ids are unique and not empty |
| ConfigDocument.SaveParseRoundTrip | src/application/config/McpHostConfigurationRepository.cpp:178-189 | reading back what save wrote gives the same configuration exactly when there is no legacy token, the bounds hold, and client ids are unique and not empty |
| ConfigDocument.ParseIsBounded | src/application/config/McpHostConfigurationRepository.cpp:91-159 | whatever parses is loopback-only, within all limits, with good client ids, and never has both credentials and a legacy token |
| ConfigReading.ParsesIff | src/application/config/McpHostConfigurationRepository.cpp:91-159 | a document gives a configuration exactly if it is version 1 or 2, has known keys only, every key of its type and absent ones at their defaults, a loopback address, a port of 1 to 65535, a body limit of 1 to 16777216, 1 to 128 connections, and for version 2 credentials with unique ids that are not empty |
| ConfigReading.ThrowsIff | src/application/config/McpHostConfigurationRepository.cpp:99-103 | an exception leaves parse exactly if schema_version is present and neither a number nor a boolean |
| ConfigDocument.LegacyMigration | src/application/config/McpHostConfigurationRepository.cpp:223-235 | a version 1 document with a token, reconciled with one profile whose id is not empty, saved and reparsed, holds one credential, that profile's, with the same stored token |
| Admission.AtomicCounter.Dispatch | src/infrastructure/http/SimpleWebHttpHost.cpp:112-126 | alone, a request gives its slot back on every path; 429 when full, 500 when the handler throws |
| Admission.StepKeepsInv | src/infrastructure/http/SimpleWebHttpHost.cpp:112-126 | every atomic operation keeps the counter equal to the requests in flight and those past admission within the maximum |
| Admission.AdmissionBound | src/infrastructure/http/SimpleWebHttpHost.cpp:112-126 | for any number of threads and in every interleaving at most the maximum is past admission, the counter is those plus rejects not yet undone, a decrement never finds zero, and quiescence means zero |
| Admission.RejectedIff | src/infrastructure/http/SimpleWebHttpHost.cpp:115-119 | a request is rejected exactly when, as it is counted, those past admission and pending rejects reach the maximum |
| Admission.RejectionPossibleIff | src/infrastructure/http/SimpleWebHttpHost.cpp:102-119 | some run rejects a request if and only if there are more server threads than the maximum, and then some run rejects one while nobody is past admission |
| Admission.StartedHostNeverRejects | src/infrastructure/http/SimpleWebHttpHost.cpp:102-119 | with as many threads as the maximum, as start sets them, no run rejects a request or undoes an increment |

## Left out

- Concurrency inside `TdAccount` and `RequestRouter` is a transition system over lock regions, not threads; the classes state what one region does to the fields.
- Condition variables, deadlines and liveness: a waiter that wakes is a step, and nothing says when it wakes.
- RequestRouter.RequestRouter.Wait: starts where the condition variable has returned, and leaves the response in the ticket, since each ticket is waited on once.
- TDLib, its objects and its network: an environment that answers a request at most once; a reply is an error, an authorization update or anything else.
- Request ids, session generations and clock readings are unbounded, so the wrap-around of 64-bit ids is not modelled.
- AccountCore.TdAccount.SubmitInput: stands for `submit_code` and `submit_password`, which differ in the status they demand and in their texts; the secret itself is only empty or not.
- `TdAccount::list_chats` and `get_messages`: loops over reads whose replies are decoded field by field.
- The wiping of secrets, and anything about their strength.
- Preparing an action and auditing it are one step of `ServiceModel`; taking, sending and auditing an execution are three.
- Simple-Web-Server is not part of this model: what is used of it is that a handler runs on one of `thread_pool_size` threads from start to end.
- The JSON form of replies, and most error texts: a refusal is a datatype value.
- `create_secure_id`: the id of a prepared action is a parameter, and may collide with a stored one.
- DPAPI and the random source are functions that may fail; ciphertext is assumed not empty and to decrypt to what was encrypted.
- HexToken.HexDecodeLoop: a pair that is not two hexadecimal digits is read by a parameter, because the stream extraction of the source accepts some such pairs.
- JSON text, floating-point numbers in it, and file access: `ConfigDocument` starts from a tree, with integers narrowed as the library narrows them.
- Quoted strings in header parameters, and duplicate headers.
- HostStart.Start: the status texts are not modelled, and whether the socket host starts is a parameter.
- The long chain of request checks of `LocalMcpHttpService`, `ToolRegistry` and the protocol handlers: dispatch that one reading settles.
- `AccountRepository`, `RuntimeLayout` and the user interface.
