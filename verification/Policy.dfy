/** PolicyEngine: who may do what. */
module Policy {
  import opened Common

  datatype Effect = Deny | Allow | RequireApproval
  datatype WritePolicy = DenyWrites | RequireLocalApproval | AutoApprove

  datatype ToolInvocation = ToolInvocation(toolName: string, accountId: string, chatId: Option<int>, isWrite: bool)

  datatype Profile = Profile(
    id: string, enabled: bool,
    allowedAccounts: seq<string>, allowedTools: seq<string>, allowedChats: seq<int>,
    writePolicy: WritePolicy)

  datatype Decision = Decision(effect: Effect, reason: string)

  /** Default deny: anything not allowlisted is denied, and a write never beats the write policy. */
  function Evaluate(p: Profile, inv: ToolInvocation): (d: Decision)
    ensures !d.effect.Deny? <==>
              && p.enabled && inv.accountId in p.allowedAccounts && inv.toolName in p.allowedTools
              && (inv.chatId.Some? ==> inv.chatId.value in p.allowedChats)
              && (inv.isWrite ==> p.writePolicy.RequireLocalApproval? || p.writePolicy.AutoApprove?)
    ensures !d.effect.Deny? ==> (d.effect.RequireApproval? <==> inv.isWrite && p.writePolicy.RequireLocalApproval?)
  {
    if !p.enabled then Decision(Deny, "Client profile is disabled")
    else if inv.accountId !in p.allowedAccounts then Decision(Deny, "Account is not allowed for this client")
    else if inv.toolName !in p.allowedTools then Decision(Deny, "Tool is not allowed for this client")
    else if inv.chatId.Some? && inv.chatId.value !in p.allowedChats then
      Decision(Deny, "Chat is not allowlisted for this client")
    else if !inv.isWrite then Decision(Allow, "Read operation is allowed")
    else
      match p.writePolicy
      case AutoApprove => Decision(Allow, "Write operation is explicitly auto-approved")
      case RequireLocalApproval => Decision(RequireApproval, "Write operation requires local approval")
      case DenyWrites => Decision(Deny, "Write operations are denied")
  }
}
