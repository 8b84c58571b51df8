/** ApprovalService: a store of actions with a status graph. Clock readings and the random id are
    parameters; the clock may go backwards. */
module Approval {
  import opened Common
  import opened Policy

  datatype Status = Pending | Approved | Denied | Executed | Expired

  datatype Action = Action(
    id: string, clientId: string, invocation: ToolInvocation, arguments: map<string, string>,
    createdAt: real, expiresAt: real, status: Status)

  type Store = map<string, Action>

  /** Two minutes, in seconds. */
  const LIFETIME: real := 120.0

  function NewAction(id: string, clientId: string, inv: ToolInvocation, arguments: map<string, string>, now: real)
    : Action
  {
    Action(id, clientId, inv, arguments, now, now + LIFETIME, Pending)
  }

  /** emplace: an id already present keeps its action. */
  function AfterInsert(s: Store, a: Action): Store {
    if a.id in s then s else s[a.id := a]
  }

  function WithStatus(s: Store, id: string, status: Status): Store
    requires id in s
  {
    s[id := s[id].(status := status)]
  }

  /** find_and_expire_locked: only a pending action expires. */
  function Refresh(s: Store, id: string, now: real): Store {
    if id in s && s[id].status.Pending? && now >= s[id].expiresAt then WithStatus(s, id, Expired) else s
  }

  predicate IsPending(s: Store, id: string) {
    id in s && s[id].status.Pending?
  }

  function AfterApprove(s: Store, id: string, now: real): Store {
    var s := Refresh(s, id, now);
    if IsPending(s, id) then WithStatus(s, id, Approved) else s
  }

  function AfterDeny(s: Store, id: string, now: real): Store {
    var s := Refresh(s, id, now);
    if IsPending(s, id) then WithStatus(s, id, Denied) else s
  }

  /** An approved action that this client asks for; whether it is taken is then up to the policy. */
  predicate Claimable(s: Store, id: string, p: Profile) {
    id in s && s[id].status.Approved? && s[id].clientId == p.id
  }

  predicate Takes(s: Store, id: string, p: Profile) {
    Claimable(s, id, p) && !Evaluate(p, s[id].invocation).effect.Deny?
  }

  function AfterTake(s: Store, id: string, p: Profile, now: real): Store {
    var s := Refresh(s, id, now);
    if !Claimable(s, id, p) then s
    else if Takes(s, id, p) then WithStatus(s, id, Executed)
    else WithStatus(s, id, Denied)
  }

  predicate Open(a: Action) {
    a.status.Pending? || a.status.Approved?
  }

  ghost predicate IsOpenIn(s: Store, a: Action) {
    exists id :: id in s && s[id] == a && Open(a)
  }

  function OpenIds(s: Store): set<string> {
    set id | id in s && Open(s[id])
  }

  /** The list holds the actions of these ids, one entry each. */
  ghost predicate Collected(s: Store, done: set<string>, result: seq<Action>) {
    && done <= OpenIds(s) && |result| == |done|
    && (forall a :: a in result ==> IsOpenIn(s, a))
    && forall id :: id in done ==> s[id] in result
  }

  lemma CollectOne(s: Store, done: set<string>, result: seq<Action>, id: string)
    requires Collected(s, done, result) && id in OpenIds(s) && id !in done
    ensures Collected(s, done + {id}, result + [s[id]])
  {
    assert IsOpenIn(s, s[id]);
  }

  lemma AllCollected(s: Store, result: seq<Action>)
    requires Collected(s, OpenIds(s) - {}, result)
    ensures |result| == |OpenIds(s)| && forall a :: a in result <==> IsOpenIn(s, a)
    ensures forall a :: a in result ==> a.status == Pending || a.status == Approved
    ensures forall id :: id in s && (s[id].status == Pending || s[id].status == Approved) ==> s[id] in result
  {
    assert OpenIds(s) - {} == OpenIds(s);
    forall a | IsOpenIn(s, a) ensures a in result {
      var id :| id in s && s[id] == a && Open(a);
      assert id in OpenIds(s);
    }
  }

  lemma Visit(s: Store, rest: set<string>, id: string)
    requires id in rest && id in s
    ensures OpenIds(s) - (rest - {id}) == OpenIds(s) - rest + if Open(s[id]) then {id} else {}
    ensures OpenIds(s) - (rest - {id}) - {id} == OpenIds(s) - rest
  {
  }

  function AfterLockdown(s: Store): Store {
    map id | id in s :: if Open(s[id]) then s[id].(status := Denied) else s[id]
  }

  class ApprovalService {
    var actions: Store

    constructor ()
      ensures actions == map[]
    {
      actions := map[];
    }

    method Prepare(clientId: string, inv: ToolInvocation, arguments: map<string, string>, freshId: string, now: real)
      returns (action: Action)
      modifies this
      ensures action == Action(freshId, clientId, inv, arguments, now, now + 120.0, Pending)
      ensures actions == AfterInsert(old(actions), action)
      ensures actions == if freshId in old(actions) then old(actions) else old(actions)[freshId := action]
    {
      action := NewAction(freshId, clientId, inv, arguments, now);
      if action.id !in actions {
        actions := actions[action.id := action];
      }
    }

    method FindAndExpire(id: string, now: real) returns (found: Option<Action>)
      modifies this
      ensures actions == Refresh(old(actions), id, now)
      ensures found == if id in actions then Some(actions[id]) else None
      ensures actions ==
              if id in old(actions) && old(actions)[id].status == Pending && now >= old(actions)[id].expiresAt
              then old(actions)[id := old(actions)[id].(status := Expired)] else old(actions)
    {
      if id !in actions {
        return None;
      }
      if actions[id].status == Pending && now >= actions[id].expiresAt {
        actions := actions[id := actions[id].(status := Expired)];
      }
      found := Some(actions[id]);
    }

    method ApproveAction(id: string, now: real) returns (result: Option<Action>)
      modifies this
      ensures actions == AfterApprove(old(actions), id, now)
      ensures result.Some? <==>
                id in old(actions) && old(actions)[id].status == Pending && now < old(actions)[id].expiresAt
      ensures result.Some? ==>
                result.value == old(actions)[id].(status := Approved) && actions == old(actions)[id := result.value]
      ensures result.None? ==> actions == Refresh(old(actions), id, now)
    {
      var action := FindAndExpire(id, now);
      if action.None? || action.value.status != Pending {
        return None;
      }
      actions := actions[id := actions[id].(status := Approved)];
      result := Some(actions[id]);
    }

    method DenyAction(id: string, now: real) returns (result: Option<Action>)
      modifies this
      ensures actions == AfterDeny(old(actions), id, now)
      ensures result.Some? <==>
                id in old(actions) && old(actions)[id].status == Pending && now < old(actions)[id].expiresAt
      ensures result.Some? ==>
                result.value == old(actions)[id].(status := Denied) && actions == old(actions)[id := result.value]
      ensures result.None? ==> actions == Refresh(old(actions), id, now)
    {
      var action := FindAndExpire(id, now);
      if action.None? || action.value.status != Pending {
        return None;
      }
      actions := actions[id := actions[id].(status := Denied)];
      result := Some(actions[id]);
    }

    method TakeApprovedForExecution(id: string, profile: Profile, now: real) returns (result: Option<Action>)
      modifies this
      ensures actions == AfterTake(old(actions), id, profile, now)
      ensures result.Some? <==>
                && id in old(actions) && old(actions)[id].status == Approved
                && old(actions)[id].clientId == profile.id
                && !Evaluate(profile, old(actions)[id].invocation).effect.Deny?
      ensures result.Some? ==>
                result.value == old(actions)[id].(status := Executed) && actions == old(actions)[id := result.value]
      ensures result.None? && Claimable(old(actions), id, profile) ==>
                actions == old(actions)[id := old(actions)[id].(status := Denied)]
    {
      var action := FindAndExpire(id, now);
      if action.None? || action.value.status != Approved || action.value.clientId != profile.id {
        return None;
      }
      var decision := Evaluate(profile, action.value.invocation);
      if decision.effect == Policy.Deny {
        actions := actions[id := actions[id].(status := Denied)];
        return None;
      }
      actions := actions[id := actions[id].(status := Executed)];
      result := Some(actions[id]);
    }

    /** The open actions, each once, in an unspecified order. */
    method PendingActions() returns (result: seq<Action>)
      ensures forall a :: a in result <==> IsOpenIn(actions, a)
      ensures forall a :: a in result ==> a.status == Pending || a.status == Approved
      ensures forall id :: id in actions && (actions[id].status == Pending || actions[id].status == Approved) ==>
                actions[id] in result
      ensures |result| == |OpenIds(actions)|
    {
      result := [];
      var rest := actions.Keys;
      while rest != {}
        invariant rest <= actions.Keys
        invariant Collected(actions, OpenIds(actions) - rest, result)
      {
        var id :| id in rest;
        ghost var before := OpenIds(actions) - rest;
        Visit(actions, rest, id);
        rest := rest - {id};
        if actions[id].status == Pending || actions[id].status == Approved {
          CollectOne(actions, before, result, id);
          result := result + [actions[id]];
        }
      }
      AllCollected(actions, result);
    }

    /** Denies every open action in place. */
    method LockdownAll()
      modifies this
      ensures actions == AfterLockdown(old(actions))
      ensures actions.Keys == old(actions).Keys
      ensures forall id :: id in actions ==>
                actions[id] == if old(actions)[id].status == Pending || old(actions)[id].status == Approved
                               then old(actions)[id].(status := Denied) else old(actions)[id]
    {
      var rest := actions.Keys;
      while rest != {}
        invariant rest <= old(actions).Keys && actions.Keys == old(actions).Keys
        invariant forall id :: id in actions ==>
                    actions[id] == if id in rest then old(actions)[id] else AfterLockdown(old(actions))[id]
      {
        var id :| id in rest;
        rest := rest - {id};
        if actions[id].status == Pending || actions[id].status == Approved {
          actions := actions[id := actions[id].(status := Denied)];
        }
      }
    }
  }
}
