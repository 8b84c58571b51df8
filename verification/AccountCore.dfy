/** The fields TdAccount guards with its mutex, one value function per lock region, and the class. */
module AccountCore {

  /** The text of authorization_status_, one value per distinct text. */
  datatype Status =
    | Stopped | Starting | Closing | Preparing | WaitingPhone | WaitingCode | WaitingPassword
    | WaitingRegistration | WaitingOtherDevice | Authorized | LoggingOut | Closed | OtherStep

  datatype Input = Code | Password

  /** What a request handed to TDLib was for. */
  datatype Kind = Read | InputSubmit | Control

  /** `input` is authorization_input_request_id_: zero when no input is in flight. */
  datatype Core = Core(nextId: nat, running: bool, stopping: bool, manager: bool, status: Status, input: nat)

  const INITIAL := Core(1, false, false, false, Stopped, 0)

  function WantedBy(kind: Input): Status {
    match kind
    case Code => WaitingCode
    case Password => WaitingPassword
  }

  predicate AcceptsInput(c: Core, kind: Input) {
    c.input == 0 && c.manager && c.status == WantedBy(kind)
  }

  function Allocate(c: Core): Core {
    c.(nextId := c.nextId + 1)
  }

  function Submit(c: Core, kind: Input): Core {
    if AcceptsInput(c, kind) then Allocate(c).(input := c.nextId) else c
  }

  predicate ReadGate(c: Core) {
    c.running && !c.stopping && c.manager && c.status.Authorized?
  }

  predicate SendsClose(c: Core) {
    c.manager && !c.stopping
  }

  function MarkStopping(c: Core): Core {
    if SendsClose(c) then Allocate(c).(stopping := true, status := Closing) else c
  }

  function Reset(c: Core): Core {
    c.(manager := false, input := 0, status := Stopped, stopping := false, running := false)
  }

  function Begin(c: Core): Core {
    c.(status := Starting, stopping := false, manager := true, nextId := 1, running := true)
  }

  function SetStatus(c: Core, st: Status): Core {
    c.(status := st, input := 0)
  }

  function ClearInput(c: Core, id: nat): Core {
    if c.input == id then c.(input := 0) else c
  }

  function MarkClosed(c: Core): Core {
    c.(stopping := true, running := false)
  }

  datatype Sent = Sent(id: nat, kind: Kind)

  class TdAccount {
    var nextRequestId: nat
    var running: bool
    var stopping: bool
    var manager: bool
    var authorizationStatus: Status
    var authorizationInputRequestId: nat
    var lastError: string
    var sent: seq<Sent>  // what this session handed to ClientManager::send

    ghost function Fields(): Core
      reads this
    {
      Core(nextRequestId, running, stopping, manager, authorizationStatus, authorizationInputRequestId)
    }

    /** Ids handed to TDLib in one session are positive, never repeat and lie below the next one, and the
        input in flight is one of them. */
    ghost predicate Valid()
      reads this
    {
      && nextRequestId >= 1
      && (forall i :: 0 <= i < |sent| ==> 1 <= sent[i].id < nextRequestId)
      && (forall i, j :: 0 <= i < j < |sent| ==> sent[i].id < sent[j].id)
      && (authorizationInputRequestId != 0 ==> Sent(authorizationInputRequestId, InputSubmit) in sent)
    }

    constructor ()
      ensures Valid() && Fields() == INITIAL && lastError == "" && sent == []
    {
      nextRequestId, running, stopping, manager := 1, false, false, false;
      authorizationStatus, authorizationInputRequestId, lastError, sent := Stopped, 0, "", [];
    }

    /** next_request_id_++ and the send under that id. */
    method Send(kind: Kind) returns (id: nat)
      requires Valid()
      modifies this`nextRequestId, this`sent
      ensures Valid() && id == old(nextRequestId) && Fields() == Allocate(old(Fields()))
      ensures sent == old(sent) + [Sent(id, kind)] && forall s :: s in old(sent) ==> s.id < id
    {
      id := nextRequestId;
      nextRequestId := nextRequestId + 1;
      sent := sent + [Sent(id, kind)];
    }

    /** submit_code and submit_password, which differ in the status they demand and in their texts. */
    method SubmitInput(kind: Input, secretIsEmpty: bool) returns (accepted: bool)
      requires Valid()
      modifies this
      ensures Valid()
      ensures accepted <==>
                && !secretIsEmpty && old(authorizationInputRequestId) == 0 && old(manager)
                && old(authorizationStatus) == (match kind case Code => WaitingCode case Password => WaitingPassword)
      ensures authorizationInputRequestId == if accepted then old(nextRequestId) else old(authorizationInputRequestId)
      ensures Fields() == if accepted then Submit(old(Fields()), kind) else old(Fields())
      ensures sent == if accepted then old(sent) + [Sent(old(nextRequestId), InputSubmit)] else old(sent)
      ensures accepted ==> lastError == old(lastError)
      ensures !accepted && !secretIsEmpty && old(authorizationInputRequestId) != 0 ==>
                lastError == "An authorization input request is already in flight"
    {
      if secretIsEmpty {
        lastError := if kind == Code then "Authentication code is required" else "2FA password is required";
        return false;
      }
      if authorizationInputRequestId != 0 {
        lastError := "An authorization input request is already in flight";
        return false;
      }
      if !manager || authorizationStatus != WantedBy(kind) {
        lastError := if kind == Code then "TDLib is not waiting for an authentication code"
                                     else "TDLib is not waiting for a 2FA password";
        return false;
      }
      var id := Send(InputSubmit);
      authorizationInputRequestId := id;
      return true;
    }

    /** The locked region of request_read. Zero stands for "not authorized"; `ticketed` is whether the router
        gave a ticket, without which the id is used up and nothing is sent. */
    method AllocateRead(ticketed: bool) returns (id: nat)
      requires Valid()
      modifies this`nextRequestId, this`sent
      ensures Valid()
      ensures id != 0 <==>
                old(running) && !old(stopping) && old(manager) && old(authorizationStatus) == Authorized
      ensures Fields() == if id != 0 then Allocate(old(Fields())) else old(Fields())
      ensures id != 0 ==> id == old(nextRequestId) && forall s :: s in old(sent) ==> s.id != id
      ensures sent == if id != 0 && ticketed then old(sent) + [Sent(id, Read)] else old(sent)
    {
      if !running || stopping || !manager || authorizationStatus != Authorized {
        return 0;
      }
      if ticketed {
        id := Send(Read);
      } else {
        id := nextRequestId;
        nextRequestId := nextRequestId + 1;
      }
    }

    /** An error reply releases the input in flight only under the id it was sent with. */
    method ClearAuthorizationInput(id: nat)
      requires Valid()
      modifies this`authorizationInputRequestId
      ensures Valid() && Fields() == ClearInput(old(Fields()), id)
      ensures authorizationInputRequestId ==
              if id == old(authorizationInputRequestId) then 0 else old(authorizationInputRequestId)
      ensures authorizationInputRequestId != old(authorizationInputRequestId) ==> Sent(id, InputSubmit) in sent
    {
      if authorizationInputRequestId == id {
        authorizationInputRequestId := 0;
      }
    }

    method SetStatusTo(value: Status)
      requires Valid()
      modifies this`authorizationStatus, this`authorizationInputRequestId
      ensures Valid() && Fields() == SetStatus(old(Fields()), value)
      ensures authorizationStatus == value && authorizationInputRequestId == 0
    {
      authorizationStatus, authorizationInputRequestId := value, 0;
    }

    /** process_response, send_tdlib_parameters and send_phone_number, which differ in what they send. */
    method SendControl()
      requires Valid()
      modifies this`nextRequestId, this`sent
      ensures Valid() && Fields() == if manager then Allocate(old(Fields())) else old(Fields())
      ensures sent == if manager then old(sent) + [Sent(old(nextRequestId), Control)] else old(sent)
    {
      if manager {
        var _ := Send(Control);
      }
    }

    /** First region of stop. */
    method MarkStop()
      requires Valid()
      modifies this`stopping, this`authorizationStatus, this`nextRequestId, this`sent
      ensures Valid() && Fields() == MarkStopping(old(Fields()))
      ensures if old(manager) && !old(stopping)
              then stopping && authorizationStatus == Closing && sent == old(sent) + [Sent(old(nextRequestId), Control)]
              else Fields() == old(Fields()) && sent == old(sent)
    {
      if manager && !stopping {
        stopping, authorizationStatus := true, Closing;
        var _ := Send(Control);
      }
    }

    /** Third region of stop, after the receive thread has been joined. */
    method ResetSession()
      requires Valid()
      modifies this
      ensures Valid() && Fields() == Reset(old(Fields())) && lastError == old(lastError) && sent == []
      ensures !manager && !running && !stopping && authorizationStatus == Stopped && authorizationInputRequestId == 0
    {
      manager, sent, authorizationInputRequestId := false, [], 0;
      authorizationStatus, stopping, running := Stopped, false, false;
    }

    /** The locked region of begin_authorization, except for the router it reopens. The stop before it has
        left no input in flight; otherwise its id could be given out again. */
    method BeginSession()
      requires Valid() && authorizationInputRequestId == 0
      modifies this
      ensures Valid() && Fields() == Begin(old(Fields())) && lastError == "" && sent == []
      ensures manager && running && !stopping && authorizationStatus == Starting && nextRequestId == 1
    {
      lastError, authorizationStatus, stopping, manager, sent := "", Starting, false, true, [];
      nextRequestId, running := 1, true;
    }

    /** The last region of the Closed branch of the receive loop. */
    method MarkClosedByTdlib()
      requires Valid()
      modifies this`stopping, this`running
      ensures Valid() && Fields() == MarkClosed(old(Fields())) && stopping && !running
    {
      stopping, running := true, false;
    }

    /** stop and begin_authorization run one after the other with nobody reading: whatever was in flight,
        the new session starts with no input in flight and its first request has the id 1. */
    method Restart()
      requires Valid()
      modifies this
      ensures Valid() && Fields() == Allocate(Begin(Reset(MarkStopping(old(Fields()))))) && sent == [Sent(1, Control)]
      ensures authorizationInputRequestId == 0
    {
      MarkStop();
      ResetSession();
      BeginSession();
      SendControl();
    }
  }
}
