/** AuthorizationStateMachine: one snapshot, sessions told apart by generation, one input in flight. */
module AuthorizationState {
  import opened Common

  datatype State =
    | Stopped | WaitTdlibParameters | WaitPhoneNumber | WaitEmailAddress | WaitEmailCode | WaitCode
    | WaitRegistration | WaitPassword | WaitOtherDeviceConfirmation | Ready | LoggingOut | Closing
    | Closed | Failed

  datatype Input = PhoneNumber | EmailAddress | EmailCode | Code | Registration | Password

  datatype Snapshot = Snapshot(accountId: string, generation: nat, state: State, inputInFlight: bool, detail: string)

  const INITIAL := Snapshot("", 0, Stopped, false, "")

  function WantedIn(input: Input): State {
    match input
    case PhoneNumber => WaitPhoneNumber
    case EmailAddress => WaitEmailAddress
    case EmailCode => WaitEmailCode
    case Code => WaitCode
    case Registration => WaitRegistration
    case Password => WaitPassword
  }

  datatype Event =
    | Begin(accountId: string)
    | Observe(generation: nat, state: State, detail: string)
    | Fail(generation: nat, detail: string)
    | BeginInput(generation: nat, input: Input)

  predicate Accepts(s: Snapshot, generation: nat, input: Input) {
    generation == s.generation && !s.inputInFlight && s.state == WantedIn(input)
  }

  function Apply(s: Snapshot, e: Event): Snapshot {
    match e
    case Begin(accountId) => Snapshot(accountId, s.generation + 1, WaitTdlibParameters, false, "")
    case Observe(generation, state, detail) =>
      if generation != s.generation then s else s.(state := state, detail := detail, inputInFlight := false)
    case Fail(generation, detail) =>
      if generation != s.generation then s else s.(state := Failed, detail := detail, inputInFlight := false)
    case BeginInput(generation, input) =>
      if Accepts(s, generation, input) then s.(inputInFlight := true) else s
  }

  datatype Refusal = Stale | AlreadyInFlight | NotRequested

  class AuthorizationStateMachine {
    var snapshot: Snapshot

    constructor ()
      ensures snapshot == INITIAL
    {
      snapshot := INITIAL;
    }

    method BeginSession(accountId: string) returns (generation: nat)
      modifies this
      ensures snapshot == Apply(old(snapshot), Begin(accountId))
      ensures snapshot == Snapshot(accountId, old(snapshot).generation + 1, WaitTdlibParameters, false, "")
      ensures generation == snapshot.generation > old(snapshot).generation
    {
      snapshot := Snapshot(accountId, snapshot.generation + 1, WaitTdlibParameters, false, "");
      generation := snapshot.generation;
    }

    method ObserveState(generation: nat, state: State, detail: string)
      modifies this
      ensures snapshot == Apply(old(snapshot), Observe(generation, state, detail))
      ensures generation == old(snapshot).generation ==>
                snapshot == Snapshot(old(snapshot).accountId, generation, state, false, detail)
    {
      if generation != snapshot.generation {
        return;
      }
      snapshot := snapshot.(state := state, detail := detail, inputInFlight := false);
    }

    method FailSession(generation: nat, detail: string)
      modifies this
      ensures snapshot == Apply(old(snapshot), Fail(generation, detail))
      ensures generation == old(snapshot).generation ==>
                snapshot == Snapshot(old(snapshot).accountId, generation, Failed, false, detail)
    {
      if generation != snapshot.generation {
        return;
      }
      snapshot := snapshot.(state := Failed, detail := detail, inputInFlight := false);
    }

    /** The refusal names the first check that fails. */
    method TryBeginInput(generation: nat, input: Input) returns (refusal: Option<Refusal>)
      modifies this
      ensures snapshot == Apply(old(snapshot), BeginInput(generation, input))
      ensures refusal.None? <==> Accepts(old(snapshot), generation, input)
      ensures snapshot == if refusal.None? then old(snapshot).(inputInFlight := true) else old(snapshot)
      ensures refusal == Some(Stale) <==> generation != old(snapshot).generation
      ensures refusal == Some(AlreadyInFlight) <==>
                generation == old(snapshot).generation && old(snapshot).inputInFlight
    {
      if generation != snapshot.generation {
        return Some(Stale);
      }
      if snapshot.inputInFlight {
        return Some(AlreadyInFlight);
      }
      if snapshot.state != WantedIn(input) {
        return Some(NotRequested);
      }
      snapshot := snapshot.(inputInFlight := true);
      return None;
    }
  }

  // ---- Runs -------------------------------------------------------------------------------------

  ghost predicate IsRun(run: seq<Snapshot>, events: seq<Event>) {
    && |run| == |events| + 1
    && run[0] == INITIAL
    && forall i :: 0 <= i < |events| ==> run[i + 1] == Apply(run[i], events[i])
  }

  predicate Targets(e: Event, generation: nat) {
    match e
    case Begin(_) => false
    case Observe(g, _, _) => g == generation
    case Fail(g, _) => g == generation
    case BeginInput(g, _) => g == generation
  }

  /** Generations never go back, and every session between two begins has its own. */
  lemma {:induction false} GenerationsGrow(run: seq<Snapshot>, events: seq<Event>, i: nat, j: nat)
    requires IsRun(run, events) && i <= j < |run|
    ensures run[i].generation <= run[j].generation
    ensures (exists k :: i <= k < j && events[k].Begin?) <==> run[i].generation < run[j].generation
    decreases j
  {
    if i < j {
      GenerationsGrow(run, events, i, j - 1);
      if exists k :: i <= k < j && events[k].Begin? {
        var k :| i <= k < j && events[k].Begin?;
        assert k == j - 1 || (i <= k < j - 1 && events[k].Begin?);
      }
    }
  }

  /** The snapshot after a list of events. */
  function Final(s: Snapshot, events: seq<Event>): Snapshot
    decreases |events|
  {
    if events == [] then s else Final(Apply(s, events[0]), events[1..])
  }

  /** The events that are begins or belong to the session current when they arrive. */
  function Current(s: Snapshot, events: seq<Event>): seq<Event>
    decreases |events|
  {
    if events == [] then []
    else
      var rest := Current(Apply(s, events[0]), events[1..]);
      if events[0].Begin? || Targets(events[0], s.generation) then [events[0]] + rest else rest
  }

  /** Stale events might as well not have happened: leaving them all out of any run changes nothing. */
  lemma {:induction false} StaleEventsIgnored(s: Snapshot, events: seq<Event>)
    ensures Final(s, Current(s, events)) == Final(s, events)
    decreases |events|
  {
    if events != [] {
      var s' := Apply(s, events[0]);
      StaleEventsIgnored(s', events[1..]);
      if events[0].Begin? || Targets(events[0], s.generation) {
        assert Current(s, events)[1..] == Current(s', events[1..]);
      } else {
        assert s' == s;
      }
    }
  }

  ghost predicate AcceptedAt(run: seq<Snapshot>, events: seq<Event>, i: nat) {
    && i < |events| && i < |run| && events[i].BeginInput?
    && Accepts(run[i], events[i].generation, events[i].input)
  }

  /** A state update or a failure of this very session. */
  ghost predicate ReleasesAt(run: seq<Snapshot>, events: seq<Event>, k: nat, generation: nat) {
    && k < |events| && (events[k].Observe? || events[k].Fail?) && Targets(events[k], generation)
  }

  lemma {:induction false} StaysInFlight(run: seq<Snapshot>, events: seq<Event>, i: nat, j: nat)
    requires IsRun(run, events) && i <= j < |run| && run[i].inputInFlight
    requires run[j].generation == run[i].generation
    requires forall k :: i <= k < j ==> !ReleasesAt(run, events, k, run[i].generation)
    ensures run[j].inputInFlight
    decreases j
  {
    if i < j {
      GenerationsGrow(run, events, i, j - 1);
      GenerationsGrow(run, events, j - 1, j);
      StaysInFlight(run, events, i, j - 1);
      assert !ReleasesAt(run, events, j - 1, run[i].generation);
    }
  }

  /** Input `i` was accepted in the session of snapshot `j`, and nothing has released it since. */
  ghost predicate InFlightSince(run: seq<Snapshot>, events: seq<Event>, i: nat, j: nat) {
    && i < j < |run| && AcceptedAt(run, events, i) && run[i].generation == run[j].generation
    && forall k :: i < k < j ==> !ReleasesAt(run, events, k, run[j].generation)
  }

  /** What the flag means: an input is in flight exactly when one was accepted in this session and
      neither an update nor a failure of this session has followed. */
  lemma {:induction false} InFlightIff(run: seq<Snapshot>, events: seq<Event>, j: nat)
    requires IsRun(run, events) && j < |run|
    ensures run[j].inputInFlight <==> exists i: nat :: InFlightSince(run, events, i, j)
    decreases j
  {
    if run[j].inputInFlight {
      InFlightFrom(run, events, j);
    }
    forall i: nat | InFlightSince(run, events, i, j) ensures run[j].inputInFlight {
      GenerationsGrow(run, events, i, i + 1);
      GenerationsGrow(run, events, i + 1, j);
      StaysInFlight(run, events, i + 1, j);
    }
  }

  lemma {:induction false} InFlightFrom(run: seq<Snapshot>, events: seq<Event>, j: nat)
    requires IsRun(run, events) && j < |run| && run[j].inputInFlight
    ensures exists i: nat :: InFlightSince(run, events, i, j)
    decreases j
  {
    var h := j - 1;
    if AcceptedAt(run, events, h) {
      assert InFlightSince(run, events, h, j);
    } else {
      InFlightFrom(run, events, h);
      var i: nat :| InFlightSince(run, events, i, h);
      assert InFlightSince(run, events, i, j);
    }
  }

  /** Event `i` is an update of the session of snapshot `j` to this state, and since then
      no update or failure of it, no begin and no accepted input. */
  ghost predicate ReportedSince(run: seq<Snapshot>, events: seq<Event>, i: nat, j: nat, state: State) {
    && i < j < |run| && j <= |events|
    && events[i].Observe? && events[i].generation == run[i].generation && events[i].state == state
    && forall k :: i < k < j ==>
         !events[k].Begin? && !ReleasesAt(run, events, k, run[i].generation) && !AcceptedAt(run, events, k)
  }

  /** When the gate is open: exactly if the last thing that happened to this session is an update to the
      state that wants this very input. */
  lemma AcceptsIff(run: seq<Snapshot>, events: seq<Event>, j: nat, input: Input)
    requires IsRun(run, events) && j < |run|
    ensures var state := match input
                         case PhoneNumber => WaitPhoneNumber
                         case EmailAddress => WaitEmailAddress
                         case EmailCode => WaitEmailCode
                         case Code => WaitCode
                         case Registration => WaitRegistration
                         case Password => WaitPassword;
            Accepts(run[j], run[j].generation, input) <==> exists i: nat :: ReportedSince(run, events, i, j, state)
  {
    IdleIff(run, events, j, WantedIn(input));
  }

  /** The session waits in a state that only an update reports, with nothing in flight, exactly if that
      update is the last thing that happened to it. */
  lemma {:induction false} IdleIff(run: seq<Snapshot>, events: seq<Event>, j: nat, state: State)
    requires IsRun(run, events) && j < |run| && !state.Stopped? && !state.WaitTdlibParameters? && !state.Failed?
    ensures run[j].state == state && !run[j].inputInFlight <==> exists i: nat :: ReportedSince(run, events, i, j, state)
    decreases j
  {
    if j > 0 {
      var h := j - 1;
      IdleIff(run, events, h, state);
      if run[j].state == state && !run[j].inputInFlight {
        if events[h].Observe? && Targets(events[h], run[h].generation) {
          assert ReportedSince(run, events, h, j, state);
        } else {
          var i: nat :| ReportedSince(run, events, i, h, state);
          GenerationsGrow(run, events, i, h);
          assert ReportedSince(run, events, i, j, state);
        }
      }
      forall i: nat | ReportedSince(run, events, i, j, state) ensures run[j].state == state && !run[j].inputInFlight {
        if i < h {
          assert ReportedSince(run, events, i, h, state);
          GenerationsGrow(run, events, i, h);
        }
      }
    }
  }

  /** Two inputs of one session are never accepted without an update or a failure in between. */
  lemma InputsExclusive(run: seq<Snapshot>, events: seq<Event>, i: nat, j: nat)
    requires IsRun(run, events) && i < j && AcceptedAt(run, events, i) && AcceptedAt(run, events, j)
    requires events[i].generation == events[j].generation
    ensures exists k :: i < k < j && ReleasesAt(run, events, k, events[i].generation)
  {
    if forall k :: i < k < j ==> !ReleasesAt(run, events, k, events[i].generation) {
      StaysInFlight(run, events, i + 1, j);
    }
  }
}
