/** The admission counter of SimpleWebHttpHost: any number of handler threads, interleaved at every
    atomic operation on active_requests. */
module Admission {
  import opened Common

  /** size_t arithmetic. */
  const MODULUS: int := 0x1_0000_0000_0000_0000

  function FetchAdd(active: nat): nat {
    (active + 1) % MODULUS
  }

  function FetchSub(active: nat): nat {
    (active - 1) % MODULUS
  }

  /** One request: counted with the value fetch_add returned, then past admission or on its way to
      undo its increment, then answered. */
  datatype Request = Counted(previous: nat) | Admitted | Rejecting | Answered(status: int)

  /** `pool` is the number of server threads. A handler runs on one thread from start to end, so no more
      than `pool` requests are inside dispatch at once. */
  datatype Host = Host(active: nat, maximum: nat, pool: nat, requests: map<nat, Request>)

  datatype Step = Count(t: nat) | Compare(t: nat) | Undo(t: nat) | Finish(t: nat, status: int)

  predicate InFlight(r: Request) {
    !r.Answered?
  }

  /** Admitted, or certain to be: the comparison is on a value already read. */
  predicate Past(h: Host, r: Request) {
    r.Admitted? || (r.Counted? && r.previous < h.maximum)
  }

  function Flying(h: Host): set<nat> {
    set t | t in h.requests && InFlight(h.requests[t])
  }

  function PastAdmission(h: Host): set<nat> {
    set t | t in h.requests && Past(h, h.requests[t])
  }

  /** Rejected requests that have not yet taken their increment back. */
  function Overhang(h: Host): set<nat> {
    set t | t in h.requests && InFlight(h.requests[t]) && !Past(h, h.requests[t])
  }

  /** A request is named once, and needs a free server thread to be counted. */
  predicate Enabled(h: Host, step: Step) {
    match step
    case Count(t) => t !in h.requests && |Flying(h)| < h.pool
    case Compare(t) => t in h.requests && h.requests[t].Counted?
    case Undo(t) => t in h.requests && h.requests[t].Rejecting?
    case Finish(t, _) => t in h.requests && h.requests[t].Admitted?
  }

  /** Finish is the guard's destructor: it runs whatever status the handler or its exception gave. */
  function Apply(h: Host, step: Step): Host
    requires Enabled(h, step)
  {
    match step
    case Count(t) => h.(active := FetchAdd(h.active), requests := h.requests[t := Counted(h.active)])
    case Compare(t) =>
      h.(requests := h.requests[t := if h.requests[t].previous >= h.maximum then Rejecting else Admitted])
    case Undo(t) => h.(active := FetchSub(h.active), requests := h.requests[t := Answered(429)])
    case Finish(t, status) => h.(active := FetchSub(h.active), requests := h.requests[t := Answered(status)])
  }

  ghost predicate Inv(h: Host) {
    && h.active == |Flying(h)| <= h.pool < MODULUS
    && |PastAdmission(h)| <= h.maximum
  }

  lemma Split(h: Host)
    ensures PastAdmission(h) !! Overhang(h) && PastAdmission(h) + Overhang(h) == Flying(h)
    ensures |Flying(h)| == |PastAdmission(h)| + |Overhang(h)|
  {
    assert PastAdmission(h) + Overhang(h) == Flying(h);
  }

  lemma Update(h: Host, t: nat, r: Request, active: nat)
    ensures var h' := Host(active, h.maximum, h.pool, h.requests[t := r]);
            && Flying(h') == Flying(h) - {t} + (if InFlight(r) then {t} else {})
            && PastAdmission(h') == PastAdmission(h) - {t} + (if Past(h, r) then {t} else {})
  {
  }

  lemma Plus(s: set<nat>, t: nat)
    requires t !in s
    ensures |s + {t}| == |s| + 1
  {
  }

  lemma NoWrap(active: nat)
    requires active + 1 < MODULUS
    ensures FetchAdd(active) == active + 1
  {
  }

  lemma CountKeepsInv(h: Host, t: nat)
    requires Inv(h) && Enabled(h, Count(t))
    ensures Inv(Apply(h, Count(t)))
  {
    NoWrap(h.active);
    Split(h);
    CountAdds(h, t);
    Plus(Flying(h), t);
    Plus(PastAdmission(h), t);
  }

  lemma CountAdds(h: Host, t: nat)
    requires Enabled(h, Count(t))
    ensures t !in Flying(h) && t !in PastAdmission(h)
    ensures Flying(Apply(h, Count(t))) == Flying(h) + {t}
    ensures PastAdmission(Apply(h, Count(t))) == PastAdmission(h) + if h.active < h.maximum then {t} else {}
  {
    Update(h, t, Counted(h.active), FetchAdd(h.active));
  }

  lemma CompareKeepsInv(h: Host, t: nat)
    requires Inv(h) && Enabled(h, Compare(t))
    ensures Inv(Apply(h, Compare(t)))
  {
    var r := if h.requests[t].previous >= h.maximum then Rejecting else Admitted;
    Update(h, t, r, h.active);
    assert t in Flying(h) && (t in PastAdmission(h) <==> r == Admitted);
    assert Flying(Apply(h, Compare(t))) == Flying(h);
    assert PastAdmission(Apply(h, Compare(t))) == PastAdmission(h);
  }

  lemma LeaveKeepsInv(h: Host, t: nat, status: int)
    requires Inv(h) && t in Flying(h)
    ensures Inv(Host(FetchSub(h.active), h.maximum, h.pool, h.requests[t := Answered(status)]))
  {
    Update(h, t, Answered(status), FetchSub(h.active));
    var h' := Host(FetchSub(h.active), h.maximum, h.pool, h.requests[t := Answered(status)]);
    assert Flying(h') == Flying(h) - {t} && PastAdmission(h') == PastAdmission(h) - {t};
    assert |Flying(h')| == |Flying(h)| - 1;
    assert FetchSub(h.active) == h.active - 1;
  }

  lemma StepKeepsInv(h: Host, step: Step)
    requires Inv(h) && Enabled(h, step)
    ensures Inv(Apply(h, step))
  {
    match step
    case Count(t) => CountKeepsInv(h, t);
    case Compare(t) => CompareKeepsInv(h, t);
    case Undo(t) =>
      assert t in Flying(h);
      LeaveKeepsInv(h, t, 429);
    case Finish(t, status) =>
      assert t in Flying(h);
      LeaveKeepsInv(h, t, status);
  }

  /** Runs of a host with `pool` threads; a thread count is a size_t. */
  ghost predicate IsRun(run: seq<Host>, steps: seq<Step>, maximum: nat, pool: nat) {
    && |run| == |steps| + 1 && pool < MODULUS
    && run[0] == Host(0, maximum, pool, map[])
    && forall i {:trigger steps[i]} :: 0 <= i < |steps| ==>
         Enabled(run[i], steps[i]) && run[i + 1] == Apply(run[i], steps[i])
  }

  lemma {:induction false} RunInv(run: seq<Host>, steps: seq<Step>, maximum: nat, pool: nat, i: nat)
    requires IsRun(run, steps, maximum, pool) && i < |run|
    ensures Inv(run[i]) && run[i].maximum == maximum && run[i].pool == pool
  {
    if i == 0 {
      assert Flying(run[0]) == {} && PastAdmission(run[0]) == {};
    } else {
      RunInv(run, steps, maximum, pool, i - 1);
      StepKeepsInv(run[i - 1], steps[i - 1]);
    }
  }

  /** In every interleaving: at most `maximum` requests past admission, the counter is their number
      plus the rejects not yet undone, a decrement never finds zero, and quiescence means zero. */
  lemma AdmissionBound(run: seq<Host>, steps: seq<Step>, maximum: nat, pool: nat, i: nat)
    requires IsRun(run, steps, maximum, pool) && i < |run|
    ensures |PastAdmission(run[i])| <= maximum
    ensures run[i].active == |PastAdmission(run[i])| + |Overhang(run[i])|
    ensures i < |steps| && (steps[i].Undo? || steps[i].Finish?) ==>
              run[i].active > 0 && run[i + 1].active == run[i].active - 1
    ensures (forall t :: t in run[i].requests ==> run[i].requests[t].Answered?) ==> run[i].active == 0
  {
    RunInv(run, steps, maximum, pool, i);
    Split(run[i]);
    if i < |steps| && (steps[i].Undo? || steps[i].Finish?) {
      assert steps[i].t in Flying(run[i]);
    }
    if forall t :: t in run[i].requests ==> run[i].requests[t].Answered? {
      assert Flying(run[i]) == {};
    }
  }

  // ---- Rejections -------------------------------------------------------------------------------

  /** The request that step `i` counts will be turned away. */
  predicate RejectsAt(run: seq<Host>, steps: seq<Step>, i: nat) {
    && i < |steps| && i + 1 < |run| && steps[i].Count?
    && steps[i].t in run[i + 1].requests && !Past(run[i + 1], run[i + 1].requests[steps[i].t])
  }

  /** A request is turned away exactly when, as it is counted, those past admission and the overhang
      of earlier rejects together reach the maximum. */
  lemma RejectedIff(run: seq<Host>, steps: seq<Step>, maximum: nat, pool: nat, i: nat)
    requires IsRun(run, steps, maximum, pool) && i < |steps| && steps[i].Count?
    ensures RejectsAt(run, steps, i) <==> |PastAdmission(run[i])| + |Overhang(run[i])| >= maximum
  {
    RunInv(run, steps, maximum, pool, i);
    Split(run[i]);
  }

  lemma RunExtends(run: seq<Host>, steps: seq<Step>, maximum: nat, pool: nat, step: Step)
    requires IsRun(run, steps, maximum, pool) && Enabled(run[|steps|], step)
    ensures IsRun(run + [Apply(run[|steps|], step)], steps + [step], maximum, pool)
  {
  }

  /** In flight are `k` rejected requests that have not yet undone their increment, and otherwise only
      admitted ones. Request names below `n` have been used. */
  ghost predicate Held(h: Host, k: nat, n: nat) {
    && |PastAdmission(h)| + k == h.active
    && (forall t :: t in PastAdmission(h) ==> h.requests[t].Admitted?)
    && forall t :: t in h.requests ==> t < n
  }

  /** What the comparison does when the value read was below the maximum. */
  lemma CompareAdmits(h: Host, t: nat)
    requires Enabled(h, Compare(t)) && t in PastAdmission(h)
    ensures Apply(h, Compare(t)) == h.(requests := h.requests[t := Admitted])
    ensures PastAdmission(Apply(h, Compare(t))) == PastAdmission(h)
  {
    Update(h, t, Admitted, h.active);
  }

  lemma AdmitOne(h: Host, n: nat)
    requires Inv(h) && Held(h, 0, n) && h.active < h.maximum && h.active < h.pool
    ensures Enabled(h, Count(n)) && Enabled(Apply(h, Count(n)), Compare(n))
    ensures Held(Apply(Apply(h, Count(n)), Compare(n)), 0, n + 1)
    ensures Apply(Apply(h, Count(n)), Compare(n)).active == h.active + 1
  {
    NoWrap(h.active);
    CountAdds(h, n);
    Plus(PastAdmission(h), n);
    CompareAdmits(Apply(h, Count(n)), n);
  }

  /** `k` admitted requests and nothing else. */
  lemma {:induction false} FillRun(maximum: nat, pool: nat, k: nat) returns (run: seq<Host>, steps: seq<Step>)
    requires k <= maximum < pool < MODULUS
    ensures IsRun(run, steps, maximum, pool) && run[|steps|].active == k && Held(run[|steps|], 0, k)
    decreases k
  {
    if k == 0 {
      run, steps := [Host(0, maximum, pool, map[])], [];
      assert Flying(run[0]) == {} && PastAdmission(run[0]) == {} && Overhang(run[0]) == {};
    } else {
      run, steps := FillRun(maximum, pool, k - 1);
      RunInv(run, steps, maximum, pool, |steps|);
      AdmitOne(run[|steps|], k - 1);
      RunExtends(run, steps, maximum, pool, Count(k - 1));
      run, steps := run + [Apply(run[|steps|], Count(k - 1))], steps + [Count(k - 1)];
      RunExtends(run, steps, maximum, pool, Compare(k - 1));
      run, steps := run + [Apply(run[|steps|], Compare(k - 1))], steps + [Compare(k - 1)];
    }
  }

  /** On a full host one more request is rejected, and then an admitted one finishes: the slot it leaves
      is held by the overhang. */
  lemma RejectThenFinish(h: Host, k: nat, n: nat, t: nat)
    requires Inv(h) && Held(h, k, n) && h.active == h.maximum < h.pool && t in PastAdmission(h)
    ensures Enabled(h, Count(n)) && Enabled(Apply(h, Count(n)), Finish(t, 200))
    ensures var h' := Apply(Apply(h, Count(n)), Finish(t, 200)); Held(h', k + 1, n + 1) && h'.active == h.active
  {
    NoWrap(h.active);
    CountAdds(h, n);
    FinishFrees(Apply(h, Count(n)), t);
  }

  lemma FinishFrees(h: Host, t: nat)
    requires Enabled(h, Finish(t, 200)) && 0 < h.active < MODULUS
    ensures PastAdmission(Apply(h, Finish(t, 200))) == PastAdmission(h) - {t}
    ensures |PastAdmission(Apply(h, Finish(t, 200)))| == |PastAdmission(h)| - 1
    ensures Apply(h, Finish(t, 200)).active == h.active - 1
  {
    Update(h, t, Answered(200), FetchSub(h.active));
    assert t in PastAdmission(h);
  }

  lemma {:induction false} OverhangRun(maximum: nat, pool: nat, k: nat) returns (run: seq<Host>, steps: seq<Step>)
    requires k <= maximum < pool < MODULUS
    ensures IsRun(run, steps, maximum, pool)
    ensures run[|steps|].active == maximum && Held(run[|steps|], k, maximum + k)
    decreases k
  {
    if k == 0 {
      run, steps := FillRun(maximum, pool, maximum);
    } else {
      run, steps := OverhangRun(maximum, pool, k - 1);
      RunInv(run, steps, maximum, pool, |steps|);
      var h, n := run[|steps|], maximum + k - 1;
      var t :| t in PastAdmission(h);
      RejectThenFinish(h, k - 1, n, t);
      RunExtends(run, steps, maximum, pool, Count(n));
      run, steps := run + [Apply(h, Count(n))], steps + [Count(n)];
      RunExtends(run, steps, maximum, pool, Finish(t, 200));
      run, steps := run + [Apply(run[|steps|], Finish(t, 200))], steps + [Finish(t, 200)];
    }
  }

  /** Some run of such a host turns a request away; with `idle`, even while nobody is past admission. */
  ghost predicate CanReject(maximum: nat, pool: nat, idle: bool) {
    exists run: seq<Host>, steps: seq<Step>, i: nat ::
      IsRun(run, steps, maximum, pool) && RejectsAt(run, steps, i) && (idle ==> PastAdmission(run[i]) == {})
  }

  /** The 429 branch is live if and only if there are more server threads than admitted requests; and
      then a request can be turned away although nobody is past admission. */
  lemma RejectionPossibleIff(maximum: nat, pool: nat, idle: bool)
    requires pool < MODULUS
    ensures CanReject(maximum, pool, idle) <==> pool > maximum
  {
    if pool > maximum {
      var run, steps := OverhangRun(maximum, pool, maximum);
      var h, i, n := run[|steps|], |steps|, maximum + maximum;
      RunInv(run, steps, maximum, pool, i);
      RunExtends(run, steps, maximum, pool, Count(n));
      run, steps := run + [Apply(h, Count(n))], steps + [Count(n)];
      assert RejectsAt(run, steps, i) && PastAdmission(run[i]) == {};
    }
    forall run: seq<Host>, steps: seq<Step>, i: nat | IsRun(run, steps, maximum, pool) && RejectsAt(run, steps, i)
      ensures pool > maximum
    {
      RunInv(run, steps, maximum, pool, i);
    }
  }

  /** start gives the server as many threads as admitted requests, so that host never answers 429. */
  lemma StartedHostNeverRejects(run: seq<Host>, steps: seq<Step>, maximum: nat, i: nat)
    requires IsRun(run, steps, maximum, maximum) && i < |steps|
    ensures !RejectsAt(run, steps, i) && !steps[i].Undo?
  {
    RejectionPossibleIff(maximum, maximum, false);
    if steps[i].Undo? {
      NeverRejecting(run, steps, maximum, i, steps[i].t);
    }
  }

  lemma {:induction false} NeverRejecting(run: seq<Host>, steps: seq<Step>, maximum: nat, i: nat, t: nat)
    requires IsRun(run, steps, maximum, maximum) && i < |run| && t in run[i].requests
    ensures !run[i].requests[t].Rejecting?
    ensures run[i].requests[t].Counted? ==> run[i].requests[t].previous < maximum
    decreases i
  {
    if i > 0 {
      RunInv(run, steps, maximum, maximum, i - 1);
      if t in run[i - 1].requests {
        NeverRejecting(run, steps, maximum, i - 1, t);
      }
      assert run[i] == Apply(run[i - 1], steps[i - 1]);
    }
  }

  // ---- One request on its own -------------------------------------------------------------------

  class AtomicCounter {
    var active: nat

    constructor ()
      ensures active == 0
    {
      active := 0;
    }

    method Add() returns (previous: nat)
      modifies this
      ensures previous == old(active) && active == FetchAdd(old(active))
    {
      previous := active;
      active := (active + 1) % MODULUS;
    }

    method Sub()
      modifies this
      ensures active == FetchSub(old(active))
    {
      active := (active - 1) % MODULUS;
    }

    /** The dispatch lambda with no other thread in between: the guard gives the slot back on every
        path, also when the handler throws. */
    method Dispatch(maximum: nat, handlerStatus: Option<int>) returns (status: int)
      requires active + 1 < MODULUS
      modifies this
      ensures active == old(active)
      ensures status == if old(active) >= maximum then 429 else if handlerStatus.Some? then handlerStatus.value else 500
    {
      var previous := Add();
      if previous >= maximum {
        Sub();
        return 429;
      }
      status := if handlerStatus.Some? then handlerStatus.value else 500;
      Sub();
    }
  }
}
