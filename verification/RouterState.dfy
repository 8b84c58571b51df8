/** The mutex-protected state of RequestRouter as a value, and what one lock region does to it.
    `T` stands for the identity of a pending request: a heap reference in the class, a unique
    name in the transition system. */
module RouterState {
  import opened Common

  const MAXIMUM_RETIRED: nat := 256

  datatype Router<T> = Router(requests: map<nat, T>, retired: set<nat>, order: seq<nat>, accepting: bool)

  /** How many of the oldest entries of the retirement deque are dropped. */
  function Excess(order: seq<nat>): nat {
    if |order| > MAXIMUM_RETIRED then |order| - MAXIMUM_RETIRED else 0
  }

  function Retire<T>(r: Router<T>, id: nat): Router<T> {
    var order := if id in r.retired then r.order else r.order + [id];
    var k := Excess(order);
    r.(retired := r.retired + {id} - Elems(order[..k]), order := order[k..])
  }

  function RetireAll<T>(r: Router<T>, ids: seq<nat>): (r': Router<T>)
    ensures r'.requests == r.requests && r'.accepting == r.accepting
    decreases |ids|
  {
    if ids == [] then r else RetireAll(Retire(r, ids[0]), ids[1..])
  }

  predicate CanOpen<T>(r: Router<T>, id: nat) {
    r.accepting && id !in r.requests
  }

  function Open<T>(r: Router<T>, id: nat, t: T): Router<T> {
    if CanOpen(r, id) then r.(requests := r.requests[id := t]) else r
  }

  function Discard<T>(r: Router<T>, id: nat): Router<T> {
    r.(retired := r.retired - {id})
  }

  function Claim<T>(r: Router<T>, id: nat): Router<T> {
    r.(requests := r.requests - {id})
  }

  /** The pointer comparison of the timeout branch: the id must still name this very request. */
  predicate StillOwns<T(==)>(r: Router<T>, id: nat, t: T) {
    id in r.requests && r.requests[id] == t
  }

  function TimeOut<T(==)>(r: Router<T>, id: nat, t: T): Router<T> {
    if StillOwns(r, id, t) then Retire(Claim(r, id), id) else r
  }

  function Close<T>(r: Router<T>, order: seq<nat>): Router<T> {
    RetireAll(r.(accepting := false), order).(requests := map[])
  }

  function Reopen<T>(r: Router<T>): Router<T> {
    r.(accepting := true, retired := {}, order := [])
  }

  // ---- The bounded pair against the unbounded retirement history -------------------------------

  /** `history` lists every retirement since the last reopen, `discarded` the ids whose late reply
      was dropped. The deque is the last 256 retirements; the set is those minus the discarded. */
  ghost predicate WindowOk<T(!new)>(r: Router<T>, history: seq<nat>, discarded: set<nat>) {
    && NoDup(history)
    && r.order == LastN(history, MAXIMUM_RETIRED)
    && r.retired == Elems(r.order) - discarded
    && discarded <= Elems(history)
  }

  /** Retirements that followed that of `id`. */
  ghost predicate RetiredAt(history: seq<nat>, id: nat, p: nat) {
    p < |history| && history[p] == id
  }

  lemma ElemsSnoc(s: seq<nat>, x: nat)
    ensures Elems(s + [x]) == Elems(s) + {x}
  {
  }

  /** Dropping the first `k` of distinct entries removes exactly those from the set. */
  lemma ElemsDrop(s: seq<nat>, k: nat)
    requires k <= |s| && NoDup(s)
    ensures Elems(s[k..]) == Elems(s) - Elems(s[..k])
  {
    assert s == s[..k] + s[k..];
    assert forall x | x in s[..k] :: x !in s[k..];
  }

  lemma RetireKeepsWindow<T(!new)>(r: Router<T>, history: seq<nat>, discarded: set<nat>, id: nat)
    requires WindowOk(r, history, discarded) && id !in history
    ensures WindowOk(Retire(r, id), history + [id], discarded)
  {
    var h, order := history + [id], r.order + [id];
    var k := Excess(order);
    assert id !in r.order && id !in r.retired && id !in discarded;
    assert order[k..] == LastN(h, MAXIMUM_RETIRED);
    ElemsDrop(order, k);
    ElemsSnoc(r.order, id);
    ElemsSnoc(history, id);
    calc {
      Retire(r, id).retired;
      r.retired + {id} - Elems(order[..k]);
      Elems(order) - discarded - Elems(order[..k]);
      Elems(order[k..]) - discarded;
    }
  }

  lemma {:induction false} RetireAllKeepsWindow<T(!new)>(r: Router<T>, history: seq<nat>, discarded: set<nat>,
                                                         ids: seq<nat>)
    requires WindowOk(r, history, discarded) && NoDup(ids) && Elems(ids) !! Elems(history)
    ensures WindowOk(RetireAll(r, ids), history + ids, discarded)
    decreases |ids|
  {
    if ids == [] {
      assert history + ids == history;
    } else {
      assert ids[0] in Elems(ids);
      RetireKeepsWindow(r, history, discarded, ids[0]);
      assert forall x | x in ids[1..] :: x in Elems(ids);
      RetireAllKeepsWindow(Retire(r, ids[0]), history + [ids[0]], discarded, ids[1..]);
      assert history + [ids[0]] + ids[1..] == history + ids;
    }
  }

  lemma DiscardKeepsWindow<T(!new)>(r: Router<T>, history: seq<nat>, discarded: set<nat>, id: nat)
    requires WindowOk(r, history, discarded)
    ensures WindowOk(Discard(r, id), history, if id in r.retired then discarded + {id} else discarded)
  {
  }

  /** discard_late succeeds exactly for an id that was retired, not yet discarded, and followed by
      fewer than 256 retirements. */
  lemma DiscardSucceedsIff<T(!new)>(r: Router<T>, history: seq<nat>, discarded: set<nat>, id: nat, p: nat)
    requires WindowOk(r, history, discarded) && RetiredAt(history, id, p)
    ensures id in r.retired <==> id !in discarded && |history| - 1 - p < MAXIMUM_RETIRED
  {
    if |history| - 1 - p < MAXIMUM_RETIRED {
      var i := p - (|history| - |r.order|);
      LastNAt(history, MAXIMUM_RETIRED, i);
    }
    if id in r.order {
      var i :| 0 <= i < |r.order| && r.order[i] == id;
      LastNAt(history, MAXIMUM_RETIRED, i);
    }
  }
}
