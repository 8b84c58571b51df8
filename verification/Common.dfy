/** Small vocabulary shared by the models: optional values and sequences read as sets. */
module Common {

  datatype Option<+T> = None | Some(value: T)

  /** A byte string. */
  type Octets = seq<bv8>

  /** The elements of a sequence. */
  function Elems<T(==)>(s: seq<T>): set<T> {
    set x | x in s
  }

  ghost predicate NoDup<T(!new)>(s: seq<T>) {
    forall i, j :: 0 <= i < j < |s| ==> s[i] != s[j]
  }

  /** `order` lists every member of `keys` exactly once. */
  ghost predicate Enumerates(order: seq<nat>, keys: set<nat>) {
    && NoDup(order)
    && Elems(order) == keys
  }

  /** The last `n` elements of `s`, or all of them when there are fewer. */
  function LastN<T>(s: seq<T>, n: nat): seq<T> {
    if |s| <= n then s else s[|s| - n..]
  }

  lemma LastNAt<T>(s: seq<T>, n: nat, i: nat)
    requires i < |LastN(s, n)|
    ensures LastN(s, n)[i] == s[|s| - |LastN(s, n)| + i]
  {
  }

  lemma {:induction false} CountDistinct<T(!new)>(s: seq<T>)
    requires NoDup(s)
    ensures |Elems(s)| == |s|
  {
    if s == [] {
      assert Elems(s) == {};
    } else {
      var init, last := s[..|s| - 1], s[|s| - 1];
      CountDistinct(init);
      assert last !in Elems(init);
      assert s == init + [last];
      assert Elems(s) == Elems(init) + {last};
    }
  }
}
