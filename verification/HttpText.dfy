/** Header text: ASCII case folding, trimming and splitting, in the "C" locale. */
module HttpText {
  import opened Common

  /** isspace: space, tab, line feed, vertical tab, form feed, carriage return. */
  predicate IsSpace(c: char) {
    c == ' ' || '\t' <= c <= '\r'
  }

  function Lower(c: char): char {
    if 'A' <= c <= 'Z' then c + ' ' else c
  }

  /** What std::isspace accepts, written out. */
  lemma SpacesAre(c: char)
    ensures IsSpace(c) <==> c in " \t\n\U{b}\U{c}\r"
  {
  }

  const UPPER := "ABCDEFGHIJKLMNOPQRSTUVWXYZ"
  const LOWER := "abcdefghijklmnopqrstuvwxyz"

  /** The same character, or the same letter in the other case. */
  predicate SameLetter(c: char, d: char) {
    c == d || exists k :: 0 <= k < 26 && ((c == UPPER[k] && d == LOWER[k]) || (c == LOWER[k] && d == UPPER[k]))
  }

  lemma LetterAt(k: nat)
    requires k < 26
    ensures UPPER[k] as int == 'A' as int + k && LOWER[k] as int == 'a' as int + k
  {
  }

  /** Folding identifies the two cases of a letter and nothing else. */
  lemma LowerIdentifies(c: char, d: char)
    ensures Lower(c) == Lower(d) <==> SameLetter(c, d)
  {
    forall k | 0 <= k < 26 ensures Lower(UPPER[k]) == LOWER[k] == Lower(LOWER[k]) {
      LetterAt(k);
    }
    if c != d && Lower(c) == Lower(d) {
      var k := (if 'A' <= c <= 'Z' then c else d) as int - 'A' as int;
      LetterAt(k);
      assert (c == UPPER[k] && d == LOWER[k]) || (c == LOWER[k] && d == UPPER[k]);
    }
  }

  /** Equal lengths and, up to the folding of each element, equal elements. */
  ghost predicate EqualFolded<T>(a: seq<T>, b: seq<T>, fold: T -> T) {
    |a| == |b| && forall i :: 0 <= i < |a| ==> fold(a[i]) == fold(b[i])
  }

  ghost predicate EqualIgnoreCase(a: string, b: string) {
    EqualFolded(a, b, Lower)
  }

  method AsciiEqualIgnoreCase<T(==)>(lhs: seq<T>, rhs: seq<T>, fold: T -> T) returns (equal: bool)
    ensures equal <==> EqualFolded(lhs, rhs, fold)
  {
    if |lhs| != |rhs| {
      return false;
    }
    for i := 0 to |lhs|
      invariant forall k :: 0 <= k < i ==> fold(lhs[k]) == fold(rhs[k])
    {
      if fold(lhs[i]) != fold(rhs[i]) {
        return false;
      }
    }
    return true;
  }

  // ---- Trimming ---------------------------------------------------------------------------------

  ghost predicate AllSpace(s: string) {
    forall i :: 0 <= i < |s| ==> IsSpace(s[i])
  }

  function TrimLeft(s: string): (r: string)
    ensures |r| <= |s|
  {
    if s != "" && IsSpace(s[0]) then TrimLeft(s[1..]) else s
  }

  function TrimRight(s: string): (r: string)
    ensures |r| <= |s|
  {
    if s != "" && IsSpace(s[|s| - 1]) then TrimRight(s[..|s| - 1]) else s
  }

  function Trim(s: string): string {
    TrimRight(TrimLeft(s))
  }

  method TrimAsciiWhitespace(value: string) returns (r: string)
    ensures r == Trim(value)
  {
    r := value;
    while r != "" && IsSpace(r[0])
      invariant TrimLeft(r) == TrimLeft(value)
      decreases |r|
    {
      r := r[1..];
    }
    while r != "" && IsSpace(r[|r| - 1])
      invariant TrimRight(r) == Trim(value)
      decreases |r|
    {
      r := r[..|r| - 1];
    }
  }

  lemma {:induction false} TrimLeftPad(l: string, s: string)
    requires AllSpace(l)
    ensures TrimLeft(l + s) == TrimLeft(s)
  {
    if l == "" {
      assert l + s == s;
    } else {
      assert (l + s)[1..] == l[1..] + s;
      TrimLeftPad(l[1..], s);
    }
  }

  lemma {:induction false} TrimRightPad(s: string, r: string)
    requires AllSpace(r)
    ensures TrimRight(s + r) == TrimRight(s)
  {
    if r == "" {
      assert s + r == s;
    } else {
      assert (s + r)[..|s + r| - 1] == s + r[..|r| - 1];
      TrimRightPad(s, r[..|r| - 1]);
    }
  }

  lemma {:induction false} TrimLeftBefore(s: string, r: string)
    requires AllSpace(r)
    ensures TrimLeft(s + r) == if TrimLeft(s) == "" then "" else TrimLeft(s) + r
  {
    if s == "" {
      assert s + r == r + "";
      TrimLeftPad(r, "");
    } else if IsSpace(s[0]) {
      assert (s + r)[1..] == s[1..] + r;
      TrimLeftBefore(s[1..], r);
    }
  }

  /** Surrounding whitespace never matters. */
  lemma TrimPad(l: string, s: string, r: string)
    requires AllSpace(l) && AllSpace(r)
    ensures Trim(l + s + r) == Trim(s)
  {
    assert l + s + r == l + (s + r);
    TrimLeftPad(l, s + r);
    TrimLeftBefore(s, r);
    TrimRightPad(TrimLeft(s), r);
  }

  lemma {:induction false} TrimLeftSplits(s: string) returns (l: string)
    ensures AllSpace(l) && s == l + TrimLeft(s)
  {
    l := "";
    if s != "" && IsSpace(s[0]) {
      var m := TrimLeftSplits(s[1..]);
      l := [s[0]] + m;
    }
  }

  lemma {:induction false} TrimRightSplits(s: string) returns (r: string)
    ensures AllSpace(r) && s == TrimRight(s) + r
  {
    r := "";
    if s != "" && IsSpace(s[|s| - 1]) {
      var m := TrimRightSplits(s[..|s| - 1]);
      r := m + [s[|s| - 1]];
    }
  }

  lemma TrimSplits(s: string) returns (l: string, r: string)
    ensures AllSpace(l) && AllSpace(r) && s == l + Trim(s) + r
  {
    l := TrimLeftSplits(s);
    r := TrimRightSplits(TrimLeft(s));
  }

  /** The other half of what trimming means: nothing that remains is surrounded by whitespace. */
  lemma {:induction false} TrimmedEnds(s: string)
    ensures Trim(s) != "" ==>
              Trim(s)[0] !in " \t\n\U{b}\U{c}\r" && Trim(s)[|Trim(s)| - 1] !in " \t\n\U{b}\U{c}\r"
  {
    TrimLeftStarts(s);
    TrimRightEnds(TrimLeft(s));
    if Trim(s) != "" {
      SpacesAre(Trim(s)[0]);
      SpacesAre(Trim(s)[|Trim(s)| - 1]);
    }
  }

  lemma {:induction false} NothingToTrim(t: string)
    requires t != "" ==> !IsSpace(t[0]) && !IsSpace(t[|t| - 1])
    ensures Trim(t) == t
  {
  }

  /** What trimming computes: whatever is made of the six characters on both sides goes, and no more. */
  lemma TrimIs(l: string, t: string, r: string)
    requires forall c :: c in l + r ==> c in " \t\n\U{b}\U{c}\r"
    requires t != "" ==> t[0] !in " \t\n\U{b}\U{c}\r" && t[|t| - 1] !in " \t\n\U{b}\U{c}\r"
    ensures Trim(l + t + r) == t
  {
    forall i | 0 <= i < |l| ensures IsSpace(l[i]) {
      assert l[i] in l + r;
      SpacesAre(l[i]);
    }
    forall i | 0 <= i < |r| ensures IsSpace(r[i]) {
      assert (l + r)[|l| + i] == r[i];
      SpacesAre(r[i]);
    }
    TrimPad(l, t, r);
    if t != "" {
      SpacesAre(t[0]);
      SpacesAre(t[|t| - 1]);
    }
    NothingToTrim(t);
  }

  lemma {:induction false} TrimLeftStarts(s: string)
    ensures TrimLeft(s) != "" ==> !IsSpace(TrimLeft(s)[0])
  {
    if s != "" && IsSpace(s[0]) {
      TrimLeftStarts(s[1..]);
    }
  }

  lemma {:induction false} TrimRightEnds(s: string)
    ensures TrimRight(s) <= s
    ensures TrimRight(s) != "" ==> !IsSpace(TrimRight(s)[|TrimRight(s)| - 1])
  {
    if s != "" && IsSpace(s[|s| - 1]) {
      TrimRightEnds(s[..|s| - 1]);
    }
  }

  // ---- Splitting --------------------------------------------------------------------------------

  /** find: the first position of `c`, if any. */
  function Find(s: string, c: char): (r: Option<nat>)
    ensures r.None? <==> c !in s
    ensures r.Some? ==> r.value < |s| && s[r.value] == c && c !in s[..r.value]
  {
    if s == "" then None
    else if s[0] == c then Some(0)
    else
      assert s == [s[0]] + s[1..];
      match Find(s[1..], c)
      case None => None
      case Some(i) =>
        assert s[..i + 1] == [s[0]] + s[1..][..i];
        Some(i + 1)
  }

  lemma InPrefix(s: string, c: char, i: nat, j: nat)
    requires i <= |s| && j < |s| && s[j] == c
    ensures j < i ==> c in s[..i]
  {
    assert j < i ==> s[..i][j] == s[j];
  }

  lemma FindIs(s: string, c: char, i: nat)
    requires i < |s| && s[i] == c && c !in s[..i]
    ensures Find(s, c) == Some(i)
  {
    var j := Find(s, c).value;
    InPrefix(s, c, i, j);
    InPrefix(s, c, j, i);
  }

  function Split(s: string, c: char): (r: seq<string>)
    ensures |r| > 0
    decreases |s|
  {
    match Find(s, c)
    case None => [s]
    case Some(i) => [s[..i]] + Split(s[i + 1..], c)
  }

  function Join(ps: seq<string>, c: char): string
    requires |ps| > 0
  {
    if |ps| == 1 then ps[0] else ps[0] + [c] + Join(ps[1..], c)
  }

  lemma SplitAt(s: string, c: char, i: nat)
    requires Find(s, c) == Some(i)
    ensures i < |s| && Split(s, c) == [s[..i]] + Split(s[i + 1..], c)
  {
  }

  lemma SplitWhole(s: string, c: char)
    requires c !in s
    ensures Split(s, c) == [s]
  {
  }

  lemma {:induction false} SplitConcat(a: string, b: string, c: char)
    ensures Split(a + [c] + b, c) == Split(a, c) + Split(b, c)
    decreases |a|
  {
    var s, found := a + [c] + b, Find(a, c);
    if found.None? {
      assert s[..|a|] == a && s[|a| + 1..] == b;
      FindIs(s, c, |a|);
      SplitWhole(a, c);
      SplitAt(s, c, |a|);
    } else {
      var i := found.value;
      var rest := a[i + 1..];
      assert s[..i] == a[..i] && s[i + 1..] == rest + [c] + b;
      FindIs(s, c, i);
      SplitAt(a, c, i);
      SplitAt(s, c, i);
      SplitConcat(rest, b, c);
      Regroup(a[..i], Split(rest, c), Split(b, c));
    }
  }

  lemma Regroup(p: string, ps: seq<string>, qs: seq<string>)
    ensures [p] + (ps + qs) == [p] + ps + qs
  {
  }

  lemma {:induction false} SplitJoin(ps: seq<string>, c: char)
    requires |ps| > 0 && forall i :: 0 <= i < |ps| ==> c !in ps[i]
    ensures Split(Join(ps, c), c) == ps
  {
    if |ps| > 1 {
      SplitJoin(ps[1..], c);
      SplitConcat(ps[0], Join(ps[1..], c), c);
    }
  }

  lemma {:induction false} JoinSplit(s: string, c: char)
    ensures Join(Split(s, c), c) == s
    ensures forall i :: 0 <= i < |Split(s, c)| ==> c !in Split(s, c)[i]
    decreases |s|
  {
    if Find(s, c).Some? {
      var i := Find(s, c).value;
      JoinSplit(s[i + 1..], c);
      assert s == s[..i] + [c] + s[i + 1..];
    }
  }

  /** The trimmed pieces do not depend on whitespace around the whole. */
  ghost predicate SamePieces(ps: seq<string>, qs: seq<string>) {
    |ps| == |qs| && forall i :: 0 <= i < |ps| ==> Trim(ps[i]) == Trim(qs[i])
  }

  lemma FindAfterPad(l: string, s: string, c: char)
    requires c !in l
    ensures Find(l + s, c) == match Find(s, c) case None => None case Some(i) => Some(|l| + i)
  {
    match Find(s, c)
    case None =>
    case Some(i) =>
      assert (l + s)[..|l| + i] == l + s[..i];
      FindIs(l + s, c, |l| + i);
  }

  /** Padding goes to the first piece alone. */
  lemma FirstPiecePad(l: string, s: string, c: char, i: nat)
    requires Find(s, c) == Some(i) && Find(l + s, c) == Some(|l| + i)
    ensures Split(s, c) == [s[..i]] + Split(s[i + 1..], c)
    ensures Split(l + s, c) == [l + s[..i]] + Split(s[i + 1..], c)
  {
    SplitAt(s, c, i);
    SplitAt(l + s, c, |l| + i);
    CutAfterPad(l, s, i);
  }

  lemma CutAfterPad(l: string, s: string, i: nat)
    requires i < |s|
    ensures (l + s)[..|l| + i] == l + s[..i] && (l + s)[|l| + i + 1..] == s[i + 1..]
  {
  }

  lemma SplitLeftPad(l: string, s: string, c: char)
    requires AllSpace(l) && !IsSpace(c)
    ensures SamePieces(Split(l + s, c), Split(s, c))
  {
    FindAfterPad(l, s, c);
    match Find(s, c)
    case None =>
      SplitWhole(s, c);
      SplitWhole(l + s, c);
      LeftPad(l, s);
    case Some(i) =>
      FirstPiecePad(l, s, c, i);
      LeftPad(l, s[..i]);
      SamePiecesCons(l + s[..i], s[..i], Split(s[i + 1..], c));
  }

  lemma SamePiecesCons(p: string, q: string, rest: seq<string>)
    requires Trim(p) == Trim(q)
    ensures SamePieces([p] + rest, [q] + rest)
  {
  }

  lemma LeftPad(l: string, s: string)
    requires AllSpace(l)
    ensures Trim(l + s) == Trim(s)
  {
    TrimPad(l, s, "");
    assert l + s + "" == l + s;
  }

  lemma {:induction false} SplitRightPad(s: string, r: string, c: char)
    requires AllSpace(r) && !IsSpace(c)
    ensures SamePieces(Split(s + r, c), Split(s, c))
    decreases |s|
  {
    assert c !in r;
    match Find(s, c)
    case None =>
      TrimPad("", s, r);
      assert "" + s + r == s + r;
    case Some(i) =>
      assert (s + r)[..i] == s[..i] && (s + r)[i + 1..] == s[i + 1..] + r;
      FindIs(s + r, c, i);
      SplitRightPad(s[i + 1..], r, c);
  }

  lemma SplitTrimmed(s: string, c: char)
    requires !IsSpace(c)
    ensures SamePieces(Split(Trim(s), c), Split(s, c))
  {
    var l, r := TrimSplits(s);
    SplitRightPad(l + Trim(s), r, c);
    SplitLeftPad(l, Trim(s), c);
  }
}
