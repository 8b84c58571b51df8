/** Well-formed UTF-8 (RFC 3629, section 4): what the JSON library demands of every string it writes. A
    string is a sequence of bytes, one per character. */
module Utf8 {

  predicate In(c: char, low: int, high: int) {
    low <= c as int <= high
  }

  predicate IsContinuation(c: char) {
    In(c, 0x80, 0xBF)
  }

  /** Whether the second byte may follow the first: no overlong form, no surrogate, nothing past U+10FFFF. */
  predicate MayFollow(first: char, second: char) {
    && IsContinuation(second)
    && (first as int == 0xE0 ==> second as int >= 0xA0)
    && (first as int == 0xED ==> second as int <= 0x9F)
    && (first as int == 0xF0 ==> second as int >= 0x90)
    && (first as int == 0xF4 ==> second as int <= 0x8F)
  }

  /** How many bytes a character takes that starts with this byte; zero if none does. */
  function Announced(first: char): (n: nat)
    ensures n > 0 ==> !IsContinuation(first)
  {
    if In(first, 0, 0x7F) then 1
    else if In(first, 0xC2, 0xDF) then 2
    else if In(first, 0xE0, 0xEF) then 3
    else if In(first, 0xF0, 0xF4) then 4
    else 0
  }

  /** The text starts with a complete character of `n` bytes. */
  predicate Starts(s: string, n: nat) {
    && 0 < n <= |s| && Announced(s[0]) == n
    && (n > 1 ==> MayFollow(s[0], s[1]))
    && forall i :: 1 <= i < n ==> IsContinuation(s[i])
  }

  predicate Valid(s: string)
    decreases |s|
  {
    s == "" || (Starts(s, Announced(s[0])) && Valid(s[Announced(s[0])..]))
  }

  lemma StartsPrefix(s: string, t: string, n: nat)
    requires Starts(s, n)
    ensures Starts(s + t, n) && (s + t)[n..] == s[n..] + t
  {
  }

  lemma StartsCut(s: string, n: nat, k: nat)
    requires Starts(s, n) && n <= k <= |s|
    ensures Starts(s[..k], n) && s[..k][n..] == s[n..][..k - n]
  {
  }

  /** After well-formed text, what follows decides. */
  lemma {:induction false} ValidConcat(s: string, t: string)
    requires Valid(s)
    ensures Valid(s + t) <==> Valid(t)
    decreases |s|
  {
    if s == "" {
      assert s + t == t;
    } else {
      var n := Announced(s[0]);
      StartsPrefix(s, t, n);
      ValidConcat(s[n..], t);
    }
  }

  /** Cutting well-formed text leaves it well-formed exactly when the cut is not inside a character. */
  lemma {:induction false} CutIff(s: string, k: nat)
    requires Valid(s) && k < |s|
    ensures Valid(s[..k]) <==> !IsContinuation(s[k])
    decreases |s|
  {
    var n := Announced(s[0]);
    if k == 0 {
    } else if k < n {
      assert s[..k][0] == s[0];
      assert !Starts(s[..k], n);
    } else {
      StartsCut(s, n, k);
      assert s[..k][0] == s[0] && s[n..][k - n] == s[k];
      CutIff(s[n..], k - n);
    }
  }

  /** If text is well-formed and its tail does not start inside a character, so is what precedes it. */
  lemma ValidBefore(s: string, t: string)
    requires Valid(s + t) && t != "" && !IsContinuation(t[0])
    ensures Valid(s)
  {
    CutIff(s + t, |s|);
    assert (s + t)[..|s|] == s;
  }
}
