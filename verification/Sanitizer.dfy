/** sanitize_external_text. A string is a sequence of bytes, one per character. */
module Sanitizer {
  import Utf8

  const MAXIMUM_EXTERNAL_TEXT_BYTES := 8192

  /** The UTF-8 bytes of an ellipsis, then " [truncated]": 15 bytes. */
  const SUFFIX := "\U{e2}\U{80}\U{a6} [truncated]"

  /** Everything but control bytes; newline and tab stay. */
  predicate Kept(c: char) {
    !(c < ' ' && c != '\n' && c != '\t')
  }

  function Filter(s: string): (r: string)
    ensures |r| <= |s|
  {
    if s == "" then ""
    else Filter(s[..|s| - 1]) + (if Kept(s[|s| - 1]) then [s[|s| - 1]] else [])
  }

  function Sanitize(s: string): string {
    var kept := Filter(s);
    if |kept| > MAXIMUM_EXTERNAL_TEXT_BYTES then kept[..MAXIMUM_EXTERNAL_TEXT_BYTES] + SUFFIX else kept
  }

  /** remove_if: compacts the kept bytes to the front of the same buffer. */
  method RemoveControlBytes(a: array<char>) returns (n: nat)
    modifies a
    ensures n <= a.Length && a[..n] == Filter(old(a[..]))
  {
    n := 0;
    for i := 0 to a.Length
      invariant n <= i
      invariant a[..n] == Filter(old(a[..i]))
      invariant forall k :: i <= k < a.Length ==> a[k] == old(a[k])
    {
      assert old(a[..i + 1])[..i] == old(a[..i]);
      if Kept(a[i]) {
        ghost var front := a[..n];
        a[n] := a[i];
        n := n + 1;
        assert a[..n] == front + [old(a[i])];
      }
    }
    assert old(a[..a.Length]) == old(a[..]);
  }

  method SanitizeExternalText(text: string) returns (result: string)
    ensures result == Sanitize(text)
    ensures result == if |Filter(text)| <= 8192 then Filter(text)
                      else Filter(text)[..8192] + "\U{e2}\U{80}\U{a6} [truncated]"
  {
    var buffer := new char[|text|](i requires 0 <= i < |text| => text[i]);
    assert buffer[..] == text;
    var n := RemoveControlBytes(buffer);
    if n > MAXIMUM_EXTERNAL_TEXT_BYTES {
      return buffer[..MAXIMUM_EXTERNAL_TEXT_BYTES] + SUFFIX;
    }
    result := buffer[..n];
  }

  ghost predicate AllKept(s: string) {
    forall i :: 0 <= i < |s| ==> Kept(s[i])
  }

  lemma {:induction false} FilterIsKept(s: string)
    ensures AllKept(Filter(s))
  {
    if s != "" {
      FilterIsKept(s[..|s| - 1]);
    }
  }

  lemma {:induction false} FilterOfKept(s: string)
    requires AllKept(s)
    ensures Filter(s) == s
  {
    if s != "" {
      var init, last := s[..|s| - 1], s[|s| - 1];
      assert AllKept(init);
      FilterOfKept(init);
      assert s == init + [last];
    }
  }

  /** One byte: what is below a space goes, except newline and tab. With FilterConcat this is all of Filter. */
  lemma FilterOne(c: char)
    ensures Filter([c]) == if c as int >= 0x20 || c as int == 0x0A || c as int == 0x09 then [c] else ""
  {
    assert [c][..0] == "";
  }

  /** Filtering keeps the kept bytes, all of them and in order: it distributes over concatenation. */
  lemma {:induction false} FilterConcat(s: string, t: string)
    ensures Filter(s + t) == Filter(s) + Filter(t)
    decreases |t|
  {
    if t == "" {
      assert s + t == s;
    } else {
      var init := t[..|t| - 1];
      assert (s + t)[..|s + t| - 1] == s + init;
      FilterConcat(s, init);
    }
  }

  /** The result is bounded, free of control bytes other than newline and tab, and sanitising it
      again changes nothing, truncated or not. */
  lemma SanitizedText(s: string)
    ensures |Sanitize(s)| <= 8192 + 15
    ensures forall i :: 0 <= i < |Sanitize(s)| ==>
              var b := Sanitize(s)[i] as int; b >= 0x20 || b == 0x0A || b == 0x09
    ensures Sanitize(Sanitize(s)) == Sanitize(s)
  {
    FilterIsKept(s);
    assert AllKept(SUFFIX);
    assert AllKept(Sanitize(s));
    FilterOfKept(Sanitize(s));
  }

  // ---- Text that is UTF-8 -----------------------------------------------------------------------

  /** The bytes of a longer character are never control bytes. */
  lemma WideIsKept(s: string, n: nat)
    requires Utf8.Starts(s, n) && n > 1
    ensures AllKept(s[..n])
  {
    forall i | 0 <= i < n ensures Kept(s[i]) {
      assert i > 0 ==> Utf8.IsContinuation(s[i]);
    }
  }

  /** Removing control bytes removes whole characters. */
  lemma {:induction false} FilterStaysValid(s: string)
    requires Utf8.Valid(s)
    ensures Utf8.Valid(Filter(s))
    decreases |s|
  {
    if s != "" {
      var n := Utf8.Announced(s[0]);
      var first, rest := s[..n], s[n..];
      FilterStaysValid(rest);
      assert s == first + rest;
      FilterConcat(first, rest);
      FirstStaysValid(s, n);
      Utf8.ValidConcat(Filter(first), Filter(rest));
    }
  }

  lemma FirstStaysValid(s: string, n: nat)
    requires Utf8.Starts(s, n)
    ensures Utf8.Valid(Filter(s[..n]))
  {
    var first := s[..n];
    assert first[n..] == "" && Utf8.Starts(first, n);
    if n > 1 {
      WideIsKept(s, n);
      FilterOfKept(first);
    } else {
      assert first[..0] == "";
    }
  }

  lemma {:induction false} AsciiIsValid(s: string)
    requires forall i :: 0 <= i < |s| ==> Utf8.In(s[i], 0, 0x7F)
    ensures Utf8.Valid(s)
    decreases |s|
  {
    if s != "" {
      AsciiIsValid(s[1..]);
    }
  }

  lemma SuffixIsValid()
    ensures Utf8.Valid(SUFFIX) && !Utf8.IsContinuation(SUFFIX[0])
  {
    assert SUFFIX[3..] == " [truncated]";
    AsciiIsValid(SUFFIX[3..]);
    assert Utf8.Starts(SUFFIX, 3);
  }

  /** The cut at 8192 bytes does not look for a character boundary. UTF-8 text stays UTF-8 if and only if it
      is short enough to stay whole, or its byte 8192 happens to start a character. */
  lemma SanitizedStaysUtf8Iff(s: string)
    requires Utf8.Valid(s)
    ensures var kept := Filter(s);
            Utf8.Valid(Sanitize(s)) <==>
              |kept| <= 8192 || !(0x80 <= kept[8192] as int <= 0xBF)
  {
    var kept := Filter(s);
    FilterStaysValid(s);
    if |kept| > MAXIMUM_EXTERNAL_TEXT_BYTES {
      var cut := kept[..MAXIMUM_EXTERNAL_TEXT_BYTES];
      SuffixIsValid();
      Utf8.CutIff(kept, MAXIMUM_EXTERNAL_TEXT_BYTES);
      if Utf8.Valid(cut) {
        Utf8.ValidConcat(cut, SUFFIX);
      }
      if Utf8.Valid(cut + SUFFIX) {
        Utf8.ValidBefore(cut, SUFFIX);
      }
    }
  }

  /** The euro sign, three bytes. */
  const EURO := "\U{e2}\U{82}\U{ac}"

  function Euros(n: nat): string {
    if n == 0 then "" else EURO + Euros(n - 1)
  }

  lemma {:induction false} EurosAre(n: nat)
    ensures Utf8.Valid(Euros(n)) && AllKept(Euros(n)) && |Euros(n)| == 3 * n
    ensures forall i :: 0 <= i < 3 * n ==> Euros(n)[i] == EURO[i % 3]
  {
    if n > 0 {
      var rest := Euros(n - 1);
      EurosAre(n - 1);
      assert Utf8.Starts(EURO, 3) && EURO[3..] == "";
      Utf8.ValidConcat(EURO, rest);
      forall i | 3 <= i < 3 * n ensures Euros(n)[i] == EURO[i % 3] {
        assert Euros(n)[i] == rest[i - 3];
      }
    }
  }

  /** Such a text: 4096 euro signs are UTF-8, and what is left of them is not. */
  lemma SplitCharacter()
    ensures Utf8.Valid(Euros(4096)) && !Utf8.Valid(Sanitize(Euros(4096)))
  {
    EurosAre(4096);
    FilterOfKept(Euros(4096));
    assert MAXIMUM_EXTERNAL_TEXT_BYTES % 3 == 2;
    SanitizedStaysUtf8Iff(Euros(4096));
  }
}
