/** has_positive_quality: the cursor loop over parameters against exact decimal values (RFC 9110,
    section 12.4.2, with the code's own rule of any number of digits). */
module Quality {
  import opened Common
  import opened HttpText

  predicate IsDigit(c: char) {
    '0' <= c <= '9'
  }

  ghost predicate AllDigits(s: string) {
    forall i :: 0 <= i < |s| ==> IsDigit(s[i])
  }

  function DigitValue(c: char): real {
    (c as int - '0' as int) as real
  }

  /** The value of "0." followed by the digits `s`. */
  function Fraction(s: string): real {
    if s == "" then 0.0 else (DigitValue(s[0]) + Fraction(s[1..])) / 10.0
  }

  /** "0" or "1", alone or followed by a point and at least one digit. */
  ghost predicate IsWeight(v: string) {
    && v != "" && (v[0] == '0' || v[0] == '1')
    && (|v| == 1 || (|v| >= 3 && v[1] == '.' && AllDigits(v[2..])))
  }

  function WeightValue(v: string): real
    requires v != ""
  {
    DigitValue(v[0]) + (if |v| >= 3 then Fraction(v[2..]) else 0.0)
  }

  ghost predicate PositiveWeight(v: string) {
    IsWeight(v) && 0.0 < WeightValue(v) <= 1.0
  }

  // ---- Parameters -------------------------------------------------------------------------------

  ghost predicate IsQuality(parameter: string) {
    var t := Trim(parameter);
    match Find(t, '=')
    case None => false
    case Some(i) => EqualIgnoreCase(Trim(t[..i]), "q")
  }

  function QualityText(parameter: string): string {
    var t := Trim(parameter);
    match Find(t, '=')
    case None => ""
    case Some(i) => Trim(t[i + 1..])
  }

  /** The first q parameter decides; without one the quality is positive. */
  ghost predicate QualityOk(ps: seq<string>) {
    if ps == [] then true
    else if IsQuality(ps[0]) then PositiveWeight(QualityText(ps[0]))
    else QualityOk(ps[1..])
  }

  ghost predicate HasPositiveQuality(parameters: string) {
    QualityOk(Split(parameters, ';'))
  }

  ghost predicate HasQuality(ps: seq<string>) {
    exists i :: 0 <= i < |ps| && IsQuality(ps[i])
  }

  // ---- Exact values -----------------------------------------------------------------------------

  lemma {:induction false} FractionBounds(s: string)
    requires AllDigits(s)
    ensures 0.0 <= Fraction(s) < 1.0
    ensures Fraction(s) == 0.0 <==> forall i :: 0 <= i < |s| ==> s[i] == '0'
  {
    if s != "" {
      FractionBounds(s[1..]);
      assert IsDigit(s[0]);
      assert forall i | 1 <= i < |s| :: s[i] == s[1..][i - 1];
    }
  }

  function Power(n: nat): real {
    if n == 0 then 1.0 else 10.0 * Power(n - 1)
  }

  /** The digits read as a number, each at its place. */
  function Number(s: string): real {
    if s == "" then 0.0 else DigitValue(s[0]) * Power(|s| - 1) + Number(s[1..])
  }

  /** The fraction is exact: that number, divided by ten once for every digit. */
  lemma {:induction false} FractionIsExact(s: string)
    ensures Fraction(s) * Power(|s|) == Number(s)
  {
    if s != "" {
      FractionIsExact(s[1..]);
      var d, f, p := DigitValue(s[0]), Fraction(s[1..]), Power(|s| - 1);
      assert (d + f) / 10.0 * (10.0 * p) == d * p + f * p;
    }
  }

  lemma DigitIs(k: nat)
    requires k < 10
    ensures DigitValue("0123456789"[k]) == k as real
  {
  }

  /** The same without arithmetic: a one with nothing but zeros after the point, or a zero with nothing but
      digits, not all of them zero. */
  predicate WrittenPositive(v: string) {
    || v == "1"
    || (|v| >= 3 && v[..2] == "1." && forall i :: 2 <= i < |v| ==> v[i] == '0')
    || (|v| >= 3 && v[..2] == "0."
        && (forall i :: 2 <= i < |v| ==> v[i] in "0123456789") && exists i :: 2 <= i < |v| && v[i] != '0')
  }

  lemma DigitsAre(c: char)
    ensures IsDigit(c) <==> c in "0123456789"
  {
  }

  /** The digits after the point, seen from the whole. */
  lemma Tail(v: string)
    requires |v| >= 2
    ensures AllDigits(v[2..]) <==> forall i :: 2 <= i < |v| ==> v[i] in "0123456789"
    ensures (forall i :: 0 <= i < |v[2..]| ==> v[2..][i] == '0') <==> forall i :: 2 <= i < |v| ==> v[i] == '0'
  {
    var t := v[2..];
    assert forall i :: 2 <= i < |v| ==> v[i] == t[i - 2];
    assert forall i :: 0 <= i < |t| ==> t[i] == v[i + 2];
    forall i | 2 <= i < |v| ensures IsDigit(v[i]) <==> v[i] in "0123456789" {
      DigitsAre(v[i]);
    }
  }

  /** Two definitions of an acceptable weight agree. */
  lemma PositiveIff(v: string)
    ensures PositiveWeight(v) <==> WrittenPositive(v)
  {
    if |v| == 1 {
      assert PositiveWeight(v) <==> v[0] == '1';
    } else if |v| >= 3 && (v[0] == '0' || v[0] == '1') && v[1] == '.' {
      LongPositiveIff(v);
    }
  }

  lemma LongPositiveIff(v: string)
    requires |v| >= 3 && (v[0] == '0' || v[0] == '1') && v[1] == '.'
    ensures PositiveWeight(v) <==> WrittenPositive(v)
  {
    Tail(v);
    assert v[..2] == [v[0], '.'];
    if AllDigits(v[2..]) {
      FractionBounds(v[2..]);
      WeightIs(v);
    }
  }

  lemma WeightIs(v: string)
    requires |v| >= 3 && (v[0] == '0' || v[0] == '1')
    ensures WeightValue(v) == Fraction(v[2..]) + if v[0] == '1' then 1.0 else 0.0
  {
  }

  // ---- The loop ---------------------------------------------------------------------------------

  /** The q-value check inside the loop: first point, integral part, then two passes over digits. */
  method CheckWeight(quality: string) returns (positive: bool)
    ensures positive <==> PositiveWeight(quality)
  {
    if quality == "" {
      return false;
    }
    var decimal := Find(quality, '.');
    var integral := if decimal.None? then quality else quality[..decimal.value];
    var fractional := if decimal.None? then "" else quality[decimal.value + 1..];
    if (integral != "0" && integral != "1") || (decimal.Some? && fractional == "") {
      if IsWeight(quality) {
        WeightShape(quality);
      }
      return false;
    }
    assert decimal.Some? ==> quality == integral + ['.'] + fractional && fractional == quality[2..];
    for i := 0 to |fractional|
      invariant forall k :: 0 <= k < i ==> IsDigit(fractional[k])
    {
      if !IsDigit(fractional[i]) {
        assert decimal.Some? && !AllDigits(quality[2..]);
        return false;
      }
    }
    FractionBounds(fractional);
    assert IsWeight(quality) && WeightValue(quality) == DigitValue(quality[0]) + Fraction(fractional);
    var allZero := true;
    for i := 0 to |fractional|
      invariant allZero <==> forall k :: 0 <= k < i ==> fractional[k] == '0'
    {
      allZero := allZero && fractional[i] == '0';
    }
    return if integral == "1" then allZero else !allZero;
  }

  /** A weight is its integral digit, alone or with a point and a non-empty rest. */
  lemma WeightShape(v: string)
    requires IsWeight(v)
    ensures match Find(v, '.')
            case None => v == "0" || v == "1"
            case Some(i) => (v[..i] == "0" || v[..i] == "1") && v[i + 1..] != ""
  {
    if |v| >= 3 {
      FindIs(v, '.', 1);
    }
  }

  /** One turn of the loop on the parameters that are left. */
  lemma QualityStep(rest: string)
    ensures rest == "" ==> HasPositiveQuality(rest)
    ensures match Find(rest, ';')
            case None => HasPositiveQuality(rest) <==> (IsQuality(rest) ==> PositiveWeight(QualityText(rest)))
            case Some(i) =>
              HasPositiveQuality(rest) <==>
                if IsQuality(rest[..i]) then PositiveWeight(QualityText(rest[..i]))
                else HasPositiveQuality(rest[i + 1..])
  {
    match Find(rest, ';')
    case None =>
      SplitWhole(rest, ';');
      assert [rest][1..] == [];
      assert QualityOk([]);
    case Some(i) =>
      SplitAt(rest, ';', i);
      assert ([rest[..i]] + Split(rest[i + 1..], ';'))[1..] == Split(rest[i + 1..], ';');
  }

  method HasPositiveQualityLoop(parameters: string) returns (positive: bool)
    ensures positive <==> HasPositiveQuality(parameters)
  {
    var rest := parameters;
    ghost var answer := HasPositiveQuality(parameters);
    while rest != ""
      invariant answer == HasPositiveQuality(rest)
      decreases |rest|
    {
      QualityStep(rest);
      var delimiter := Find(rest, ';');
      var raw := if delimiter.None? then rest else rest[..delimiter.value];
      var parameter := TrimAsciiWhitespace(raw);
      var separator := Find(parameter, '=');
      if separator.Some? {
        var name := TrimAsciiWhitespace(parameter[..separator.value]);
        var isQ := AsciiEqualIgnoreCase(name, "q", Lower);
        if isQ {
          var quality := TrimAsciiWhitespace(parameter[separator.value + 1..]);
          assert IsQuality(raw) && QualityText(raw) == quality;
          positive := CheckWeight(quality);
          return;
        }
      }
      assert !IsQuality(raw);
      if delimiter.None? {
        return true;
      }
      rest := rest[delimiter.value + 1..];
    }
    QualityStep("");
    return true;
  }

  /** Trimming the right of text that goes on after its first `k` characters with one that is no space. */
  lemma TrimRightAfter(s: string, k: nat) returns (r: string)
    requires k < |s| && !IsSpace(s[k])
    ensures AllSpace(r) && |TrimRight(s)| > k && s == TrimRight(s) + r
  {
    r := TrimRightSplits(s);
    var t := TrimRight(s);
    assert s == t + r;
  }

  /** Where the first '=' of such text is found once its right side has been trimmed. */
  lemma CutAtEquals(name: string, v: string) returns (r: string)
    requires '=' !in name
    ensures var t := TrimRight(name + ['='] + v);
            Find(t, '=') == Some(|name|) && t[..|name|] == name && t[|name| + 1..] + r == v && AllSpace(r)
  {
    var inner, k := name + ['='] + v, |name|;
    r := TrimRightAfter(inner, k);
    var t := TrimRight(inner);
    assert t[k] == inner[k] == '=';
    assert t[..k] == inner[..k] == name;
    assert inner[k + 1..] == v && inner[k + 1..] == t[k + 1..] + r;
    FindIs(t, '=', k);
  }

  /** A parameter is a q parameter whatever the case of its name and the whitespace around its parts. */
  lemma QualityNamed(l: string, q: char, m: string, v: string)
    requires AllSpace(l) && AllSpace(m) && (q == 'q' || q == 'Q')
    ensures IsQuality(l + ([q] + m + ['='] + v)) && QualityText(l + ([q] + m + ['='] + v)) == Trim(v)
  {
    var inner := [q] + m + ['='] + v;
    TrimLeftPad(l, inner);
    assert TrimLeft(inner) == inner;
    var r := CutAtEquals([q] + m, v);
    NameTrims(q, m);
    var rest := TrimRight(inner)[2 + |m|..];
    TrimPad("", rest, r);
    assert "" + rest + r == v;
  }

  lemma NameTrims(q: char, m: string)
    requires AllSpace(m) && (q == 'q' || q == 'Q')
    ensures Trim([q] + m) == [q] && EqualIgnoreCase([q], "q")
  {
    TrimPad("", [q], m);
    NothingToTrim([q]);
    assert "" + [q] + m == [q] + m;
  }

  // ---- Composition ------------------------------------------------------------------------------

  lemma HasQualityCons(ps: seq<string>)
    requires ps != []
    ensures HasQuality(ps) <==> IsQuality(ps[0]) || HasQuality(ps[1..])
  {
    assert forall i :: 1 <= i < |ps| ==> ps[i] == ps[1..][i - 1];
    assert forall i :: 0 <= i < |ps[1..]| ==> ps[1..][i] == ps[i + 1];
  }

  lemma {:induction false} QualityOkConcat(ps: seq<string>, qs: seq<string>)
    ensures QualityOk(ps + qs) == if HasQuality(ps) then QualityOk(ps) else QualityOk(qs)
  {
    if ps == [] {
      assert ps + qs == qs;
    } else {
      assert (ps + qs)[1..] == ps[1..] + qs;
      HasQualityCons(ps);
      QualityOkConcat(ps[1..], qs);
    }
  }

  /** Appending parameters changes nothing when a q parameter is already there. */
  lemma AppendParameters(p: string, r: string)
    ensures HasPositiveQuality(p + [';'] + r) ==
            if HasQuality(Split(p, ';')) then HasPositiveQuality(p) else HasPositiveQuality(r)
  {
    SplitConcat(p, r, ';');
    QualityOkConcat(Split(p, ';'), Split(r, ';'));
  }

  /** Only the trimmed parameters matter. */
  lemma {:induction false} QualityOkTrimmed(ps: seq<string>, qs: seq<string>)
    requires SamePieces(ps, qs)
    ensures QualityOk(ps) == QualityOk(qs)
  {
    if ps != [] {
      assert Trim(ps[0]) == Trim(qs[0]);
      assert SamePieces(ps[1..], qs[1..]);
      QualityOkTrimmed(ps[1..], qs[1..]);
    }
  }
}
