/** accepts_media_type: the offset loop over an Accept list against "some element names this type, with
    positive quality" (RFC 9110, section 12.5.1, under the code's rule that wildcards match nothing). */
module AcceptList {
  import opened Common
  import opened HttpText
  import opened Quality

  /** An element lists the type when its part before the first ';' is the type, ignoring case and
      surrounding whitespace, and its parameters leave the quality positive. */
  ghost predicate Lists(element: string, expected: string) {
    var ps := Split(element, ';');
    EqualIgnoreCase(Trim(ps[0]), expected) && QualityOk(ps[1..])
  }

  ghost predicate AnyLists(elements: seq<string>, expected: string) {
    exists i :: 0 <= i < |elements| && Lists(elements[i], expected)
  }

  ghost predicate Accepts(accept: string, expected: string) {
    AnyLists(Split(accept, ','), expected)
  }

  lemma ListsTrimmed(element: string, expected: string)
    ensures Lists(Trim(element), expected) == Lists(element, expected)
  {
    var ps, qs := Split(Trim(element), ';'), Split(element, ';');
    SplitTrimmed(element, ';');
    assert SamePieces(ps[1..], qs[1..]);
    QualityOkTrimmed(ps[1..], qs[1..]);
  }

  /** One turn of the loop: trim the element, cut at the first ';', compare, weigh. */
  method TestElement(element: string, expected: string) returns (lists: bool)
    ensures lists <==> Lists(element, expected)
  {
    var item := TrimAsciiWhitespace(element);
    ListsTrimmed(element, expected);
    var parameters := Find(item, ';');
    var mediaType := TrimAsciiWhitespace(if parameters.None? then item else item[..parameters.value]);
    var named := AsciiEqualIgnoreCase(mediaType, expected, Lower);
    if !named || parameters.None? {
      return named;
    }
    lists := HasPositiveQualityLoop(item[parameters.value + 1..]);
  }

  lemma AnyListsConcat(es: seq<string>, fs: seq<string>, expected: string)
    ensures AnyLists(es + fs, expected) <==> AnyLists(es, expected) || AnyLists(fs, expected)
  {
    if AnyLists(es + fs, expected) {
      var i :| 0 <= i < |es + fs| && Lists((es + fs)[i], expected);
      assert if i < |es| then Lists(es[i], expected) else Lists(fs[i - |es|], expected);
    }
    if AnyLists(es, expected) {
      var i :| 0 <= i < |es| && Lists(es[i], expected);
      assert Lists((es + fs)[i], expected);
    }
    if AnyLists(fs, expected) {
      var i :| 0 <= i < |fs| && Lists(fs[i], expected);
      assert Lists((es + fs)[|es| + i], expected);
    }
  }

  lemma AnyListsOne(element: string, expected: string)
    ensures AnyLists([element], expected) <==> Lists(element, expected)
  {
    assert [element][0] == element;
  }

  /** The test of the whole is the test of the first element, or else of what follows its comma. */
  lemma AcceptsStep(rest: string, expected: string)
    ensures match Find(rest, ',')
            case None => Accepts(rest, expected) <==> Lists(rest, expected)
            case Some(i) => Accepts(rest, expected) <==> Lists(rest[..i], expected) || Accepts(rest[i + 1..], expected)
  {
    match Find(rest, ',')
    case None =>
      SplitWhole(rest, ',');
      AnyListsOne(rest, expected);
    case Some(i) =>
      SplitAt(rest, ',', i);
      AnyListsConcat([rest[..i]], Split(rest[i + 1..], ','), expected);
      AnyListsOne(rest[..i], expected);
  }

  method AcceptsMediaType(accept: string, expected: string) returns (accepted: bool)
    ensures accepted <==> Accepts(accept, expected)
  {
    var offset := 0;
    ghost var rest := accept;
    ghost var answer := Accepts(accept, expected);
    while offset <= |accept|
      invariant 0 <= offset <= |accept| && rest == accept[offset..]
      invariant answer == Accepts(rest, expected)
      decreases |accept| - offset
    {
      AcceptsStep(rest, expected);
      var delimiter := Find(accept[offset..], ',');
      var element := if delimiter.None? then accept[offset..] else accept[offset..][..delimiter.value];
      var lists := TestElement(element, expected);
      if lists {
        return true;
      }
      if delimiter.None? {
        return false;
      }
      rest := rest[delimiter.value + 1..];
      offset := offset + delimiter.value + 1;
    }
    return false;
  }

  // ---- Composition ------------------------------------------------------------------------------

  /** Joining two lists with a comma accepts what either accepts, so order never matters. */
  lemma AcceptsHomomorphism(a: string, b: string, expected: string)
    ensures Accepts(a + [','] + b, expected) <==> Accepts(a, expected) || Accepts(b, expected)
  {
    SplitConcat(a, b, ',');
    AnyListsConcat(Split(a, ','), Split(b, ','), expected);
  }

  lemma ListsSame(element: string, other: string, expected: string)
    requires Trim(element) == Trim(other)
    ensures Lists(element, expected) == Lists(other, expected)
  {
    ListsTrimmed(element, expected);
    ListsTrimmed(other, expected);
  }

  lemma AcceptsPadded(w: string, b: string, expected: string)
    requires AllSpace(w)
    ensures Accepts(w + b, expected) <==> Accepts(b, expected)
  {
    var ps, qs := Split(w + b, ','), Split(b, ',');
    SplitLeftPad(w, b, ',');
    forall i | 0 <= i < |ps| ensures Lists(ps[i], expected) == Lists(qs[i], expected) {
      ListsSame(ps[i], qs[i], expected);
    }
  }

  /** What clients send: after a comma any of the six whitespace characters may follow, and changes nothing. */
  lemma AcceptsSpacedList(a: string, w: string, b: string, expected: string)
    requires forall c :: c in w ==> c in " \t\n\U{b}\U{c}\r"
    ensures Accepts(a + [','] + (w + b), expected) <==> Accepts(a, expected) || Accepts(b, expected)
  {
    forall i | 0 <= i < |w| ensures IsSpace(w[i]) {
      SpacesAre(w[i]);
    }
    AcceptsHomomorphism(a, w + b, expected);
    AcceptsPadded(w, b, expected);
  }

  /** One bare type, with any of those characters around it, is accepted exactly if it is the expected type,
      letter for letter in either case. */
  lemma AcceptsOneType(l: string, m: string, r: string, expected: string)
    requires forall c :: c in l + r ==> c in " \t\n\U{b}\U{c}\r"
    requires Plain(m) && (m != "" ==> m[0] !in " \t\n\U{b}\U{c}\r" && m[|m| - 1] !in " \t\n\U{b}\U{c}\r")
    ensures Accepts(l + m + r, expected) <==>
              |m| == |expected| && forall i :: 0 <= i < |m| ==> SameLetter(m[i], expected[i])
  {
    var text := l + m + r;
    forall i | 0 <= i < |text| ensures text[i] != ',' {
      assert text[i] in l + r || text[i] in m;
    }
    TrimIs(l, m, r);
    SplitWhole(text, ',');
    AnyListsOne(text, expected);
    ListsTrimmed(text, expected);
    SplitWhole(m, ';');
    assert [m][1..] == [];
    assert QualityOk([]);
    assert Trim(m) == m by {
      TrimIs("", m, "");
      assert "" + m + "" == m;
    }
    forall i | 0 <= i < |m| && i < |expected|
      ensures Lower(m[i]) == Lower(expected[i]) <==> SameLetter(m[i], expected[i])
    {
      LowerIdentifies(m[i], expected[i]);
    }
  }

  // ---- Printing ---------------------------------------------------------------------------------

  /** An abstract list element: a type, parameters, an optional weight, and parameters after it. */
  datatype Media = Media(mediaType: string, parameters: seq<string>, weight: Option<string>, extensions: seq<string>)

  ghost predicate Plain(s: string) {
    ',' !in s && ';' !in s
  }

  ghost predicate AllPlain(ss: seq<string>) {
    forall i :: 0 <= i < |ss| ==> Plain(ss[i])
  }

  ghost predicate Printable(m: Media) {
    && Plain(m.mediaType) && Trim(m.mediaType) == m.mediaType
    && AllPlain(m.parameters) && !HasQuality(m.parameters)
    && (match m.weight
        case None => m.extensions == []
        case Some(w) => Plain(w) && Trim(w) == w)
    && AllPlain(m.extensions)
  }

  function Texts(m: Media): seq<string> {
    [m.mediaType] + m.parameters + (if m.weight.Some? then ["q=" + m.weight.value] else []) + m.extensions
  }

  ghost predicate PrintedFrom(parts: seq<string>, printed: string, m: Media) {
    |parts| > 0 && AllPlain(parts) && SamePieces(parts, Texts(m)) && printed == Join(parts, ';')
  }

  /** `printed` is the element written out, with any whitespace around its parts. */
  ghost predicate Prints(printed: string, m: Media) {
    exists parts: seq<string> :: PrintedFrom(parts, printed, m)
  }

  ghost predicate Wanted(m: Media, expected: string) {
    EqualIgnoreCase(m.mediaType, expected) && (m.weight.Some? ==> PositiveWeight(m.weight.value))
  }

  lemma WeightParameter(w: string)
    requires Trim(w) == w
    ensures IsQuality("q=" + w) && QualityText("q=" + w) == w
  {
    var p := "q=" + w;
    TrimWeightParameter(w);
    var t := Trim(p);
    assert t[..1] == "q" && t[1] == '=';
    FindIs(t, '=', 1);
    assert t[2..] == w;
  }

  lemma TrimWeightParameter(w: string)
    requires Trim(w) == w
    ensures Trim("q=" + w) == "q=" + w
  {
    var p := "q=" + w;
    assert TrimLeft(p) == p;
    if w != "" {
      TrimmedEnds(w);
      assert p[|p| - 1] == w[|w| - 1];
    }
  }

  /** After other parameters, a weight decides; what follows it does not matter. */
  lemma WeightDecides(parameters: seq<string>, w: string, extensions: seq<string>)
    requires Trim(w) == w && !HasQuality(parameters)
    ensures QualityOk(parameters + (["q=" + w] + extensions)) <==> PositiveWeight(w)
  {
    QualityOkConcat(parameters, ["q=" + w] + extensions);
    WeightParameter(w);
    assert (["q=" + w] + extensions)[0] == "q=" + w;
  }

  lemma NoWeightIsOk(parameters: seq<string>)
    requires !HasQuality(parameters)
    ensures QualityOk(parameters)
  {
    QualityOkConcat(parameters, []);
    assert parameters + [] == parameters;
  }

  lemma TextsQuality(m: Media)
    requires Printable(m)
    ensures QualityOk(Texts(m)[1..]) <==> (m.weight.Some? ==> PositiveWeight(m.weight.value))
  {
    match m.weight
    case None =>
      assert Texts(m)[1..] == m.parameters;
      NoWeightIsOk(m.parameters);
    case Some(w) =>
      assert Texts(m)[1..] == m.parameters + (["q=" + w] + m.extensions);
      WeightDecides(m.parameters, w, m.extensions);
  }

  lemma PartsTell(parts: seq<string>, m: Media, expected: string)
    requires Printable(m) && SamePieces(parts, Texts(m))
    ensures EqualIgnoreCase(Trim(parts[0]), expected) && QualityOk(parts[1..]) <==> Wanted(m, expected)
  {
    assert Trim(parts[0]) == Trim(Texts(m)[0]) == m.mediaType;
    assert SamePieces(parts[1..], Texts(m)[1..]);
    QualityOkTrimmed(parts[1..], Texts(m)[1..]);
    TextsQuality(m);
  }

  /** A printed element lists a type exactly when the abstract element wants it. */
  lemma PrintedElement(printed: string, m: Media, expected: string)
    requires Printable(m) && Prints(printed, m)
    ensures Lists(printed, expected) <==> Wanted(m, expected)
  {
    var parts: seq<string> :| PrintedFrom(parts, printed, m);
    SplitJoin(parts, ';');
    PartsTell(parts, m, expected);
  }

  lemma {:induction false} JoinPlain(parts: seq<string>)
    requires |parts| > 0 && AllPlain(parts)
    ensures ',' !in Join(parts, ';')
  {
    if |parts| > 1 {
      JoinPlain(parts[1..]);
    }
  }

  /** Writing out any unquoted list, in any order and with any whitespace, and testing the text gives
      the answer of the abstract list. */
  lemma PrintedList(printed: seq<string>, ms: seq<Media>, expected: string)
    requires |printed| == |ms| > 0
    requires forall i :: 0 <= i < |ms| ==> Printable(ms[i]) && Prints(printed[i], ms[i])
    ensures Accepts(Join(printed, ','), expected) <==> exists i :: 0 <= i < |ms| && Wanted(ms[i], expected)
  {
    forall i | 0 <= i < |ms|
      ensures ',' !in printed[i] && (Lists(printed[i], expected) <==> Wanted(ms[i], expected))
    {
      PrintedElement(printed[i], ms[i], expected);
      var parts: seq<string> :| PrintedFrom(parts, printed[i], ms[i]);
      JoinPlain(parts);
    }
    SplitJoin(printed, ',');
  }
}
