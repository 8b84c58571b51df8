/** Hexadecimal coding of protected bytes, and bearer tokens that must pass their own verifier. The
    random source and DPAPI are oracles; a stored string is text, a secret is bytes. */
module HexToken {
  import opened Common

  // ---- Digits -----------------------------------------------------------------------------------

  function HexChar(n: bv8): char {
    if n == 0 then '0' else if n == 1 then '1' else if n == 2 then '2' else if n == 3 then '3'
    else if n == 4 then '4' else if n == 5 then '5' else if n == 6 then '6' else if n == 7 then '7'
    else if n == 8 then '8' else if n == 9 then '9' else if n == 10 then 'a' else if n == 11 then 'b'
    else if n == 12 then 'c' else if n == 13 then 'd' else if n == 14 then 'e' else 'f'
  }

  function HexValue(c: char): Option<bv8> {
    match c
    case '0' => Some(0) case '1' => Some(1) case '2' => Some(2) case '3' => Some(3)
    case '4' => Some(4) case '5' => Some(5) case '6' => Some(6) case '7' => Some(7)
    case '8' => Some(8) case '9' => Some(9)
    case 'a' => Some(10) case 'b' => Some(11) case 'c' => Some(12)
    case 'd' => Some(13) case 'e' => Some(14) case 'f' => Some(15)
    case 'A' => Some(10) case 'B' => Some(11) case 'C' => Some(12)
    case 'D' => Some(13) case 'E' => Some(14) case 'F' => Some(15)
    case _ => None
  }

  const DIGITS := "0123456789abcdef"

  /** The digits written out, and in both cases when read. */
  lemma DigitsAre(n: bv8)
    requires n < 16
    ensures HexChar(n) == DIGITS[n as int] && HexByte(n) as int == DIGITS[n as int] as int
  {
    LowNibble(n);
  }

  lemma ValuesAre(c: char)
    ensures match HexValue(c)
            case Some(v) => v < 16 && (c == DIGITS[v as int] || c == "0123456789ABCDEF"[v as int])
            case None => c !in "0123456789abcdefABCDEF"
  {
  }

  lemma DigitRoundTrip(n: bv8)
    requires n < 16
    ensures HexValue(HexChar(n)) == Some(n)
  {
    LowNibble(n);
  }

  lemma LowNibble(n: bv8)
    requires n < 16
    ensures n == 0 || n == 1 || n == 2 || n == 3 || n == 4 || n == 5 || n == 6 || n == 7
         || n == 8 || n == 9 || n == 10 || n == 11 || n == 12 || n == 13 || n == 14 || n == 15
  {
  }

  /** The high and the low four bits, and a byte put together from them. */
  function High(b: bv8): (h: bv8)
    ensures h < 16
  {
    b / 16
  }

  function Low(b: bv8): (l: bv8)
    ensures l < 16
  {
    b & 15
  }

  function Byte(hi: bv8, lo: bv8): bv8 {
    (hi * 16) | lo
  }

  lemma Nibbles(b: bv8)
    ensures Byte(High(b), Low(b)) == b == 16 * High(b) + Low(b)
  {
  }

  // ---- Coding -----------------------------------------------------------------------------------

  function HexEncode(bytes: Octets): string {
    if bytes == [] then ""
    else [HexChar(High(bytes[0])), HexChar(Low(bytes[0]))] + HexEncode(bytes[1..])
  }

  /** How the stream extraction of hex_decode reads a pair that is not two hexadecimal digits. */
  type Lenient = (char, char) -> Option<bv8>

  function DecodePair(a: char, b: char, lenient: Lenient): Option<bv8> {
    var hi, lo := HexValue(a), HexValue(b);
    if hi.Some? && lo.Some? then Some(Byte(hi.value, lo.value)) else lenient(a, b)
  }

  function DecodePairs(s: string, lenient: Lenient): Option<Octets>
    requires |s| % 2 == 0
  {
    if s == "" then Some([])
    else
      match DecodePair(s[0], s[1], lenient)
      case None => None
      case Some(b) =>
        match DecodePairs(s[2..], lenient)
        case None => None
        case Some(rest) => Some([b] + rest)
  }

  function HexDecode(s: string, lenient: Lenient): Option<Octets> {
    if s == "" || |s| % 2 != 0 then None else DecodePairs(s, lenient)
  }

  method HexEncodeLoop(bytes: Octets) returns (s: string)
    ensures s == HexEncode(bytes)
  {
    s := "";
    for i := 0 to |bytes|
      invariant s + HexEncode(bytes[i..]) == HexEncode(bytes)
    {
      assert bytes[i..][1..] == bytes[i + 1..];
      s := s + [HexChar(High(bytes[i])), HexChar(Low(bytes[i]))];
    }
  }

  method HexDecodeLoop(value: string, lenient: Lenient) returns (result: Option<Octets>)
    ensures result == HexDecode(value, lenient)
  {
    if value == "" || |value| % 2 != 0 {
      return None;
    }
    var bytes: Octets := [];
    var index := 0;
    assert value[0..] == value && forall rest: Octets :: [] + rest == rest;
    while index < |value|
      invariant 0 <= index <= |value| && index % 2 == 0
      invariant DecodePairs(value, lenient) ==
                match DecodePairs(value[index..], lenient) case None => None case Some(rest) => Some(bytes + rest)
    {
      var rest := value[index..];
      assert rest[2..] == value[index + 2..];
      var byte := DecodePair(value[index], value[index + 1], lenient);
      if byte.None? {
        return None;
      }
      assert forall tail: Octets :: bytes + ([byte.value] + tail) == bytes + [byte.value] + tail;
      bytes := bytes + [byte.value];
      index := index + 2;
    }
    assert value[index..] == "" && bytes + [] == bytes;
    result := Some(bytes);
  }

  lemma {:induction false} EncodeDecode(bytes: Octets, lenient: Lenient)
    ensures |HexEncode(bytes)| == 2 * |bytes|
    ensures DecodePairs(HexEncode(bytes), lenient) == Some(bytes)
  {
    if bytes != [] {
      var b, s := bytes[0], HexEncode(bytes);
      Nibbles(b);
      DigitRoundTrip(High(b));
      DigitRoundTrip(Low(b));
      assert s[2..] == HexEncode(bytes[1..]);
      EncodeDecode(bytes[1..], lenient);
      assert [b] + bytes[1..] == bytes;
    }
  }

  lemma EncodedFirst(bytes: Octets)
    requires bytes != []
    ensures |HexEncode(bytes)| >= 2 && HexEncode(bytes)[2..] == HexEncode(bytes[1..])
    ensures HexEncode(bytes)[0] == DIGITS[High(bytes[0]) as int] && HexEncode(bytes)[1] == DIGITS[Low(bytes[0]) as int]
  {
    DigitsAre(High(bytes[0]));
    DigitsAre(Low(bytes[0]));
  }

  /** Each byte becomes two digits, the higher first. */
  lemma {:induction false} EncodedAt(bytes: Octets, i: nat)
    requires i < |bytes|
    ensures |HexEncode(bytes)| == 2 * |bytes|
    ensures HexEncode(bytes)[2 * i] == DIGITS[High(bytes[i]) as int]
    ensures HexEncode(bytes)[2 * i + 1] == DIGITS[Low(bytes[i]) as int]
  {
    EncodeDecode(bytes, (a, b) => None);
    EncodedFirst(bytes);
    if i > 0 {
      EncodedAt(bytes[1..], i - 1);
    }
  }

  /** Decoding what was encoded gives it back, except for the empty string, which is refused. */
  lemma HexRoundTrip(bytes: Octets, lenient: Lenient)
    ensures HexDecode(HexEncode(bytes), lenient) == if bytes == [] then None else Some(bytes)
  {
    EncodeDecode(bytes, lenient);
  }

  // ---- Tokens -----------------------------------------------------------------------------------

  function HexByte(n: bv8): bv8 {
    if n < 10 then 48 + n else 87 + n
  }

  predicate IsHexByte(b: bv8) {
    48 <= b <= 57 || 65 <= b <= 70 || 97 <= b <= 102
  }

  /** The token for a seed: two lower-case hexadecimal digits per byte. */
  function TokenOf(seed: Octets): (t: Octets)
    ensures |t| == 2 * |seed|
  {
    seq(2 * |seed|, k requires 0 <= k < 2 * |seed| =>
      HexByte(if k % 2 == 0 then High(seed[k / 2]) else Low(seed[k / 2])))
  }

  lemma HexByteInjective(m: bv8, n: bv8)
    requires m < 16 && n < 16 && HexByte(m) == HexByte(n)
    ensures m == n && IsHexByte(HexByte(m))
  {
  }

  lemma SameNibbles(a: bv8, b: bv8)
    requires High(a) == High(b) && Low(a) == Low(b)
    ensures a == b
  {
  }

  /** The token is the encoding of the seed, byte for character. */
  lemma TokenIsEncoding(seed: Octets, k: nat)
    requires k < 2 * |seed|
    ensures |HexEncode(seed)| == 2 * |seed| && TokenOf(seed)[k] as int == HexEncode(seed)[k] as int
  {
    EncodedAt(seed, k / 2);
    DigitsAre(High(seed[k / 2]));
    DigitsAre(Low(seed[k / 2]));
  }

  /** Distinct seeds of one length give distinct tokens. */
  lemma TokensInjective(s: Octets, t: Octets)
    requires TokenOf(s) == TokenOf(t)
    ensures s == t
  {
    assert |s| == |t|;
    forall i | 0 <= i < |s| ensures s[i] == t[i] {
      assert TokenOf(s)[2 * i] == HexByte(High(s[i])) && TokenOf(t)[2 * i] == HexByte(High(t[i]));
      assert TokenOf(s)[2 * i + 1] == HexByte(Low(s[i])) && TokenOf(t)[2 * i + 1] == HexByte(Low(t[i]));
      Nibbles(s[i]);
      Nibbles(t[i]);
      HexByteInjective(High(s[i]), High(t[i]));
      HexByteInjective(Low(s[i]), Low(t[i]));
      SameNibbles(s[i], t[i]);
    }
  }

  /** The operating system: the n-th call of the random source, protect for a token made from the n-th
      random bytes, unprotect, and the stream behaviour on malformed pairs. */
  datatype Platform = Platform(
    random: nat -> Option<Octets>,
    protect: (Octets, nat) -> Option<Octets>,
    unprotect: Octets -> Option<Octets>,
    lenient: Lenient)

  /** What is assumed of it: 32 bytes when asked for 32, and ciphertext that is not empty and
      decrypts to what was encrypted. Any call may still fail. */
  ghost predicate Sound(pf: Platform) {
    && (forall n :: pf.random(n).Some? ==> |pf.random(n).value| == 32)
    && (forall t, n :: pf.protect(t, n).Some? ==>
          pf.protect(t, n).value != [] && pf.unprotect(pf.protect(t, n).value) == Some(t))
  }

  function Generate(pf: Platform, n: nat): Option<string> {
    match pf.random(n)
    case None => None
    case Some(seed) =>
      match pf.protect(TokenOf(seed), n)
      case None => None
      case Some(cipher) => Some(HexEncode(cipher))
  }

  ghost predicate IsToken(t: Octets) {
    |t| == 64 && forall i :: 0 <= i < |t| ==> IsHexByte(t[i])
  }

  /** The verifier: decode, decrypt, and insist on 64 hexadecimal digits. */
  ghost function Unprotect(pf: Platform, stored: string): Option<Octets> {
    match HexDecode(stored, pf.lenient)
    case None => None
    case Some(cipher) =>
      match pf.unprotect(cipher)
      case None => None
      case Some(t) => if IsToken(t) then Some(t) else None
  }

  method GenerateProtectedBearerToken(pf: Platform, n: nat) returns (stored: Option<string>)
    ensures stored == Generate(pf, n)
  {
    var seed := pf.random(n);
    if seed.None? {
      return None;
    }
    var bytes := seed.value;
    var token := new bv8[2 * |bytes|];
    for i := 0 to |bytes|
      invariant forall k :: 0 <= k < 2 * i ==> token[k] == TokenOf(bytes)[k]
    {
      token[2 * i] := HexByte(High(bytes[i]));
      token[2 * i + 1] := HexByte(Low(bytes[i]));
    }
    assert token[..] == TokenOf(bytes);
    var cipher := pf.protect(token[..], n);
    if cipher.None? {
      return None;
    }
    var s := HexEncodeLoop(cipher.value);
    stored := Some(s);
  }

  method UnprotectBearerToken(pf: Platform, stored: string) returns (token: Option<Octets>)
    ensures token == Unprotect(pf, stored)
    ensures token.Some? <==>
              var cipher := HexDecode(stored, pf.lenient);
              cipher.Some? && pf.unprotect(cipher.value).Some? && |pf.unprotect(cipher.value).value| == 64
              && forall i :: 0 <= i < 64 ==>
                   var b := pf.unprotect(cipher.value).value[i];
                   48 <= b <= 57 || 65 <= b <= 70 || 97 <= b <= 102
    ensures token.Some? ==> token == pf.unprotect(HexDecode(stored, pf.lenient).value)
  {
    var cipher := HexDecodeLoop(stored, pf.lenient);
    if cipher.None? {
      return None;
    }
    var plain := pf.unprotect(cipher.value);
    if plain.None? || |plain.value| != 64 {
      return None;
    }
    for i := 0 to |plain.value|
      invariant forall k :: 0 <= k < i ==> IsHexByte(plain.value[k])
    {
      if !IsHexByte(plain.value[i]) {
        return None;
      }
    }
    token := plain;
  }

  lemma TokenIsHex(seed: Octets)
    requires |seed| == 32
    ensures IsToken(TokenOf(seed))
  {
    forall k | 0 <= k < 64 ensures IsHexByte(TokenOf(seed)[k]) {
      Nibbles(seed[k / 2]);
      var n := if k % 2 == 0 then High(seed[k / 2]) else Low(seed[k / 2]);
      HexByteInjective(n, n);
    }
  }

  /** A generated token is accepted by the verifier and comes back byte for byte. */
  lemma GeneratedTokenVerifies(pf: Platform, n: nat)
    requires Sound(pf) && Generate(pf, n).Some?
    ensures Generate(pf, n).value != ""
    ensures Unprotect(pf, Generate(pf, n).value) == Some(TokenOf(pf.random(n).value))
  {
    var seed := pf.random(n).value;
    var cipher := pf.protect(TokenOf(seed), n).value;
    HexRoundTrip(cipher, pf.lenient);
    TokenIsHex(seed);
  }
}
