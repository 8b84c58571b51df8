/** The document part of McpHostConfigurationRepository: parse and the document that save writes, over
    a JSON tree. */
module ConfigDocument {
  import opened Common
  import opened Credentials
  import opened HexToken
  import Policy

  datatype Json =
    | JNull
    | JBool(b: bool)
    | JInt(n: int)
    | JString(s: string)
    | JArray(items: seq<Json>)
    | JObject(fields: map<string, Json>)

  /** `Throws` is an exception that leaves parse: only the reading of schema_version is outside its
      try block. */
  datatype Parsed = Ok(config: Configuration) | Err(reason: Reason) | Throws

  datatype Reason =
    | BadSchema | UnknownField | BadBounds | MissingCredentials | BadCredential | BadClientId | BadFieldType

  const COMMON_FIELDS := {
    "schema_version", "enabled", "bind_address", "port", "max_request_body_bytes", "maximum_connections",
    "allowed_origins"}

  function AllowedFields(version: int): set<string> {
    COMMON_FIELDS + {if version == 2 then "client_credentials" else "bearer_token_dpapi"}
  }

  /** What a Configuration starts from. */
  const DEFAULTS := Configuration(false, "127.0.0.1", 8765, 1024 * 1024, 16, [], [], "")

  // ---- Typed access, as the JSON library converts ----------------------------------------------

  const TWO16: int := 0x1_0000
  const TWO32: int := 0x1_0000_0000
  const TWO64: int := 0x1_0000_0000_0000_0000

  /** To int: an integer wraps to 32 bits with sign, a boolean counts as 0 or 1. */
  function ToInt32(j: Json): Option<int> {
    match j
    case JInt(n) => Some(if n % TWO32 < TWO32 / 2 then n % TWO32 else n % TWO32 - TWO32)
    case JBool(b) => Some(if b then 1 else 0)
    case _ => None
  }

  /** To unsigned short: as above, to 16 bits. */
  function ToUInt16(j: Json): Option<int> {
    match j
    case JInt(n) => Some(n % TWO16)
    case JBool(b) => Some(if b then 1 else 0)
    case _ => None
  }

  /** To size_t, the library's own unsigned type: integers only. */
  function ToSize(j: Json): Option<int> {
    match j
    case JInt(n) => Some(n % TWO64)
    case _ => None
  }

  function ToBool(j: Json): Option<bool> {
    match j
    case JBool(b) => Some(b)
    case _ => None
  }

  function ToText(j: Json): Option<string> {
    match j
    case JString(s) => Some(s)
    case _ => None
  }

  function ToTexts(items: seq<Json>): Option<seq<string>> {
    if items == [] then Some([])
    else
      match (ToText(items[0]), ToTexts(items[1..]))
      case (Some(s), Some(rest)) => Some([s] + rest)
      case _ => None
  }

  function ToTextArray(j: Json): Option<seq<string>> {
    match j
    case JArray(items) => ToTexts(items)
    case _ => None
  }

  /** value(key, default): the default when the key is absent, a type error when it does not convert. */
  function Value<T>(o: map<string, Json>, key: string, convert: Json -> Option<T>, default: T): Option<T> {
    if key in o then convert(o[key]) else Some(default)
  }

  // ---- Parse ------------------------------------------------------------------------------------

  predicate IsLoopback(address: string) {
    address == "127.0.0.1" || address == "::1"
  }

  predicate InBounds(c: Configuration) {
    && IsLoopback(c.bindAddress)
    && 0 < c.port < TWO16
    && 0 < c.maxRequestBodyBytes <= 16 * 1024 * 1024
    && 0 < c.maximumConnections <= 128
  }

  /** The fields both versions share, or a type error. */
  function ParseCommon(o: map<string, Json>): Option<Configuration> {
    var enabled := Value(o, "enabled", ToBool, false);
    var address := Value(o, "bind_address", ToText, "127.0.0.1");
    var port := Value(o, "port", ToUInt16, 8765);
    var body := Value(o, "max_request_body_bytes", ToSize, 1024 * 1024);
    var connections := Value(o, "maximum_connections", ToSize, 16);
    var origins := Value(o, "allowed_origins", ToTextArray, []);
    if enabled.Some? && address.Some? && port.Some? && body.Some? && connections.Some? && origins.Some? then
      Some(Configuration(
        enabled.value, address.value, port.value, body.value, connections.value, origins.value, [], ""))
    else None
  }

  function ParseCredential(j: Json): Option<Credential> {
    if j.JObject? && j.fields.Keys == {"client_id", "bearer_token_dpapi"}
       && j.fields["client_id"].JString? && j.fields["bearer_token_dpapi"].JString?
    then Some(Credential(j.fields["client_id"].s, j.fields["bearer_token_dpapi"].s))
    else None
  }

  datatype ParsedCredentials = Credentials(cs: seq<Credential>) | Bad(reason: Reason)

  /** The credential loop after the elements in `done`; the first bad element decides. */
  function ParseCredentials(items: seq<Json>, done: seq<Credential>): ParsedCredentials
    decreases |items|
  {
    if items == [] then Credentials(done)
    else
      match ParseCredential(items[0])
      case None => Bad(BadCredential)
      case Some(c) =>
        if c.clientId == "" || FindCredential(done, c.clientId).Some? then Bad(BadClientId)
        else ParseCredentials(items[1..], done + [c])
  }

  function ParseVersion(o: map<string, Json>, version: int): Parsed {
    if !(o.Keys <= AllowedFields(version)) then Err(UnknownField)
    else
      match ParseCommon(o)
      case None => Err(BadFieldType)
      case Some(c) =>
        if !InBounds(c) then Err(BadBounds)
        else if version == 1 then
          match Value(o, "bearer_token_dpapi", ToText, "")
          case None => Err(BadFieldType)
          case Some(t) => Ok(c.(legacyToken := t))
        else if "client_credentials" !in o || !o["client_credentials"].JArray? then Err(MissingCredentials)
        else
          match ParseCredentials(o["client_credentials"].items, [])
          case Bad(reason) => Err(reason)
          case Credentials(cs) => Ok(c.(credentials := cs))
  }

  function Parse(document: Json): Parsed {
    if !document.JObject? then Err(BadSchema)
    else
      match Value(document.fields, "schema_version", ToInt32, 0)
      case None => Throws
      case Some(version) =>
        if version != 1 && version != 2 then Err(BadSchema) else ParseVersion(document.fields, version)
  }

  /** The loop over client_credentials with its set of ids seen so far. */
  method ParseCredentialsLoop(items: seq<Json>) returns (result: ParsedCredentials)
    ensures result == ParseCredentials(items, [])
  {
    var cs: seq<Credential> := [];
    var ids: set<string> := {};
    assert items[0..] == items;
    for i := 0 to |items|
      invariant ParseCredentials(items, []) == ParseCredentials(items[i..], cs)
      invariant forall id :: id in ids <==> FindCredential(cs, id).Some?
    {
      assert items[i..][0] == items[i] && items[i..][1..] == items[i + 1..];
      var credential := ParseCredential(items[i]);
      if credential.None? {
        return Bad(BadCredential);
      }
      var c := credential.value;
      if c.clientId == "" || c.clientId in ids {
        return Bad(BadClientId);
      }
      forall id ensures FindCredential(cs + [c], id).Some? <==> FindCredential(cs, id).Some? || c.clientId == id {
        FindAppended(cs, c, id);
      }
      ids, cs := ids + {c.clientId}, cs + [c];
    }
    result := Credentials(cs);
  }

  // ---- Save -------------------------------------------------------------------------------------

  function CredentialJson(c: Credential): Json {
    JObject(map["client_id" := JString(c.clientId), "bearer_token_dpapi" := JString(c.protectedToken)])
  }

  function CredentialsJson(cs: seq<Credential>): seq<Json> {
    seq(|cs|, i requires 0 <= i < |cs| => CredentialJson(cs[i]))
  }

  function TextsJson(ss: seq<string>): seq<Json> {
    seq(|ss|, i requires 0 <= i < |ss| => JString(ss[i]))
  }

  /** The document save writes: always version 2, never a legacy token. */
  function Save(c: Configuration): Json {
    JObject(map[
      "schema_version" := JInt(2),
      "enabled" := JBool(c.enabled),
      "bind_address" := JString(c.bindAddress),
      "port" := JInt(c.port),
      "max_request_body_bytes" := JInt(c.maxRequestBodyBytes),
      "maximum_connections" := JInt(c.maximumConnections),
      "allowed_origins" := JArray(TextsJson(c.allowedOrigins)),
      "client_credentials" := JArray(CredentialsJson(c.credentials))])
  }

  // ---- Round trip -------------------------------------------------------------------------------

  ghost predicate IdsGood(cs: seq<Credential>) {
    UniqueIds(cs) && forall i :: 0 <= i < |cs| ==> cs[i].clientId != ""
  }

  /** The values a Configuration can hold: unsigned fields of their widths. */
  predicate InRange(c: Configuration) {
    0 <= c.port < TWO16 && 0 <= c.maxRequestBodyBytes < TWO64 && 0 <= c.maximumConnections < TWO64
  }

  lemma {:induction false} TextsRoundTrip(ss: seq<string>)
    ensures ToTexts(TextsJson(ss)) == Some(ss)
  {
    if ss != [] {
      TextsRoundTrip(ss[1..]);
      assert TextsJson(ss)[1..] == TextsJson(ss[1..]);
      assert [ss[0]] + ss[1..] == ss;
    }
  }

  lemma CredentialRoundTrip(c: Credential)
    ensures ParseCredential(CredentialJson(c)) == Some(c)
  {
    assert CredentialJson(c).fields.Keys == {"client_id", "bearer_token_dpapi"};
  }

  /** Element by element, the documents `items` hold the credentials `cs`. */
  ghost predicate ReadsAs(items: seq<Json>, cs: seq<Credential>) {
    |items| == |cs| && forall i :: 0 <= i < |cs| ==> ParseCredential(items[i]) == Some(cs[i])
  }

  /** The credential loop succeeds exactly on well-formed elements whose ids, together with those
      already read, are unique and not empty; and then it returns them all in order. */
  lemma {:induction false} ParsedCredentialsIff(items: seq<Json>, done: seq<Credential>, cs: seq<Credential>)
    requires IdsGood(done)
    ensures ParseCredentials(items, done) == Credentials(done + cs) <==> ReadsAs(items, cs) && IdsGood(done + cs)
    decreases |items|
  {
    if items == [] {
      assert done == done + cs <==> cs == [];
    } else {
      var first := ParseCredential(items[0]);
      if first.None? || cs == [] || first.value != cs[0] {
        ParsedExtends(items, done);
      } else {
        FirstCredential(items, done, cs);
      }
    }
  }

  /** The first element is right: then the rest decides, unless its id is bad. */
  lemma {:induction false} FirstCredential(items: seq<Json>, done: seq<Credential>, cs: seq<Credential>)
    requires IdsGood(done) && items != [] && cs != [] && ParseCredential(items[0]) == Some(cs[0])
    ensures ParseCredentials(items, done) == Credentials(done + cs) <==> ReadsAs(items, cs) && IdsGood(done + cs)
    decreases |items|, 0
  {
    var c := cs[0];
    assert (done + cs)[|done|] == c;
    assert done + [c] + cs[1..] == done + cs;
    if c.clientId == "" {
    } else if FindCredential(done, c.clientId).Some? {
      var i := FindCredential(done, c.clientId).value;
      assert (done + cs)[i].clientId == (done + cs)[|done|].clientId;
    } else {
      assert IdsGood(done + [c]);
      ParsedCredentialsIff(items[1..], done + [c], cs[1..]);
      assert ReadsAs(items, cs) <==> ReadsAs(items[1..], cs[1..]);
    }
  }

  /** What has been read stays at the front of the result, followed by the parsed elements. */
  lemma {:induction false} ParsedExtends(items: seq<Json>, done: seq<Credential>)
    ensures var r := ParseCredentials(items, done);
            r.Credentials? ==>
              && |r.cs| == |done| + |items| && r.cs[..|done|] == done
              && (items != [] ==> ParseCredential(items[0]) == Some(r.cs[|done|]))
    decreases |items|
  {
    if items != [] && ParseCredential(items[0]).Some? {
      ParsedExtends(items[1..], done + [ParseCredential(items[0]).value]);
    }
  }

  lemma SaveCommon(c: Configuration)
    requires InRange(c)
    ensures ParseCommon(Save(c).fields) == Some(c.(credentials := [], legacyToken := ""))
  {
    SavedAddress(c);
    SavedLimits(c);
  }

  lemma SavedAddress(c: Configuration)
    requires InRange(c)
    ensures var o := Save(c).fields;
            && Value(o, "enabled", ToBool, false) == Some(c.enabled)
            && Value(o, "bind_address", ToText, "127.0.0.1") == Some(c.bindAddress)
            && Value(o, "port", ToUInt16, 8765) == Some(c.port)
  {
  }

  lemma SavedLimits(c: Configuration)
    requires InRange(c)
    ensures var o := Save(c).fields;
            && Value(o, "max_request_body_bytes", ToSize, 1024 * 1024) == Some(c.maxRequestBodyBytes)
            && Value(o, "maximum_connections", ToSize, 16) == Some(c.maximumConnections)
            && Value(o, "allowed_origins", ToTextArray, []) == Some(c.allowedOrigins)
  {
    TextsRoundTrip(c.allowedOrigins);
  }

  /** If the loop succeeds at all, it returns the credentials the elements hold. */
  lemma {:induction false} NothingElseRead(items: seq<Json>, done: seq<Credential>, cs: seq<Credential>)
    requires ReadsAs(items, cs)
    ensures ParseCredentials(items, done).Credentials? ==> ParseCredentials(items, done) == Credentials(done + cs)
    decreases |items|
  {
    if items == [] {
      assert done + cs == done;
    } else {
      NothingElseRead(items[1..], done + [cs[0]], cs[1..]);
      assert done + [cs[0]] + cs[1..] == done + cs;
    }
  }

  lemma SavedCredentials(cs: seq<Credential>)
    ensures ParseCredentials(CredentialsJson(cs), []) == Credentials(cs) <==> IdsGood(cs)
    ensures ParseCredentials(CredentialsJson(cs), []).Credentials? ==>
              ParseCredentials(CredentialsJson(cs), []) == Credentials(cs)
  {
    var items := CredentialsJson(cs);
    forall i | 0 <= i < |cs| ensures ParseCredential(items[i]) == Some(cs[i]) {
      CredentialRoundTrip(cs[i]);
    }
    assert ReadsAs(items, cs) && [] + cs == cs;
    ParsedCredentialsIff(items, [], cs);
    NothingElseRead(items, [], cs);
  }

  /** A saved document is version 2 with known fields, so bounds and credentials alone decide. */
  lemma SavedIsVersion2(c: Configuration)
    ensures Parse(Save(c)) == ParseVersion(Save(c).fields, 2) && Save(c).fields.Keys == AllowedFields(2)
  {
    assert Value(Save(c).fields, "schema_version", ToInt32, 0) == Some(2);
  }

  lemma SavedParses(c: Configuration)
    requires InRange(c)
    ensures ParseVersion(Save(c).fields, 2) ==
            if !InBounds(c) then Err(BadBounds)
            else
              match ParseCredentials(CredentialsJson(c.credentials), [])
              case Bad(reason) => Err(reason)
              case Credentials(cs) => Ok(c.(credentials := cs, legacyToken := ""))
  {
    SavedIsVersion2(c);
    SaveCommon(c);
    assert Save(c).fields["client_credentials"] == JArray(CredentialsJson(c.credentials));
  }

  /** Reading back what save wrote gives the same configuration if and only if it has no legacy token,
      is within the bounds, and its client ids are unique and not empty. */
  lemma SaveParseRoundTrip(c: Configuration)
    requires InRange(c)
    ensures Parse(Save(c)) == Ok(c) <==> c.legacyToken == "" && InBounds(c) && IdsGood(c.credentials)
  {
    SavedIsVersion2(c);
    SavedParses(c);
    SavedCredentials(c.credentials);
  }

  /** If a saved configuration can be read at all, nothing but a legacy token has been lost. */
  lemma SavedReadsBack(c: Configuration)
    requires InRange(c) && Parse(Save(c)).Ok?
    ensures Parse(Save(c)) == Ok(c.(legacyToken := ""))
  {
    SavedIsVersion2(c);
    SavedParses(c);
    SavedCredentials(c.credentials);
  }

  /** Whatever parses is loopback-only and within the limits, and its client ids are good. */
  lemma ParseIsBounded(document: Json)
    requires Parse(document).Ok?
    ensures InBounds(Parse(document).config) && IdsGood(Parse(document).config.credentials)
    ensures Parse(document).config.legacyToken != "" ==> Parse(document).config.credentials == []
  {
    var o := document.fields;
    var version := Value(o, "schema_version", ToInt32, 0).value;
    if version == 2 {
      var items, cs := o["client_credentials"].items, Parse(document).config.credentials;
      assert [] + cs == cs;
      ParsedCredentialsIff(items, [], cs);
    }
  }

  /** A version 1 document with a token, reconciled with one profile, saved and parsed again, holds
      one credential: that profile's, with the same stored token, and no legacy token. */
  lemma LegacyMigration(pf: Platform, n: nat, n': nat, document: Json, profile: Policy.Profile, config': Configuration)
    requires Parse(document).Ok? && Parse(document).config.legacyToken != "" && profile.id != ""
    requires var config := Parse(document).config;
             && Reconciled(pf, config', [profile])
             && Extends(pf, n, n', Adopted(config, [profile]), config'.credentials, [profile])
             && config'.(credentials := config.credentials, legacyToken := config.legacyToken) == config
    ensures Parse(Save(config')) == Ok(config')
    ensures config'.credentials == [Credential(profile.id, Parse(document).config.legacyToken)]
  {
    var config := Parse(document).config;
    ParseIsBounded(document);
    OneCredentialPerProfile(pf, n, n', config, config', [profile]);
    assert Adopted(config, [profile]) == [Credential(profile.id, config.legacyToken)];
    assert config'.credentials == Adopted(config, [profile]);
    SaveParseRoundTrip(config');
  }
}
