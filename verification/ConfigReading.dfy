/** What a configuration document means, written out key by key, against parse. */
module ConfigReading {
  import opened Common
  import opened ConfigDocument
  import opened Credentials

  /** The schema_version key holds this number, as the JSON library narrows it to an int. */
  predicate HasVersion(o: map<string, Json>, version: int) {
    "schema_version" in o &&
      match o["schema_version"]
      case JInt(n) => n % 0x1_0000_0000 == version
      case JBool(b) => version == if b then 1 else 0
      case _ => false
  }

  predicate TextsAre(items: seq<Json>, texts: seq<string>) {
    |items| == |texts| && forall i :: 0 <= i < |items| ==> items[i] == JString(texts[i])
  }

  /** The keys both versions have, with what stands for an absent one. */
  predicate SharedFields(o: map<string, Json>, c: Configuration) {
    && (if "enabled" in o then o["enabled"] == JBool(c.enabled) else !c.enabled)
    && (if "bind_address" in o then o["bind_address"] == JString(c.bindAddress) else c.bindAddress == "127.0.0.1")
    && (if "port" in o then
          match o["port"]
          case JInt(n) => c.port == n % 65536
          case JBool(b) => c.port == if b then 1 else 0
          case _ => false
        else c.port == 8765)
    && (if "max_request_body_bytes" in o then
          var j := o["max_request_body_bytes"];
          j.JInt? && c.maxRequestBodyBytes == j.n % 0x1_0000_0000_0000_0000
        else c.maxRequestBodyBytes == 1048576)
    && (if "maximum_connections" in o then
          var j := o["maximum_connections"]; j.JInt? && c.maximumConnections == j.n % 0x1_0000_0000_0000_0000
        else c.maximumConnections == 16)
    && (if "allowed_origins" in o then
          o["allowed_origins"].JArray? && TextsAre(o["allowed_origins"].items, c.allowedOrigins)
        else c.allowedOrigins == [])
  }

  predicate WithinBounds(c: Configuration) {
    && (c.bindAddress == "127.0.0.1" || c.bindAddress == "::1")
    && 1 <= c.port <= 65535 && 1 <= c.maxRequestBodyBytes <= 16777216 && 1 <= c.maximumConnections <= 128
  }

  ghost predicate ReadsVersion1(o: map<string, Json>, c: Configuration) {
    && o.Keys <= {"schema_version", "enabled", "bind_address", "port", "max_request_body_bytes",
                  "maximum_connections", "allowed_origins", "bearer_token_dpapi"}
    && SharedFields(o, c) && WithinBounds(c) && c.credentials == []
    && if "bearer_token_dpapi" in o then o["bearer_token_dpapi"] == JString(c.legacyToken) else c.legacyToken == ""
  }

  ghost predicate HoldsCredential(j: Json, c: Credential) {
    j == JObject(map["client_id" := JString(c.clientId), "bearer_token_dpapi" := JString(c.protectedToken)])
  }

  ghost predicate ReadsVersion2(o: map<string, Json>, c: Configuration) {
    && o.Keys <= {"schema_version", "enabled", "bind_address", "port", "max_request_body_bytes",
                  "maximum_connections", "allowed_origins", "client_credentials"}
    && SharedFields(o, c) && WithinBounds(c) && c.legacyToken == ""
    && "client_credentials" in o && o["client_credentials"].JArray?
    && var items := o["client_credentials"].items;
       && |items| == |c.credentials|
       && (forall i :: 0 <= i < |items| ==>
             HoldsCredential(items[i], c.credentials[i]) && c.credentials[i].clientId != "")
       && forall i, j :: 0 <= i < j < |items| ==> c.credentials[i].clientId != c.credentials[j].clientId
  }

  lemma {:induction false} TextsIff(items: seq<Json>, texts: seq<string>)
    ensures ToTexts(items) == Some(texts) <==> TextsAre(items, texts)
    decreases |items|
  {
    if items != [] {
      if texts != [] {
        TextsIff(items[1..], texts[1..]);
        assert texts == [texts[0]] + texts[1..];
        assert TextsAre(items, texts) <==> items[0] == JString(texts[0]) && TextsAre(items[1..], texts[1..]);
      }
    }
  }

  lemma CredentialIff(j: Json, c: Credential)
    ensures ParseCredential(j) == Some(c) <==> HoldsCredential(j, c)
  {
    if ParseCredential(j) == Some(c) {
      assert j.fields == map["client_id" := JString(c.clientId), "bearer_token_dpapi" := JString(c.protectedToken)];
    }
    if HoldsCredential(j, c) {
      assert j.fields.Keys == {"client_id", "bearer_token_dpapi"};
    }
  }

  lemma AddressIff(o: map<string, Json>, c: Configuration)
    ensures Value(o, "enabled", ToBool, false) == Some(c.enabled) <==>
              if "enabled" in o then o["enabled"] == JBool(c.enabled) else !c.enabled
    ensures Value(o, "bind_address", ToText, "127.0.0.1") == Some(c.bindAddress) <==>
              if "bind_address" in o then o["bind_address"] == JString(c.bindAddress) else c.bindAddress == "127.0.0.1"
    ensures Value(o, "port", ToUInt16, 8765) == Some(c.port) <==>
              if "port" in o then
                match o["port"]
                case JInt(n) => c.port == n % 65536
                case JBool(b) => c.port == if b then 1 else 0
                case _ => false
              else c.port == 8765
  {
  }

  lemma LimitsIff(o: map<string, Json>, c: Configuration)
    ensures Value(o, "max_request_body_bytes", ToSize, 1024 * 1024) == Some(c.maxRequestBodyBytes) <==>
              if "max_request_body_bytes" in o then
                var j := o["max_request_body_bytes"];
                j.JInt? && c.maxRequestBodyBytes == j.n % 0x1_0000_0000_0000_0000
              else c.maxRequestBodyBytes == 1048576
    ensures Value(o, "maximum_connections", ToSize, 16) == Some(c.maximumConnections) <==>
              if "maximum_connections" in o then
                var j := o["maximum_connections"]; j.JInt? && c.maximumConnections == j.n % 0x1_0000_0000_0000_0000
              else c.maximumConnections == 16
  {
  }

  lemma OriginsIff(o: map<string, Json>, c: Configuration)
    ensures Value(o, "allowed_origins", ToTextArray, []) == Some(c.allowedOrigins) <==>
              if "allowed_origins" in o then
                o["allowed_origins"].JArray? && TextsAre(o["allowed_origins"].items, c.allowedOrigins)
              else c.allowedOrigins == []
  {
    if "allowed_origins" in o && o["allowed_origins"].JArray? {
      TextsIff(o["allowed_origins"].items, c.allowedOrigins);
    }
  }

  lemma CommonIff(o: map<string, Json>, c: Configuration)
    ensures ParseCommon(o) == Some(c.(credentials := [], legacyToken := "")) <==> SharedFields(o, c)
  {
    AddressIff(o, c);
    LimitsIff(o, c);
    OriginsIff(o, c);
  }

  lemma Version1Iff(o: map<string, Json>, c: Configuration)
    ensures ParseVersion(o, 1) == Ok(c) <==> ReadsVersion1(o, c)
  {
    CommonIff(o, c);
    assert AllowedFields(1) == {"schema_version", "enabled", "bind_address", "port", "max_request_body_bytes",
                                "maximum_connections", "allowed_origins", "bearer_token_dpapi"};
  }

  lemma CredentialsIff(items: seq<Json>, cs: seq<Credential>)
    ensures ParseCredentials(items, []) == Credentials(cs) <==>
              && |items| == |cs|
              && (forall i :: 0 <= i < |items| ==> HoldsCredential(items[i], cs[i]) && cs[i].clientId != "")
              && forall i, j :: 0 <= i < j < |items| ==> cs[i].clientId != cs[j].clientId
  {
    assert [] + cs == cs;
    ParsedCredentialsIff(items, [], cs);
    forall i | 0 <= i < |items| && i < |cs|
      ensures ParseCredential(items[i]) == Some(cs[i]) <==> HoldsCredential(items[i], cs[i])
    {
      CredentialIff(items[i], cs[i]);
    }
  }

  lemma Version2Iff(o: map<string, Json>, c: Configuration)
    ensures ParseVersion(o, 2) == Ok(c) <==> ReadsVersion2(o, c)
  {
    CommonIff(o, c);
    assert AllowedFields(2) == {"schema_version", "enabled", "bind_address", "port", "max_request_body_bytes",
                                "maximum_connections", "allowed_origins", "client_credentials"};
    if "client_credentials" in o && o["client_credentials"].JArray? {
      CredentialsIff(o["client_credentials"].items, c.credentials);
    }
  }

  lemma VersionIff(o: map<string, Json>, version: int)
    requires version == 1 || version == 2
    ensures Value(o, "schema_version", ToInt32, 0) == Some(version) <==> HasVersion(o, version)
  {
  }

  /** parse gives a configuration exactly if the document is one of the two versions of it: known keys only,
      every key of its type, absent keys at their defaults, all limits kept, and client ids unique and
      not empty. */
  lemma ParsesIff(o: map<string, Json>, c: Configuration)
    ensures Parse(JObject(o)) == Ok(c) <==>
              (HasVersion(o, 1) && ReadsVersion1(o, c)) || (HasVersion(o, 2) && ReadsVersion2(o, c))
  {
    VersionIff(o, 1);
    VersionIff(o, 2);
    Version1Iff(o, c);
    Version2Iff(o, c);
  }

  /** An exception leaves parse exactly if schema_version is there and neither a number nor a boolean. */
  lemma ThrowsIff(document: Json)
    ensures Parse(document).Throws? <==>
              document.JObject? && "schema_version" in document.fields
              && !document.fields["schema_version"].JInt? && !document.fields["schema_version"].JBool?
  {
  }
}
