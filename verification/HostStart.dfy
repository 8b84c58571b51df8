/** LocalMcpHttpService::start from the document to the client table, and the rotation of one client's
    token from the desktop, which restarts a running host. */
module HostStart {
  import opened Common
  import opened BearerToken
  import opened ConfigDocument
  import opened Credentials
  import opened HexToken
  import Policy

  /** A configuration that reconciliation leaves alone and that came from a document. */
  ghost predicate Ready(pf: Platform, config: Configuration, profiles: seq<Policy.Profile>) {
    Reconciled(pf, config, profiles) && UniqueIds(config.credentials) && InBounds(config)
  }

  /** What reconciling the configuration of a document gives; nothing new if it was reconciled before. */
  ghost predicate ReconciledFrom(pf: Platform, n: nat, n': nat, document: Json, config': Configuration,
                                 profiles: seq<Policy.Profile>)
  {
    Parse(document).Ok?
    && var config := Parse(document).config;
       && Reconciled(pf, config', profiles)
       && Extends(pf, n, n', Adopted(config, profiles), config'.credentials, profiles)
       && config'.(credentials := config.credentials, legacyToken := config.legacyToken) == config
       && (Reconciled(pf, config, profiles) ==> config' == config && n' == n)
  }

  lemma ReadyFrom(pf: Platform, n: nat, n': nat, document: Json, config': Configuration, profiles: seq<Policy.Profile>)
    requires ReconciledFrom(pf, n, n', document, config', profiles)
    ensures Ready(pf, config', profiles)
  {
    ParseIsBounded(document);
    assert UniqueIds(Adopted(Parse(document).config, profiles));
  }

  /** What a successful start makes of a document: reconcile it, write it back if that changed anything,
      and build the table of clients. A disabled host has no clients. */
  ghost predicate StartedOn(pf: Platform, n: nat, n': nat, document: Json, document': Json, config': Configuration,
                            profiles: seq<Policy.Profile>, clients: seq<Client>)
  {
    Parse(document).Ok?
    && var config := Parse(document).config;
       if !config.enabled then clients == [] && document' == document
       else
         && ReconciledFrom(pf, n, n', document, config', profiles)
         && TableOf(pf, config', profiles, clients)
         && document' == (if config' == config then document else Save(config'))
  }

  /** Nothing in the configuration keeps start from reconciling it, and the platform makes the tokens. */
  ghost predicate Startable(pf: Platform, n: nat, config: Configuration, profiles: seq<Policy.Profile>) {
    && profiles != [] && LegacyOk(pf, config, profiles) && CredentialsOk(pf, Adopted(config, profiles), profiles)
    && forall m: nat :: n <= m < n + |profiles| ==> Generate(pf, m).Some?
  }

  /** start. It drops the old clients first, and again if the socket host does not start, so a failure leaves
      none; `listens` is what the socket host answers. */
  method Start(pf: Platform, n: nat, document: Json, profiles: seq<Policy.Profile>, listens: bool)
    returns (ok: bool, document': Json, clients: seq<Client>, n': nat, ghost config': Configuration)
    requires Sound(pf)
    ensures !ok ==> clients == []
    ensures !ok ==>
              || document' == document
              || (ReconciledFrom(pf, n, n', document, config', profiles) && document' == Save(config') && !listens)
    ensures Parse(document).Ok? && !Parse(document).config.enabled ==> ok
    ensures Parse(document).Ok? && Startable(pf, n, Parse(document).config, profiles) && listens ==> ok
    ensures ok ==> Parse(document).Ok? && (Parse(document).config.enabled ==> profiles != [] && listens)
    ensures ok ==> StartedOn(pf, n, n', document, document', config', profiles, clients)
    ensures Parse(document).Ok? && profiles != [] && Reconciled(pf, Parse(document).config, profiles) && listens ==> ok
  {
    document', clients, n', config' := document, [], n, DEFAULTS;
    var parsed := Parse(document);
    if !parsed.Ok? {
      return false, document', clients, n', config';
    }
    var config := parsed.config;
    if !config.enabled {
      return true, document', clients, n', config;
    }
    if profiles == [] {
      return false, document', clients, n', config;
    }
    var ensured, reconciled, used, _, _ := EnsureClientCredentials(pf, n, config, profiles);
    n', config' := used, reconciled;
    if !ensured {
      return false, document', clients, n', config';
    }
    SizeTellsChange(pf, n, n', config, reconciled, profiles);
    if |reconciled.credentials| != |config.credentials| {
      document' := Save(reconciled);
    }
    var built, table, _ := BuildClients(pf, reconciled, profiles);
    if !built || !listens {
      return false, document', clients, n', config';
    }
    ok, clients := true, table;
  }

  /** After a start no two clients share a token, if no two stored credentials did and the random source does
      not repeat itself: always so on a first start, which finds no credential. */
  lemma StartTokensDistinct(pf: Platform, n: nat, n': nat, document: Json, document': Json, config': Configuration,
                            profiles: seq<Policy.Profile>, clients: seq<Client>)
    requires Sound(pf) && UniqueProfiles(profiles)
    requires StartedOn(pf, n, n', document, document', config', profiles, clients) && Parse(document).config.enabled
    requires StoredDistinct(pf, Adopted(Parse(document).config, profiles))
    requires DoesNotRepeat(pf, n, n', Adopted(Parse(document).config, profiles))
    ensures TokensDistinct(clients)
  {
    FilledStaysDistinct(pf, n, n', Adopted(Parse(document).config, profiles), config'.credentials, profiles);
    TableTokensDistinct(pf, config', profiles, clients);
  }

  predicate AllNamed(profiles: seq<Policy.Profile>) {
    forall i :: 0 <= i < |profiles| ==> profiles[i].id != ""
  }

  /** What a start leaves behind: a ready configuration, the one the client table was built from. The file
      holds it exactly if nothing had to be written or no profile has an empty id; with one, start
      writes a file that it cannot read again. */
  lemma StartLeavesReady(pf: Platform, n: nat, n': nat, document: Json, document': Json, config': Configuration,
                         profiles: seq<Policy.Profile>, clients: seq<Client>)
    requires StartedOn(pf, n, n', document, document', config', profiles, clients) && Parse(document).config.enabled
    ensures Ready(pf, config', profiles) && TableOf(pf, config', profiles, clients)
    ensures Parse(document') == Ok(config') <==> config' == Parse(document).config || AllNamed(profiles)
  {
    var config := Parse(document).config;
    ReadyFrom(pf, n, n', document, config', profiles);
    if config' != config {
      NamedIff(pf, config', profiles);
      SaveParseRoundTrip(config');
    }
  }

  lemma NamedIff(pf: Platform, config: Configuration, profiles: seq<Policy.Profile>)
    requires Reconciled(pf, config, profiles) && UniqueIds(config.credentials)
    ensures IdsGood(config.credentials) <==> AllNamed(profiles)
  {
    var cs := config.credentials;
    if IdsGood(cs) {
      forall i | 0 <= i < |profiles| ensures profiles[i].id != "" {
        assert cs[FindCredential(cs, profiles[i].id).value].clientId == profiles[i].id;
      }
    }
    if AllNamed(profiles) {
      forall i | 0 <= i < |cs| ensures cs[i].clientId != "" {
        var k :| 0 <= k < |profiles| && profiles[k].id == cs[i].clientId;
      }
    }
  }

  /** So a second start changes nothing: the same document, the same configuration, the same clients. */
  lemma SecondStartChangesNothing(pf: Platform, n: nat, n': nat, m: nat, m': nat, document: Json, document': Json,
                                  document'': Json, config': Configuration, config'': Configuration,
                                  profiles: seq<Policy.Profile>, clients: seq<Client>, clients': seq<Client>)
    requires StartedOn(pf, n, n', document, document', config', profiles, clients)
    requires StartedOn(pf, m, m', document', document'', config'', profiles, clients')
    requires Parse(document).config.enabled && AllNamed(profiles)
    ensures document'' == document' && config'' == config' && clients' == clients && m' == m
  {
    StartLeavesReady(pf, n, n', document, document', config', profiles, clients);
    assert config'' == config';
    forall i | 0 <= i < |clients| ensures clients'[i] == clients[i] {
    }
  }

  /** A header that carried the client's token when the host was serving from `document` is refused by
      the restarted host, provided the new token differs from the old one. */
  ghost predicate OldTokenRefused(token: Octets, clientId: string, profiles: seq<Policy.Profile>,
                                  before: seq<Client>, after: seq<Client>)
    requires |before| == |profiles|
  {
    forall p: nat, authorization: Octets ::
      p < |profiles| && profiles[p].id == clientId
      && Matches(authorization, before[p].token) && token != before[p].token ==>
        FirstOwner(after, authorization) == None
  }

  /** A header with the new token selects the client it was made for. */
  ghost predicate NewTokenAccepted(token: Octets, clientId: string, profiles: seq<Policy.Profile>, after: seq<Client>) {
    forall p: nat, authorization: Octets ::
      p < |profiles| && profiles[p].id == clientId && profiles[p].enabled && Matches(authorization, token) ==>
        FirstOwner(after, authorization) == Some(Client(profiles[p], token))
  }

  /** The restart after a rotation of a ready configuration has been saved. */
  lemma RestartServesRotated(pf: Platform, n: nat, m: nat, m': nat, config: Configuration, rotated: Configuration,
                             i: nat, document': Json, config': Configuration, profiles: seq<Policy.Profile>,
                             after: seq<Client>)
    requires Sound(pf) && Ready(pf, config, profiles) && Rotated(pf, n, config, rotated, i) && rotated.enabled
    requires StartedOn(pf, m, m', Save(rotated), document', config', profiles, after)
    ensures TableOf(pf, rotated, profiles, after)
  {
    SavedReadsBack(rotated);
    RotatedStaysReconciled(pf, n, config, rotated, i, profiles);
    assert config' == rotated;
  }

  lemma RestartRefusesOld(pf: Platform, n: nat, config: Configuration, rotated: Configuration, i: nat,
                          profiles: seq<Policy.Profile>, before: seq<Client>, after: seq<Client>)
    requires Sound(pf) && UniqueProfiles(profiles) && TokensDistinct(before)
    requires Ready(pf, config, profiles) && TableOf(pf, config, profiles, before)
    requires Rotated(pf, n, config, rotated, i)
    requires after == [] || TableOf(pf, rotated, profiles, after)
    ensures OldTokenRefused(TokenOf(pf.random(n).value), config.credentials[i].clientId, profiles, before, after)
  {
    forall p: nat, authorization: Octets | p < |profiles| && profiles[p].id == config.credentials[i].clientId
      && Matches(authorization, before[p].token) && TokenOf(pf.random(n).value) != before[p].token
      ensures FirstOwner(after, authorization) == None
    {
      if after != [] {
        OldTokenSelectsNobody(pf, n, config, rotated, i, profiles, before, after, p, authorization);
      }
    }
  }

  lemma RestartAcceptsNew(pf: Platform, n: nat, config: Configuration, rotated: Configuration, i: nat,
                          profiles: seq<Policy.Profile>, after: seq<Client>)
    requires Sound(pf) && Ready(pf, config, profiles) && Rotated(pf, n, config, rotated, i)
    requires TableOf(pf, rotated, profiles, after) && TokensDistinct(after)
    ensures NewTokenAccepted(TokenOf(pf.random(n).value), config.credentials[i].clientId, profiles, after)
  {
    forall p: nat, authorization: Octets | p < |profiles| && profiles[p].id == config.credentials[i].clientId
      && profiles[p].enabled && Matches(authorization, TokenOf(pf.random(n).value))
      ensures FirstOwner(after, authorization) == Some(Client(profiles[p], TokenOf(pf.random(n).value)))
    {
      NewTokenSelectsOwner(pf, n, config, rotated, i, profiles, after, p, authorization);
    }
  }

  /** What the restart that follows a rotation means: whether or not it succeeds, the old token is
      refused; and if it does, on an enabled host, the new token selects its client. */
  ghost predicate RotationTakesEffect(pf: Platform, n: nat, config: Configuration, profiles: seq<Policy.Profile>,
                                      clientId: string, before: seq<Client>, after: seq<Client>, ok: bool)
  {
    pf.random(n).Some?
    && var token := TokenOf(pf.random(n).value);
       && (UniqueProfiles(profiles) && TokensDistinct(before) && TableOf(pf, config, profiles, before) ==>
             OldTokenRefused(token, clientId, profiles, before, after))
       && (ok && config.enabled && TokensDistinct(after) ==> NewTokenAccepted(token, clientId, profiles, after))
  }

  lemma RestartTakesEffect(pf: Platform, n: nat, m: nat, m': nat, config: Configuration, rotated: Configuration,
                           i: nat, document': Json, config': Configuration, profiles: seq<Policy.Profile>,
                           before: seq<Client>, after: seq<Client>)
    requires Sound(pf) && Ready(pf, config, profiles) && Rotated(pf, n, config, rotated, i)
    requires StartedOn(pf, m, m', Save(rotated), document', config', profiles, after)
    ensures RotationTakesEffect(pf, n, config, profiles, config.credentials[i].clientId, before, after, true)
  {
    if config.enabled {
      RestartServesRotated(pf, n, m, m', config, rotated, i, document', config', profiles, after);
      if TokensDistinct(after) {
        RestartAcceptsNew(pf, n, config, rotated, i, profiles, after);
      }
    } else {
      SavedReadsBack(rotated);
    }
    if UniqueProfiles(profiles) && TokensDistinct(before) && TableOf(pf, config, profiles, before) {
      RestartRefusesOld(pf, n, config, rotated, i, profiles, before, after);
    }
  }

  /** The document holds the configuration with the client's token, and nothing else, rotated. */
  ghost predicate SavesRotation(pf: Platform, n: nat, config: Configuration, clientId: string, document': Json) {
    var i := FindCredential(config.credentials, clientId);
    i.Some? && exists rotated: Configuration :: Rotated(pf, n, config, rotated, i.value) && document' == Save(rotated)
  }

  lemma RotatedStaysReady(pf: Platform, n: nat, config: Configuration, rotated: Configuration, i: nat,
                          profiles: seq<Policy.Profile>)
    requires Sound(pf) && Ready(pf, config, profiles) && Rotated(pf, n, config, rotated, i)
    ensures Ready(pf, rotated, profiles)
    ensures FindCredential(rotated.credentials, config.credentials[i].clientId).Some?
  {
    RotatedStaysReconciled(pf, n, config, rotated, i, profiles);
    assert rotated.credentials[i].clientId == config.credentials[i].clientId;
  }

  /** The part of regenerate_mcp_bearer_token before the file is written: read, reconcile, rotate. The token
      is made by use `m` of the random source, from the reconciled configuration `config`. */
  method Rotate(pf: Platform, n: nat, document: Json, profiles: seq<Policy.Profile>, clientId: string)
    returns (ok: bool, rotated: Configuration, n': nat, ghost config: Configuration, ghost m: nat, ghost i: nat)
    requires Sound(pf)
    ensures ok ==> ReconciledFrom(pf, n, m, document, config, profiles)
    ensures ok ==> Ready(pf, rotated, profiles) && FindCredential(rotated.credentials, clientId).Some?
    ensures ok ==> Rotated(pf, m, config, rotated, i) && FindCredential(config.credentials, clientId) == Some(i)
  {
    ok, rotated, n', config, m, i := false, DEFAULTS, n, DEFAULTS, n, 0;
    var parsed := Parse(document);
    if parsed.Ok? {
      var ensured, reconciled, used, _, _ := EnsureClientCredentials(pf, n, parsed.config, profiles);
      if ensured {
        var error;
        ok, rotated, error := RegenerateClientCredential(pf, used, reconciled, clientId);
        n', config, m := used + 1, reconciled, used;
        if ok {
          i := FindCredential(reconciled.credentials, clientId).value;
          ReadyFrom(pf, n, m, document, config, profiles);
          RotatedStaysReady(pf, m, config, rotated, i, profiles);
        }
      }
    }
  }

  /** regenerate_mcp_bearer_token of the desktop: rotate, save, restart a running host. `clients` is the
      table in use. */
  method RegenerateToken(pf: Platform, n: nat, document: Json, profiles: seq<Policy.Profile>, clientId: string,
                         running: bool, clients: seq<Client>, listens: bool)
    returns (ok: bool, saved: bool, document': Json, clients': seq<Client>, ghost config: Configuration, ghost m: nat)
    requires Sound(pf)
    ensures !saved ==> !ok && document' == document
    ensures !saved || !running ==> clients' == clients
    ensures saved ==> ReconciledFrom(pf, n, m, document, config, profiles)
    ensures saved && !running ==> SavesRotation(pf, m, config, clientId, document')
    ensures saved && running ==> RotationTakesEffect(pf, m, config, profiles, clientId, clients, clients', ok)
  {
    ok, document', clients' := false, document, clients;
    var rotated, used;
    ghost var i;
    saved, rotated, used, config, m, i := Rotate(pf, n, document, profiles, clientId);
    if !saved {
      return;
    }
    ReadyFrom(pf, n, m, document, config, profiles);
    ok, document' := true, Save(rotated);
    if running {
      var last;
      ghost var config';
      ok, document', clients', last, config' := Start(pf, used, Save(rotated), profiles, listens);
      if ok {
        RestartTakesEffect(pf, m, used, last, config, rotated, i, document', config', profiles, clients, clients');
      }
    }
  }
}
