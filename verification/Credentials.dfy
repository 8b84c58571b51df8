/** The credential side of McpHostConfigurationRepository and the client table built from it. The
    configuration the C++ code passes by reference is a value in and a value out. */
module Credentials {
  import opened Common
  import opened HexToken
  import opened BearerToken
  import Policy

  datatype Credential = Credential(clientId: string, protectedToken: string)

  datatype Configuration = Configuration(
    enabled: bool, bindAddress: string, port: int, maxRequestBodyBytes: int, maximumConnections: int,
    allowedOrigins: seq<string>, credentials: seq<Credential>, legacyToken: string)

  /** One value per error text. */
  datatype ConfigError =
    | NoError | SharedLegacyToken | LegacyUndecryptable | UnknownProfile | Undecryptable
    | GenerationFailed | NoSuchCredential | NoCredential

  /** find_client_credential: the first one with this id. */
  function FindCredential(cs: seq<Credential>, id: string): (r: Option<nat>)
    ensures match r
            case None => forall i :: 0 <= i < |cs| ==> cs[i].clientId != id
            case Some(i) => i < |cs| && cs[i].clientId == id && forall k :: 0 <= k < i ==> cs[k].clientId != id
  {
    if cs == [] then None
    else if cs[0].clientId == id then Some(0)
    else
      match FindCredential(cs[1..], id)
      case None => None
      case Some(i) => Some(i + 1)
  }

  predicate HasProfile(profiles: seq<Policy.Profile>, id: string) {
    exists i :: 0 <= i < |profiles| && profiles[i].id == id
  }

  ghost predicate Verifies(pf: Platform, stored: string) {
    stored != "" && Unprotect(pf, stored).Some?
  }

  /** Every stored credential belongs to a profile and passes the verifier. */
  ghost predicate CredentialsOk(pf: Platform, cs: seq<Credential>, profiles: seq<Policy.Profile>) {
    forall i :: 0 <= i < |cs| ==> HasProfile(profiles, cs[i].clientId) && Verifies(pf, cs[i].protectedToken)
  }

  /** A legacy token can be adopted: there is one profile to give it to, and it decrypts. */
  ghost predicate LegacyOk(pf: Platform, config: Configuration, profiles: seq<Policy.Profile>) {
    config.legacyToken != "" ==> |profiles| == 1 && Unprotect(pf, config.legacyToken).Some?
  }

  /** The credentials before any is generated: the stored ones, then the adopted legacy token. */
  function Adopted(config: Configuration, profiles: seq<Policy.Profile>): seq<Credential> {
    if config.legacyToken != "" && |profiles| == 1
    then config.credentials + [Credential(profiles[0].id, config.legacyToken)]
    else config.credentials
  }

  ghost predicate Covered(cs: seq<Credential>, profiles: seq<Policy.Profile>) {
    forall i :: 0 <= i < |profiles| ==> FindCredential(cs, profiles[i].id).Some?
  }

  ghost predicate UniqueIds(cs: seq<Credential>) {
    forall i, j :: 0 <= i < j < |cs| ==> cs[i].clientId != cs[j].clientId
  }

  ghost predicate UniqueProfiles(profiles: seq<Policy.Profile>) {
    forall i, j :: 0 <= i < j < |profiles| ==> profiles[i].id != profiles[j].id
  }

  /** Nothing left to do: no legacy token, every credential valid, every profile covered. */
  ghost predicate Reconciled(pf: Platform, config: Configuration, profiles: seq<Policy.Profile>) {
    config.legacyToken == "" && CredentialsOk(pf, config.credentials, profiles) && Covered(config.credentials, profiles)
  }

  lemma FindAppended(cs: seq<Credential>, c: Credential, id: string)
    ensures FindCredential(cs + [c], id).Some? <==> FindCredential(cs, id).Some? || c.clientId == id
  {
    assert (cs + [c])[|cs|] == c;
    if FindCredential(cs, id).Some? {
      assert (cs + [c])[FindCredential(cs, id).value].clientId == id;
    }
    if FindCredential(cs + [c], id).Some? {
      var i := FindCredential(cs + [c], id).value;
      assert i < |cs| ==> cs[i].clientId == id;
    }
  }

  lemma CoveredAt(cs: seq<Credential>, profiles: seq<Policy.Profile>, i: nat)
    requires i < |profiles|
    ensures Covered(cs, profiles) ==> FindCredential(cs, profiles[i].id).Some?
  {
  }

  /** A valid credential for a profile that had none fits in. */
  lemma Append(pf: Platform, cs: seq<Credential>, c: Credential, profiles: seq<Policy.Profile>,
               covered: seq<Policy.Profile>)
    requires FindCredential(cs, c.clientId).None? && HasProfile(profiles, c.clientId) && Verifies(pf, c.protectedToken)
    ensures CredentialsOk(pf, cs, profiles) ==> CredentialsOk(pf, cs + [c], profiles)
    ensures UniqueIds(cs) ==> UniqueIds(cs + [c])
    ensures Covered(cs, covered) ==> Covered(cs + [c], covered)
    ensures FindCredential(cs + [c], c.clientId).Some?
  {
    forall k | 0 <= k < |covered| && FindCredential(cs, covered[k].id).Some?
      ensures FindCredential(cs + [c], covered[k].id).Some?
    {
      FindAppended(cs, c, covered[k].id);
    }
    FindAppended(cs, c, c.clientId);
  }

  /** The verification loop of ensure_client_credentials. */
  method CheckCredentials(pf: Platform, cs: seq<Credential>, profiles: seq<Policy.Profile>)
    returns (valid: bool, error: ConfigError)
    ensures valid <==> CredentialsOk(pf, cs, profiles)
    ensures if valid then error == NoError else error.UnknownProfile? || error.Undecryptable?
  {
    error := NoError;
    for i := 0 to |cs|
      invariant CredentialsOk(pf, cs[..i], profiles)
    {
      if !HasProfile(profiles, cs[i].clientId) {
        return false, UnknownProfile;
      }
      var token := UnprotectBearerToken(pf, cs[i].protectedToken);
      if cs[i].protectedToken == "" || token.None? {
        return false, Undecryptable;
      }
    }
    assert cs[..|cs|] == cs;
    return true, error;
  }

  /** `filled` extends `cs`, keeping everything that was in order, with credentials whose tokens are made by
      the uses `n`, `n + 1`, ... of the random source, one each. */
  ghost predicate Extends(pf: Platform, n: nat, n': nat, cs: seq<Credential>, filled: seq<Credential>,
                          profiles: seq<Policy.Profile>)
  {
    && cs <= filled && n <= n'
    && (CredentialsOk(pf, cs, profiles) ==> CredentialsOk(pf, filled, profiles))
    && (UniqueIds(cs) ==> UniqueIds(filled))
    && (Covered(cs, profiles) ==> filled == cs && n' == n)
    && |filled| - |cs| == n' - n
    && forall k :: |cs| <= k < |filled| ==> Generate(pf, n + k - |cs|) == Some(filled[k].protectedToken)
  }

  lemma ExtendsStep(pf: Platform, n: nat, n': nat, cs: seq<Credential>, filled: seq<Credential>,
                    profiles: seq<Policy.Profile>, i: nat)
    requires Sound(pf) && Extends(pf, n, n', cs, filled, profiles) && Generate(pf, n').Some?
    requires i < |profiles| && FindCredential(filled, profiles[i].id).None? && Covered(filled, profiles[..i])
    ensures var c := Credential(profiles[i].id, Generate(pf, n').value);
            Extends(pf, n, n' + 1, cs, filled + [c], profiles) && Covered(filled + [c], profiles[..i + 1])
  {
    GeneratedTokenVerifies(pf, n');
    var c := Credential(profiles[i].id, Generate(pf, n').value);
    Append(pf, filled, c, profiles, profiles[..i]);
    assert profiles[..i + 1] == profiles[..i] + [profiles[i]];
    CoveredAt(cs, profiles, i);
  }

  /** The generation loop: a credential for every profile that has none. `n` counts uses of the
      random source; `failed` is the use that failed, if one did. */
  method FillCredentials(pf: Platform, n: nat, cs: seq<Credential>, profiles: seq<Policy.Profile>)
    returns (ok: bool, filled: seq<Credential>, n': nat, ghost failed: nat)
    requires Sound(pf)
    ensures Extends(pf, n, n', cs, filled, profiles)
    ensures ok ==> Covered(filled, profiles)
    ensures n' - n <= |profiles|
    ensures !ok ==> failed == n' < n + |profiles| && Generate(pf, failed).None? && !Covered(cs, profiles)
  {
    filled, n', failed := cs, n, n;
    for i := 0 to |profiles|
      invariant Extends(pf, n, n', cs, filled, profiles)
      invariant Covered(filled, profiles[..i]) && n' - n <= i
    {
      if FindCredential(filled, profiles[i].id).None? {
        var token := GenerateProtectedBearerToken(pf, n');
        if token.None? {
          CoveredAt(cs, profiles, i);
          return false, filled, n', n';
        }
        ExtendsStep(pf, n, n', cs, filled, profiles, i);
        filled, n' := filled + [Credential(profiles[i].id, token.value)], n' + 1;
      } else {
        assert profiles[..i + 1] == profiles[..i] + [profiles[i]];
      }
    }
    assert profiles[..|profiles|] == profiles;
    ok := true;
  }

  /** The legacy branch of ensure_client_credentials. */
  method AdoptLegacy(pf: Platform, config: Configuration, profiles: seq<Policy.Profile>)
    returns (ok: bool, config': Configuration, error: ConfigError)
    ensures ok <==> LegacyOk(pf, config, profiles)
    ensures ok <==> error == NoError
    ensures config' == if ok then config.(credentials := Adopted(config, profiles), legacyToken := "") else config
    ensures !ok ==> error == if |profiles| != 1 then SharedLegacyToken else LegacyUndecryptable
  {
    ok, config', error := true, config, NoError;
    if config.legacyToken != "" {
      if |profiles| != 1 {
        error := SharedLegacyToken;
        ok := false;
      } else {
        var legacy := UnprotectBearerToken(pf, config.legacyToken);
        if legacy.None? {
          error := LegacyUndecryptable;
          ok := false;
        } else {
          var adopted := Credential(profiles[0].id, config.legacyToken);
          config' := config.(credentials := config.credentials + [adopted], legacyToken := "");
        }
      }
    }
  }

  /** ensure_client_credentials. It succeeds only on an acceptable configuration and, there, fails only
      when the platform fails to make a token. Even a failure never drops or alters a credential. */
  method EnsureClientCredentials(pf: Platform, n: nat, config: Configuration, profiles: seq<Policy.Profile>)
    returns (ok: bool, config': Configuration, n': nat, error: ConfigError, ghost failed: nat)
    requires Sound(pf)
    ensures ok ==> LegacyOk(pf, config, profiles) && CredentialsOk(pf, Adopted(config, profiles), profiles)
    ensures !ok && LegacyOk(pf, config, profiles) && CredentialsOk(pf, Adopted(config, profiles), profiles) ==>
              failed == n' < n + |profiles| && Generate(pf, failed).None?
    ensures config.legacyToken != "" ==>
              if |profiles| == 1 && Unprotect(pf, config.legacyToken).Some?
              then |config'.credentials| > |config.credentials|
                   && config'.credentials[|config.credentials|] == Credential(profiles[0].id, config.legacyToken)
              else !ok
    ensures ok ==> forall i :: 0 <= i < |config'.credentials| ==>
                     && Unprotect(pf, config'.credentials[i].protectedToken).Some?
                     && exists p :: 0 <= p < |profiles| && profiles[p].id == config'.credentials[i].clientId
    ensures ok ==> Reconciled(pf, config', profiles)
    ensures !LegacyOk(pf, config, profiles) ==>
              config' == config && (error.SharedLegacyToken? || error.LegacyUndecryptable?)
    ensures LegacyOk(pf, config, profiles) ==>
              Extends(pf, n, n', Adopted(config, profiles), config'.credentials, profiles) && config'.legacyToken == ""
    ensures config'.(credentials := config.credentials, legacyToken := config.legacyToken) == config
    ensures ok <==> error == NoError
    ensures error.GenerationFailed? ==> Generate(pf, failed).None?
    ensures Reconciled(pf, config, profiles) ==> ok && config' == config && n' == n
  {
    n', failed := n, n;
    ok, config', error := AdoptLegacy(pf, config, profiles);
    if !ok {
      return;
    }
    ok, error := CheckCredentials(pf, config'.credentials, profiles);
    if !ok {
      return;
    }
    var filled;
    ok, filled, n', failed := FillCredentials(pf, n, config'.credentials, profiles);
    config' := config'.(credentials := filled);
    if !ok {
      error := GenerationFailed;
    }
  }

  function CredentialIds(cs: seq<Credential>): seq<string> {
    seq(|cs|, i requires 0 <= i < |cs| => cs[i].clientId)
  }

  function ProfileIds(profiles: seq<Policy.Profile>): seq<string> {
    seq(|profiles|, i requires 0 <= i < |profiles| => profiles[i].id)
  }

  /** The client ids of the credentials and the ids of the profiles are the same, each exactly once. */
  ghost predicate OneToOne(cs: seq<Credential>, profiles: seq<Policy.Profile>) {
    && |cs| == |profiles|
    && NoDup(CredentialIds(cs))
    && Elems(CredentialIds(cs)) == Elems(ProfileIds(profiles))
  }

  lemma ReconciledIsOneToOne(pf: Platform, config: Configuration, profiles: seq<Policy.Profile>)
    requires Reconciled(pf, config, profiles) && UniqueIds(config.credentials) && UniqueProfiles(profiles)
    ensures OneToOne(config.credentials, profiles)
  {
    var ids, pids := CredentialIds(config.credentials), ProfileIds(profiles);
    forall i | 0 <= i < |profiles| ensures pids[i] in Elems(ids) {
      var c := FindCredential(config.credentials, profiles[i].id).value;
      assert ids[c] == pids[i];
    }
    forall i | 0 <= i < |ids| ensures ids[i] in Elems(pids) {
      var k :| 0 <= k < |profiles| && profiles[k].id == config.credentials[i].clientId;
      assert pids[k] == ids[i];
    }
    assert Elems(ids) == Elems(pids);
    CountDistinct(ids);
    CountDistinct(pids);
  }

  /** What a successful reconciliation of an input with unique ids leaves: one credential per profile
      and no other. */
  lemma OneCredentialPerProfile(pf: Platform, n: nat, n': nat, config: Configuration, config': Configuration,
                                profiles: seq<Policy.Profile>)
    requires UniqueIds(config.credentials) && UniqueProfiles(profiles)
    requires config.legacyToken != "" ==> config.credentials == []
    requires Reconciled(pf, config', profiles)
    requires Extends(pf, n, n', Adopted(config, profiles), config'.credentials, profiles)
    ensures OneToOne(config'.credentials, profiles)
  {
    assert UniqueIds(Adopted(config, profiles));
    ReconciledIsOneToOne(pf, config', profiles);
  }

  /** The service writes the file back only when the number of credentials has changed, which is
      exactly when reconciliation changed anything at all. */
  lemma SizeTellsChange(pf: Platform, n: nat, n': nat, config: Configuration, config': Configuration,
                        profiles: seq<Policy.Profile>)
    requires LegacyOk(pf, config, profiles) && config'.legacyToken == ""
    requires Extends(pf, n, n', Adopted(config, profiles), config'.credentials, profiles)
    requires config'.(credentials := config.credentials, legacyToken := config.legacyToken) == config
    ensures |config'.credentials| != |config.credentials| <==> config' != config
  {
    var cs := config'.credentials;
    assert cs[..|cs|] == cs;
  }

  // ---- Rotation ---------------------------------------------------------------------------------

  method RegenerateClientCredential(pf: Platform, n: nat, config: Configuration, clientId: string)
    returns (ok: bool, config': Configuration, error: ConfigError)
    requires Sound(pf)
    ensures ok <==> FindCredential(config.credentials, clientId).Some? && Generate(pf, n).Some?
    ensures !ok ==> config' == config
    ensures ok ==> Rotated(pf, n, config, config', FindCredential(config.credentials, clientId).value)
  {
    config', error := config, NoError;
    var found := FindCredential(config.credentials, clientId);
    if found.None? {
      return false, config', NoSuchCredential;
    }
    var token := GenerateProtectedBearerToken(pf, n);
    if token.None? {
      return false, config', GenerationFailed;
    }
    var c := config.credentials[found.value];
    config' := config.(credentials := config.credentials[found.value := c.(protectedToken := token.value)]);
    ok := true;
  }

  /** Only the token of credential `i` has changed, to the one generated by use `n`. */
  ghost predicate Rotated(pf: Platform, n: nat, config: Configuration, config': Configuration, i: nat) {
    && i < |config.credentials| && Generate(pf, n).Some?
    && config' == config.(credentials :=
         config.credentials[i := config.credentials[i].(protectedToken := Generate(pf, n).value)])
  }

  // ---- The client table -------------------------------------------------------------------------

  ghost predicate TableOf(pf: Platform, config: Configuration, profiles: seq<Policy.Profile>, clients: seq<Client>) {
    && |clients| == |profiles|
    && forall i :: 0 <= i < |profiles| ==>
         && clients[i].profile == profiles[i]
         && FindCredential(config.credentials, profiles[i].id).Some?
         && Unprotect(pf, config.credentials[FindCredential(config.credentials, profiles[i].id).value].protectedToken)
              == Some(clients[i].token)
  }

  /** The client construction of LocalMcpHttpService::start. */
  method BuildClients(pf: Platform, config: Configuration, profiles: seq<Policy.Profile>)
    returns (ok: bool, clients: seq<Client>, error: ConfigError)
    ensures ok ==> TableOf(pf, config, profiles, clients)
    ensures Reconciled(pf, config, profiles) ==> ok
  {
    clients, error := [], NoError;
    for i := 0 to |profiles|
      invariant TableOf(pf, config, profiles[..i], clients)
    {
      var found := FindCredential(config.credentials, profiles[i].id);
      if found.None? {
        return false, clients, NoCredential;
      }
      var token := UnprotectBearerToken(pf, config.credentials[found.value].protectedToken);
      if token.None? {
        return false, clients, Undecryptable;
      }
      clients := clients + [Client(profiles[i], token.value)];
    }
    assert profiles[..|profiles|] == profiles;
    ok := true;
  }

  // ---- Tokens of their own ----------------------------------------------------------------------

  /** No two stored credentials hold the same token. */
  ghost predicate StoredDistinct(pf: Platform, cs: seq<Credential>) {
    forall i, j :: 0 <= i < j < |cs| ==> Unprotect(pf, cs[i].protectedToken) != Unprotect(pf, cs[j].protectedToken)
  }

  /** The uses `n` to `n' - 1` of the random source do not repeat each other, nor make a stored token. */
  ghost predicate DoesNotRepeat(pf: Platform, n: nat, n': nat, cs: seq<Credential>) {
    && (forall i, j :: n <= i < j < n' && pf.random(i).Some? ==> pf.random(i) != pf.random(j))
    && forall i, k :: n <= i < n' && pf.random(i).Some? && 0 <= k < |cs| ==>
         Unprotect(pf, cs[k].protectedToken) != Some(TokenOf(pf.random(i).value))
  }

  lemma FilledToken(pf: Platform, n: nat, n': nat, cs: seq<Credential>, filled: seq<Credential>,
                    profiles: seq<Policy.Profile>, k: nat)
    requires Sound(pf) && Extends(pf, n, n', cs, filled, profiles) && |cs| <= k < |filled|
    ensures n + k - |cs| < n' && pf.random(n + k - |cs|).Some?
    ensures Unprotect(pf, filled[k].protectedToken) == Some(TokenOf(pf.random(n + k - |cs|).value))
  {
    assert Generate(pf, n + k - |cs|) == Some(filled[k].protectedToken);
    GeneratedTokenVerifies(pf, n + k - |cs|);
  }

  /** Reconciliation gives every new credential a token of its own. */
  lemma FilledStaysDistinct(pf: Platform, n: nat, n': nat, cs: seq<Credential>, filled: seq<Credential>,
                            profiles: seq<Policy.Profile>)
    requires Sound(pf) && Extends(pf, n, n', cs, filled, profiles)
    requires StoredDistinct(pf, cs) && DoesNotRepeat(pf, n, n', cs)
    ensures StoredDistinct(pf, filled)
  {
    forall i, j | 0 <= i < j < |filled|
      ensures Unprotect(pf, filled[i].protectedToken) != Unprotect(pf, filled[j].protectedToken)
    {
      if j >= |cs| {
        FilledToken(pf, n, n', cs, filled, profiles, j);
        var m := n + j - |cs|;
        if i >= |cs| {
          FilledToken(pf, n, n', cs, filled, profiles, i);
          var l := n + i - |cs|;
          if TokenOf(pf.random(l).value) == TokenOf(pf.random(m).value) {
            TokensInjective(pf.random(l).value, pf.random(m).value);
          }
        } else {
          assert filled[i] == cs[i];
        }
      } else {
        assert filled[i] == cs[i] && filled[j] == cs[j];
      }
    }
  }

  /** Then no two clients of the table share a token. */
  lemma TableTokensDistinct(pf: Platform, config: Configuration, profiles: seq<Policy.Profile>, clients: seq<Client>)
    requires TableOf(pf, config, profiles, clients) && UniqueProfiles(profiles)
    requires StoredDistinct(pf, config.credentials)
    ensures TokensDistinct(clients)
  {
    forall i, j | 0 <= i < j < |clients| ensures clients[i].token != clients[j].token {
      var f := FindCredential(config.credentials, profiles[i].id).value;
      var g := FindCredential(config.credentials, profiles[j].id).value;
      assert f < g || g < f;
    }
  }

  /** After a rotation to a fresh token and a restart, a header with the old token selects nobody,
      whatever the profiles: the old token belonged to one client, and the new one is different. */
  lemma OldTokenSelectsNobody(pf: Platform, n: nat, config: Configuration, config': Configuration, i: nat,
                              profiles: seq<Policy.Profile>, before: seq<Client>, after: seq<Client>,
                              p: nat, authorization: Octets)
    requires Sound(pf) && Rotated(pf, n, config, config', i)
    requires UniqueIds(config.credentials) && UniqueProfiles(profiles)
    requires TableOf(pf, config, profiles, before) && TableOf(pf, config', profiles, after)
    requires TokensDistinct(before)
    requires p < |profiles| && profiles[p].id == config.credentials[i].clientId
    requires Matches(authorization, before[p].token)
    requires TokenOf(pf.random(n).value) != before[p].token
    ensures FirstOwner(after, authorization) == None
  {
    FirstOwnerIs(after, authorization);
    forall q | 0 <= q < |profiles| ensures after[q].token != before[p].token {
      var id := profiles[q].id;
      var f, f' := FindCredential(config.credentials, id).value, FindCredential(config'.credentials, id).value;
      SameFind(config.credentials, i, Generate(pf, n).value, id);
      if q == p {
        assert f == i;
        GeneratedTokenVerifies(pf, n);
      } else {
        assert f != i;
        assert after[q].token == before[q].token;
      }
    }
    forall c | c in after ensures !Owns(c, authorization) {
      var q :| 0 <= q < |after| && after[q] == c;
      assert after[q].token != before[p].token;
    }
  }

  /** The other side of a rotation: after a restart the new token selects the client it was made for,
      if that profile is enabled and no other client has the same token. */
  lemma NewTokenSelectsOwner(pf: Platform, n: nat, config: Configuration, config': Configuration, i: nat,
                             profiles: seq<Policy.Profile>, after: seq<Client>, p: nat, authorization: Octets)
    requires Sound(pf) && Rotated(pf, n, config, config', i)
    requires UniqueIds(config.credentials) && TableOf(pf, config', profiles, after) && TokensDistinct(after)
    requires p < |profiles| && profiles[p].id == config.credentials[i].clientId && profiles[p].enabled
    requires Matches(authorization, TokenOf(pf.random(n).value))
    ensures FirstOwner(after, authorization) == Some(Client(profiles[p], TokenOf(pf.random(n).value)))
  {
    SameFind(config.credentials, i, Generate(pf, n).value, profiles[p].id);
    GeneratedTokenVerifies(pf, n);
    assert FindCredential(config'.credentials, profiles[p].id) == Some(i);
    assert after[p] == Client(profiles[p], TokenOf(pf.random(n).value)) && after[p] in after;
    FirstOwnerIs(after, authorization);
    OwnersEqual(after, after[p], FirstOwner(after, authorization).value, authorization);
  }

  /** A rotation leaves a reconciled configuration reconciled. */
  lemma RotatedStaysReconciled(pf: Platform, n: nat, config: Configuration, config': Configuration, i: nat,
                               profiles: seq<Policy.Profile>)
    requires Sound(pf) && Rotated(pf, n, config, config', i) && Reconciled(pf, config, profiles)
    ensures Reconciled(pf, config', profiles)
  {
    GeneratedTokenVerifies(pf, n);
    forall k | 0 <= k < |profiles| ensures FindCredential(config'.credentials, profiles[k].id).Some? {
      SameFind(config.credentials, i, Generate(pf, n).value, profiles[k].id);
    }
  }

  lemma {:induction false} SameFind(cs: seq<Credential>, i: nat, token: string, id: string)
    requires i < |cs|
    ensures FindCredential(cs[i := cs[i].(protectedToken := token)], id) == FindCredential(cs, id)
  {
    var cs' := cs[i := cs[i].(protectedToken := token)];
    assert forall k :: 0 <= k < |cs| ==> cs'[k].clientId == cs[k].clientId;
    var f, f' := FindCredential(cs, id), FindCredential(cs', id);
    if f.Some? && f'.Some? {
      assert f.value == f'.value;
    }
  }
}
