/** Bearer tokens on the HTTP side: the XOR/OR comparison and the first-match client lookup. */
module BearerToken {
  import opened Common
  import HttpText
  import Policy

  /** "Bearer " in ASCII. */
  const PREFIX: Octets := [66, 101, 97, 114, 101, 114, 32]

  function LowerByte(b: bv8): bv8 {
    if 65 <= b <= 90 then b + 32 else b
  }

  /** The header carries exactly this token after the scheme, which is matched ignoring case. */
  ghost predicate Matches(authorization: Octets, expected: Octets) {
    && |authorization| >= |PREFIX|
    && HttpText.EqualFolded(authorization[..|PREFIX|], PREFIX, LowerByte)
    && authorization[|PREFIX|..] == expected
  }

  /** The scheme written out: each letter of "Bearer" in either case, then a space. */
  lemma MatchesIff(authorization: Octets, expected: Octets)
    ensures Matches(authorization, expected) <==>
              && |authorization| >= 7
              && var a := authorization;
                 && (a[0] == 66 || a[0] == 98) && (a[1] == 69 || a[1] == 101) && (a[2] == 65 || a[2] == 97)
                 && (a[3] == 82 || a[3] == 114) && (a[4] == 69 || a[4] == 101) && (a[5] == 82 || a[5] == 114)
                 && a[6] == 32 && a[7..] == expected
  {
    if |authorization| >= 7 {
      var scheme := authorization[..7];
      forall i | 0 <= i < 7
        ensures LowerByte(scheme[i]) == LowerByte(PREFIX[i]) <==>
                scheme[i] == PREFIX[i] || (i < 6 && scheme[i] == OtherCase(PREFIX[i]))
      {
        FoldIff(scheme[i], PREFIX[i]);
      }
    }
  }

  function OtherCase(b: bv8): bv8 {
    b ^ 32
  }

  /** Folding a byte of the scheme identifies it with its other case, if it is a letter. */
  lemma FoldIff(a: bv8, b: bv8)
    requires b in PREFIX
    ensures LowerByte(a) == LowerByte(b) <==> a == b || (b != 32 && a == OtherCase(b))
  {
  }

  lemma OrXorZero(d: bv8, a: bv8, b: bv8)
    ensures d | (a ^ b) == 0 <==> d == 0 && a == b
  {
  }

  /** The loop looks at every byte and accumulates differences; no byte is skipped or excused. */
  method MatchesBearerToken(authorization: Octets, expected: Octets) returns (matches: bool)
    ensures matches <==> Matches(authorization, expected)
    ensures matches <==>
              && |authorization| >= 7
              && var a := authorization;
                 && (a[0] == 66 || a[0] == 98) && (a[1] == 69 || a[1] == 101) && (a[2] == 65 || a[2] == 97)
                 && (a[3] == 82 || a[3] == 114) && (a[4] == 69 || a[4] == 101) && (a[5] == 82 || a[5] == 114)
                 && a[6] == 32 && a[7..] == expected
  {
    MatchesIff(authorization, expected);
    if |authorization| < |PREFIX| {
      return false;
    }
    var scheme := HttpText.AsciiEqualIgnoreCase(authorization[..|PREFIX|], PREFIX, LowerByte);
    if !scheme {
      return false;
    }
    var supplied := authorization[|PREFIX|..];
    if |supplied| != |expected| {
      return false;
    }
    var difference: bv8 := 0;
    for i := 0 to |expected|
      invariant difference == 0 <==> supplied[..i] == expected[..i]
    {
      OrXorZero(difference, supplied[i], expected[i]);
      assert supplied[..i + 1] == supplied[..i] + [supplied[i]];
      assert expected[..i + 1] == expected[..i] + [expected[i]];
      difference := difference | (supplied[i] ^ expected[i]);
    }
    assert supplied[..|expected|] == supplied && expected[..|expected|] == expected;
    return difference == 0;
  }

  // ---- Client lookup ----------------------------------------------------------------------------

  datatype Client = Client(profile: Policy.Profile, token: Octets)

  ghost predicate Owns(c: Client, authorization: Octets) {
    c.profile.enabled && Matches(authorization, c.token)
  }

  ghost predicate TokensDistinct(clients: seq<Client>) {
    forall i, j :: 0 <= i < j < |clients| ==> clients[i].token != clients[j].token
  }

  ghost function FirstOwner(clients: seq<Client>, authorization: Octets): Option<Client> {
    if clients == [] then None
    else if Owns(clients[0], authorization) then Some(clients[0])
    else FirstOwner(clients[1..], authorization)
  }

  lemma {:induction false} FirstOwnerIs(clients: seq<Client>, authorization: Octets)
    ensures match FirstOwner(clients, authorization)
            case Some(c) => c in clients && Owns(c, authorization)
            case None => forall c :: c in clients ==> !Owns(c, authorization)
  {
    if clients != [] {
      FirstOwnerIs(clients[1..], authorization);
      assert clients == [clients[0]] + clients[1..];
    }
  }

  lemma {:induction false} FirstOwnerAt(clients: seq<Client>, authorization: Octets, i: nat)
    requires i < |clients| && Owns(clients[i], authorization)
    requires forall k :: 0 <= k < i ==> !Owns(clients[k], authorization)
    ensures FirstOwner(clients, authorization) == Some(clients[i])
  {
    if i > 0 {
      assert !Owns(clients[0], authorization);
      FirstOwnerAt(clients[1..], authorization, i - 1);
    }
  }

  method FindClient(clients: seq<Client>, authorization: Octets) returns (found: Option<Client>)
    ensures found == FirstOwner(clients, authorization)
    ensures found.Some? <==> exists c :: c in clients && c.profile.enabled && Matches(authorization, c.token)
    ensures found.Some? ==>
              exists i :: 0 <= i < |clients| && found.value == clients[i] && clients[i].profile.enabled
                          && Matches(authorization, clients[i].token)
                          && forall k :: 0 <= k < i && clients[k].profile.enabled ==>
                               !Matches(authorization, clients[k].token)
  {
    for i := 0 to |clients|
      invariant forall k :: 0 <= k < i ==> !Owns(clients[k], authorization)
    {
      if clients[i].profile.enabled {
        var matches := MatchesBearerToken(authorization, clients[i].token);
        if matches {
          FirstOwnerAt(clients, authorization, i);
          return Some(clients[i]);
        }
      }
    }
    FirstOwnerIs(clients, authorization);
    return None;
  }

  /** With distinct tokens at most one client owns a header, so whatever order the clients come in,
      the search selects the same one: the token alone decides the profile. */
  lemma SelectionIsOrderIndependent(clients: seq<Client>, others: seq<Client>, authorization: Octets)
    requires TokensDistinct(clients) && multiset(clients) == multiset(others)
    ensures FirstOwner(clients, authorization) == FirstOwner(others, authorization)
  {
    FirstOwnerIs(clients, authorization);
    FirstOwnerIs(others, authorization);
    forall c ensures c in clients <==> c in others {
      assert c in clients <==> c in multiset(clients);
    }
    var c, d := FirstOwner(clients, authorization), FirstOwner(others, authorization);
    if c.Some? && d.Some? {
      OwnersEqual(clients, c.value, d.value, authorization);
    }
  }

  lemma OwnersEqual(clients: seq<Client>, c: Client, d: Client, authorization: Octets)
    requires TokensDistinct(clients) && c in clients && d in clients
    requires Owns(c, authorization) && Owns(d, authorization)
    ensures c == d
  {
    var i :| 0 <= i < |clients| && clients[i] == c;
    var j :| 0 <= j < |clients| && clients[j] == d;
    assert c.token == d.token;
  }
}
