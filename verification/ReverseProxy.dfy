/** The header clean-up in front of the proxy and the director that turns a user's request into a
    request of the impersonator (pkg/proxy/proxy.go). */
module ReverseProxy {
  import opened Text
  import opened Base64Url
  import opened HttpRequest
  import opened WebSocketToken
  import opened Space

  const IMPERSONATE_PREFIX: string := "impersonate-"
  const SSO_USER: string := "X-Sso-User"
  const USER_AGENT: string := "User-Agent"
  const AUTHORIZATION: string := "Authorization"
  const IMPERSONATE_USER: string := "Impersonate-User"

  predicate IsImpersonation(key: string) {
    HasPrefix(Lower(key), IMPERSONATE_PREFIX)
  }

  /** The header without the canonical form of any of its impersonation keys. */
  function Stripped(header: Header): Header {
    map key | key in header && !(exists k :: k in header && IsImpersonation(k) && CanonicalKey(k) == key) :: header[key]
  }

  /** Go ranges over the map while deleting from it; an entry deleted before it was reached is not visited. */
  method StripInvalidHeaders(req: Request)
    modifies req`header
    ensures req.header == Stripped(old(req.header))
  {
    ghost var before := req.header;
    var pending := req.header.Keys;
    ghost var gone: set<string> := {};
    while pending != {}
      invariant pending <= req.header.Keys
      invariant req.header == before - gone
      invariant forall g :: g in gone ==> exists k :: k in before && IsImpersonation(k) && CanonicalKey(k) == g
      invariant forall k :: k in before && k !in pending && IsImpersonation(k) ==> k in gone || CanonicalKey(k) in gone
      invariant forall g :: g in gone ==> CanonicalKey(g) == g
      decreases pending
    {
      var name :| name in pending;
      pending := pending - {name};
      if IsImpersonation(name) {
        CanonicalTwice(name);
        req.header := req.header - {CanonicalKey(name)};
        gone := gone + {CanonicalKey(name)};
        pending := pending - {CanonicalKey(name)};
      }
    }
    assert req.header.Keys == Stripped(before).Keys by {
      forall key | key in before
        ensures key in gone <==> exists k :: k in before && IsImpersonation(k) && CanonicalKey(k) == key
      {
        if k :| k in before && IsImpersonation(k) && CanonicalKey(k) == key {
          assert k in gone || CanonicalKey(k) in gone;
        }
      }
    }
  }

  lemma CanonicalImpersonation(key: string)
    ensures IsImpersonation(CanonicalKey(key)) <==> IsImpersonation(key)
  {
    CanonicalKeepsLower(key);
  }

  /** Stripping removes every impersonation header exactly when all of them are written canonically,
      and it removes nothing else. */
  lemma StripExactly(header: Header)
    ensures (forall key :: key in Stripped(header) ==> !IsImpersonation(key))
       <==> (forall key :: key in header && IsImpersonation(key) ==> CanonicalKey(key) == key)
    ensures forall key :: key in header && !IsImpersonation(key) ==> key in Stripped(header)
    ensures forall key :: key in Stripped(header) ==> key in header && Stripped(header)[key] == header[key]
    ensures forall key :: key in header && key !in Stripped(header) <==>
                          key in header && IsImpersonation(key) && CanonicalKey(key) == key
  {
    forall key | key in header && !IsImpersonation(key) ensures key in Stripped(header) {
      forall k | k in header && IsImpersonation(k) ensures CanonicalKey(k) != key {
        CanonicalImpersonation(k);
      }
    }
    forall key | key in header && IsImpersonation(key)
      ensures CanonicalKey(key) == key ==> key !in Stripped(header)
      ensures CanonicalKey(key) != key ==> key in Stripped(header)
    {
      if CanonicalKey(key) != key {
        StrayKeyStays(header, key);
      }
    }
  }

  /** An impersonation key in another writing is not removed. */
  lemma StrayKeyStays(header: Header, key: string)
    requires key in header && CanonicalKey(key) != key
    ensures key in Stripped(header)
  {
    forall k | k in header && IsImpersonation(k) ensures CanonicalKey(k) != key {
      CanonicalTwice(k);
    }
  }

  // ----- the director -----

  datatype Target = Target(scheme: string, host: string, path: string, rawQuery: string,
                           username: string, impersonatorToken: Bytes)

  function SingleJoiningSlash(a: string, b: string): string {
    var aslash := a != "" && a[|a| - 1] == '/';
    var bslash := HasPrefix(b, "/");
    if aslash && bslash then a + b[1..]
    else if !aslash && !bslash then a + "/" + b
    else a + b
  }

  /** Exactly one slash stands where the two paths meet. */
  lemma SingleJoiningSlashMeets(a: string, b: string)
    ensures exists front, back ::
      && SingleJoiningSlash(a, b) == front + "/" + back
      && (a == front || a == front + "/") && (b == back || b == "/" + back)
      && (a == front ==> a == "" || a[|a| - 1] != '/')
      && (b == back ==> !HasPrefix(b, "/"))
  {
    var front := if a != "" && a[|a| - 1] == '/' then a[..|a| - 1] else a;
    var back := if HasPrefix(b, "/") then b[1..] else b;
    assert a == front || a == front + "/";
    assert b == back || b == "/" + back;
    if a == front && b != back {
      assert SingleJoiningSlash(a, b) == front + "/" + back;
    } else if a != front && b == back {
      assert SingleJoiningSlash(a, b) == front + "/" + back;
    } else if a != front && b != back {
      assert SingleJoiningSlash(a, b) == front + "/" + back;
    }
    assert SingleJoiningSlash(a, b) == front + "/" + back;
  }

  function Bearer(token: Bytes): string {
    "Bearer " + token
  }

  /** The header the director leaves behind. */
  function Directed(header: Header, username: string, target: Target, isWebSocket: bool): Header {
    var h1 := header[SSO_USER := [username]];
    var h2 := if USER_AGENT in h1 then h1 else h1[USER_AGENT := [""]];
    var h3 := if isWebSocket
              then h2[PROTOCOL_HEADER := [Swapped(Values(h2), target.impersonatorToken)]]
              else h2[AUTHORIZATION := [Bearer(target.impersonatorToken)]];
    h3[IMPERSONATE_USER := [target.username]]
  }

  method Director(req: Request, username: string, target: Target, isPlugin: bool, isWebSocket: bool)
    modifies req
    ensures req.scheme == target.scheme && req.urlHost == target.host
    ensures req.path == SingleJoiningSlash(target.path, old(req.path))
    ensures req.rawQuery == if target.rawQuery == "" then old(req.rawQuery)
                            else if old(req.rawQuery) == "" then target.rawQuery
                            else target.rawQuery + "&" + old(req.rawQuery)
    ensures req.host == if isPlugin then target.host else old(req.host)
    ensures req.header == Directed(old(req.header), username, target, isWebSocket)
  {
    req.scheme := target.scheme;
    req.urlHost := target.host;
    req.path := SingleJoiningSlash(target.path, req.path);
    req.header := req.header[SSO_USER := [username]];
    if isPlugin {
      req.host := target.host;
    }
    if target.rawQuery == "" || req.rawQuery == "" {
      req.rawQuery := target.rawQuery + req.rawQuery;
    } else {
      req.rawQuery := target.rawQuery + "&" + req.rawQuery;
    }
    if USER_AGENT !in req.header {
      req.header := req.header[USER_AGENT := [""]];
    }
    if isWebSocket {
      ReplaceTokenInWebsocketRequest(req, target.impersonatorToken);
    } else {
      req.header := req.header[AUTHORIZATION := [Bearer(target.impersonatorToken)]];
    }
    req.header := req.header[IMPERSONATE_USER := [target.username]];
  }

  lemma FixedKeys()
    ensures !IsImpersonation(SSO_USER) && !IsImpersonation(USER_AGENT)
    ensures !IsImpersonation(AUTHORIZATION) && !IsImpersonation(PROTOCOL_HEADER)
    ensures IsImpersonation(IMPERSONATE_USER)
  {
    assert Lower(SSO_USER)[0] == 'x' && Lower(USER_AGENT)[0] == 'u';
    assert Lower(AUTHORIZATION)[0] == 'a' && Lower(PROTOCOL_HEADER)[0] == 's';
    assert Lower(IMPERSONATE_USER)[..|IMPERSONATE_PREFIX|] == IMPERSONATE_PREFIX;
  }

  lemma DirectorKeepsKeys(header: Header, username: string, target: Target, isWebSocket: bool)
    ensures var sent := Directed(header, username, target, isWebSocket);
            && (forall key :: key in header ==> key in sent)
            && (forall key :: key in sent && IsImpersonation(key) ==> key in header || key == IMPERSONATE_USER)
            && IMPERSONATE_USER in sent && sent[IMPERSONATE_USER] == [target.username]
  {
    FixedKeys();
  }

  lemma UserKeyIsCanonical()
    ensures CanonicalKey(IMPERSONATE_USER) == IMPERSONATE_USER
  {
    var c := CanonicalKey(IMPERSONATE_USER);
    assert IsToken(IMPERSONATE_USER);
    forall k | 0 <= k < |IMPERSONATE_USER| ensures c[k] == IMPERSONATE_USER[k] {
      assert c[k] == CanonicalByte(IMPERSONATE_USER, k);
    }
  }

  /** After stripping and the director the member cluster sees `Impersonate-User` with the chosen target
      user and nobody else; it is the only impersonation header exactly when the user's own impersonation
      keys were all written canonically, as the HTTP server writes them. */
  lemma OnlyTheChosenUserIsImpersonated(header: Header, username: string, target: Target, isWebSocket: bool)
    ensures var sent := Directed(Stripped(header), username, target, isWebSocket);
            && IMPERSONATE_USER in sent && sent[IMPERSONATE_USER] == [target.username]
            && ((forall key :: key in sent && IsImpersonation(key) ==> key == IMPERSONATE_USER)
                <==> (forall key :: key in header && IsImpersonation(key) ==> CanonicalKey(key) == key))
  {
    StripExactly(header);
    DirectorKeepsKeys(Stripped(header), username, target, isWebSocket);
    UserKeyIsCanonical();
    forall key | key in header && IsImpersonation(key) && CanonicalKey(key) != key
      ensures key in Directed(Stripped(header), username, target, isWebSocket) && key != IMPERSONATE_USER
    {
      StrayKeyStays(header, key);
    }
  }

  /** The bearer header, or every bearer subprotocol of a WebSocket request, carries the
      impersonator's token; the headers the director does not own arrive as they were. */
  lemma CredentialsAreTheImpersonators(header: Header, username: string, target: Target, isWebSocket: bool)
    ensures var sent := Directed(header, username, target, isWebSocket);
            var owned := if isWebSocket then PROTOCOL_HEADER else AUTHORIZATION;
            && (!isWebSocket ==> owned in sent && sent[owned] == [Bearer(target.impersonatorToken)])
            && (isWebSocket && Protocols(Values(header)) != [] ==>
                  Protocols(Values(sent)) == Replaced(Protocols(Values(header)), Encode(target.impersonatorToken)))
            && (forall key :: key in header && key !in {SSO_USER, owned, IMPERSONATE_USER} ==>
                  key in sent && sent[key] == header[key])
            && SSO_USER in sent && sent[SSO_USER] == [username]
            && (USER_AGENT !in header ==> USER_AGENT in sent && sent[USER_AGENT] == [""])
            && sent.Keys == header.Keys + {SSO_USER, USER_AGENT, owned, IMPERSONATE_USER}
            && (isWebSocket ==> |sent[PROTOCOL_HEADER]| == 1)
  {
    KeysDiffer();
    assert SSO_USER != PROTOCOL_HEADER && USER_AGENT != PROTOCOL_HEADER && IMPERSONATE_USER != PROTOCOL_HEADER;
    assert AUTHORIZATION != IMPERSONATE_USER && SSO_USER != IMPERSONATE_USER && SSO_USER != AUTHORIZATION;
    assert SSO_USER != USER_AGENT;
    if isWebSocket && Protocols(Values(header)) != [] {
      SwapKeepsOtherProtocols(Values(header), target.impersonatorToken);
    }
  }

  /** No credential but the impersonator's is in the header, neither as a bearer header nor as a subprotocol. */
  predicate OnlyOwnCredentials(header: Header, token: Bytes) {
    && (AUTHORIZATION in header ==> header[AUTHORIZATION] == [Bearer(token)])
    && OnlyOwnBearers(Values(header), token)
  }

  predicate OnlyOwnBearers(values: seq<string>, token: Bytes) {
    forall b :: b in Bearers(Protocols(values)) ==> b == BEARER_PREFIX + Encode(token)
  }

  lemma {:induction false} SwappedBearers(values: seq<string>, token: Bytes)
    ensures OnlyOwnBearers([Swapped(values, token)], token)
  {
    if Protocols(values) == [] {
      assert Replaced(Protocols(values), Encode(token)) == [];
      NoBearerInEmptyText();
    } else {
      SwapKeepsOtherProtocols(values, token);
      BearersOfReplaced(Protocols(values), Encode(token));
    }
  }

  lemma NoBearerInEmptyText()
    ensures Bearers(Protocols([""])) == []
  {
    assert [""][1..] == [] && Split("", ',') == [""] && TrimAll([""]) == [TrimSpace("")];
    assert Protocols([""]) == [TrimSpace("")] + [];
    assert [TrimSpace("")][1..] == [];
  }

  lemma KeysDiffer()
    ensures AUTHORIZATION != PROTOCOL_HEADER && AUTHORIZATION != SSO_USER && AUTHORIZATION != USER_AGENT
    ensures AUTHORIZATION != IMPERSONATE_USER
    ensures PROTOCOL_HEADER != SSO_USER && PROTOCOL_HEADER != USER_AGENT && PROTOCOL_HEADER != IMPERSONATE_USER
  {
    assert |AUTHORIZATION| == 13 && |PROTOCOL_HEADER| == 22 && |SSO_USER| == 10;
    assert |USER_AGENT| == 10 && |IMPERSONATE_USER| == 16;
  }

  /** What a WebSocket request sends out as credentials: its own bearer header, and swapped subprotocols. */
  lemma WebSocketCredentials(header: Header, username: string, target: Target)
    ensures var sent := Directed(header, username, target, true);
            && Values(sent) == [Swapped(Values(header), target.impersonatorToken)]
            && (AUTHORIZATION in sent <==> AUTHORIZATION in header)
            && (AUTHORIZATION in header ==> sent[AUTHORIZATION] == header[AUTHORIZATION])
  {
    KeysDiffer();
  }

  /** What any other request sends out: the impersonator's bearer header, and its own subprotocols. */
  lemma PlainCredentials(header: Header, username: string, target: Target)
    ensures var sent := Directed(header, username, target, false);
            && Values(sent) == Values(header)
            && AUTHORIZATION in sent && sent[AUTHORIZATION] == [Bearer(target.impersonatorToken)]
  {
    KeysDiffer();
    var sent := Directed(header, username, target, false);
    assert PROTOCOL_HEADER in sent <==> PROTOCOL_HEADER in header;
    assert PROTOCOL_HEADER in header ==> sent[PROTOCOL_HEADER] == header[PROTOCOL_HEADER];
  }

  /** The director replaces the credential of the kind of request it sees and forwards one of the other kind:
      only the impersonator's credentials go out exactly when a WebSocket request came without a bearer
      header of its own, or any other request without bearer subprotocols of its own. */
  lemma {:induction false} OnlyOwnCredentialsExactly(header: Header, username: string, target: Target,
                                                     isWebSocket: bool)
    ensures OnlyOwnCredentials(Directed(header, username, target, isWebSocket), target.impersonatorToken)
       <==> if isWebSocket then AUTHORIZATION in header ==> header[AUTHORIZATION] == [Bearer(target.impersonatorToken)]
            else OnlyOwnBearers(Values(header), target.impersonatorToken)
  {
    if isWebSocket {
      WebSocketCredentials(header, username, target);
      SwappedBearers(Values(header), target.impersonatorToken);
    } else {
      PlainCredentials(header, username, target);
    }
  }
}
