/** The bearer token a browser hides in the WebSocket subprotocol list, and its replacement by the
    impersonator's token (pkg/proxy/proxy.go). */
module WebSocketToken {
  import opened Text
  import opened Space
  import opened Base64Url
  import opened HttpRequest

  const BEARER_PREFIX: string := "base64url.bearer.authorization.k8s.io."
  const PROTOCOL_HEADER: string := "Sec-Websocket-Protocol"

  datatype TokenError = MultipleTokens | InvalidEncoding | NotUtf8 | NoToken

  predicate IsBearer(protocol: string) {
    HasPrefix(protocol, BEARER_PREFIX)
  }

  function TrimAll(parts: seq<string>): (r: seq<string>)
    ensures |r| == |parts|
  {
    seq(|parts|, k requires 0 <= k < |parts| => TrimSpace(parts[k]))
  }

  /** The subprotocols a list of header values names, in order. */
  function Protocols(values: seq<string>): seq<string> {
    if values == [] then [] else TrimAll(Split(values[0], ',')) + Protocols(values[1..])
  }

  function Bearers(protocols: seq<string>): seq<string> {
    if protocols == [] then []
    else (if IsBearer(protocols[0]) then [protocols[0]] else []) + Bearers(protocols[1..])
  }

  /** What the scan returns from a point where it has, or has not, seen a token. */
  function Scanned(protocols: seq<string>, saw: bool, token: Bytes): Result<Bytes, TokenError> {
    if protocols == [] then (if token == [] then Err(NoToken) else Ok(token))
    else if !IsBearer(protocols[0]) then Scanned(protocols[1..], saw, token)
    else if saw then Err(MultipleTokens)
    else
      var decoded := Decode(TrimPrefix(protocols[0], BEARER_PREFIX));
      if decoded.None? then Err(InvalidEncoding)
      else if !ValidUtf8(decoded.value) then Err(NotUtf8)
      else Scanned(protocols[1..], true, decoded.value)
  }

  function Values(header: Header): seq<string> {
    if PROTOCOL_HEADER in header then header[PROTOCOL_HEADER] else []
  }

  function Extracted(values: seq<string>): Result<Bytes, TokenError> {
    Scanned(Protocols(values), false, [])
  }

  /** The subprotocols from part `j` of value `i` on. */
  function Pending(values: seq<string>, i: nat, j: nat): seq<string>
    requires i < |values| && j <= |Split(values[i], ',')|
  {
    TrimAll(Split(values[i], ',')[j..]) + Protocols(values[i + 1..])
  }

  lemma PendingAtValue(values: seq<string>, i: nat)
    requires i < |values|
    ensures Protocols(values[i..]) == Pending(values, i, 0)
    ensures Pending(values, i, |Split(values[i], ',')|) == Protocols(values[i + 1..])
  {
    var parts := Split(values[i], ',');
    assert values[i..][0] == values[i] && values[i..][1..] == values[i + 1..];
    assert parts[0..] == parts && parts[|parts|..] == [];
  }

  lemma TrimAllCons(part: string, rest: seq<string>)
    ensures TrimAll([part] + rest) == [TrimSpace(part)] + TrimAll(rest)
  {
  }

  lemma PendingAtPart(values: seq<string>, i: nat, j: nat)
    requires i < |values| && j < |Split(values[i], ',')|
    ensures Pending(values, i, j) == [TrimSpace(Split(values[i], ',')[j])] + Pending(values, i, j + 1)
  {
    PartsFrom(Split(values[i], ','), j, Protocols(values[i + 1..]));
  }

  lemma PartsFrom(parts: seq<string>, j: nat, later: seq<string>)
    requires j < |parts|
    ensures TrimAll(parts[j..]) + later == [TrimSpace(parts[j])] + (TrimAll(parts[j + 1..]) + later)
  {
    assert parts[j..] == [parts[j]] + parts[j + 1..];
    TrimAllCons(parts[j], parts[j + 1..]);
  }

  lemma {:induction false} ScannedOne(protocol: string, rest: seq<string>, saw: bool, token: Bytes)
    ensures Scanned([protocol] + rest, saw, token)
         == if !IsBearer(protocol) then Scanned(rest, saw, token)
            else if saw then Err(MultipleTokens)
            else
              var decoded := Decode(TrimPrefix(protocol, BEARER_PREFIX));
              if decoded.None? then Err(InvalidEncoding)
              else if !ValidUtf8(decoded.value) then Err(NotUtf8)
              else Scanned(rest, true, decoded.value)
  {
    assert ([protocol] + rest)[1..] == rest;
  }

  method ExtractTokenFromWebsocketRequest(req: Request) returns (r: Result<Bytes, TokenError>)
    ensures r == Extracted(Values(req.header))
  {
    var token: Bytes := [];
    var sawTokenProtocol := false;
    var values := Values(req.header);
    assert values[0..] == values;
    for i := 0 to |values|
      invariant Scanned(Protocols(values[i..]), sawTokenProtocol, token) == Extracted(values)
    {
      var parts := Split(values[i], ',');
      PendingAtValue(values, i);
      for j := 0 to |parts|
        invariant Scanned(Pending(values, i, j), sawTokenProtocol, token) == Extracted(values)
      {
        var protocol := TrimSpace(parts[j]);
        PendingAtPart(values, i, j);
        ScannedOne(protocol, Pending(values, i, j + 1), sawTokenProtocol, token);
        if !IsBearer(protocol) {
          continue;
        }
        if sawTokenProtocol {
          return Err(MultipleTokens);
        }
        sawTokenProtocol := true;
        var decoded := Decode(TrimPrefix(protocol, BEARER_PREFIX));
        if decoded.None? {
          return Err(InvalidEncoding);
        }
        if !ValidUtf8(decoded.value) {
          return Err(NotUtf8);
        }
        token := decoded.value;
      }
    }
    assert values[|values|..] == [];
    return if token == [] then Err(NoToken) else Ok(token);
  }

  /** The subprotocol list with every bearer entry carrying the new token. */
  function Replaced(protocols: seq<string>, encoded: string): (r: seq<string>)
    ensures |r| == |protocols|
  {
    seq(|protocols|, k requires 0 <= k < |protocols| =>
      if IsBearer(protocols[k]) then BEARER_PREFIX + encoded else protocols[k])
  }

  function Swapped(values: seq<string>, newToken: Bytes): string {
    Join(Replaced(Protocols(values), Encode(newToken)), ",")
  }

  lemma ReplacedOne(done: seq<string>, protocol: string, rest: seq<string>, encoded: string)
    ensures done + Replaced([protocol] + rest, encoded)
         == done + [if IsBearer(protocol) then BEARER_PREFIX + encoded else protocol] + Replaced(rest, encoded)
  {
  }

  method ReplaceTokenInWebsocketRequest(req: Request, newToken: Bytes)
    modifies req`header
    ensures req.header == old(req.header)[PROTOCOL_HEADER := [Swapped(Values(old(req.header)), newToken)]]
  {
    var protocols: seq<string> := [];
    var encoded := Encode(newToken);
    var values := Values(req.header);
    assert values[0..] == values;
    for i := 0 to |values|
      invariant req.header == old(req.header)
      invariant protocols + Replaced(Protocols(values[i..]), encoded) == Replaced(Protocols(values), encoded)
    {
      var parts := Split(values[i], ',');
      PendingAtValue(values, i);
      for j := 0 to |parts|
        invariant req.header == old(req.header)
        invariant protocols + Replaced(Pending(values, i, j), encoded) == Replaced(Protocols(values), encoded)
      {
        var protocol := TrimSpace(parts[j]);
        PendingAtPart(values, i, j);
        ReplacedOne(protocols, protocol, Pending(values, i, j + 1), encoded);
        if !IsBearer(protocol) {
          protocols := protocols + [protocol];
          continue;
        }
        protocols := protocols + [BEARER_PREFIX + encoded];
      }
    }
    assert values[|values|..] == [];
    assert protocols + Replaced([], encoded) == protocols == Replaced(Protocols(values), encoded);
    req.header := req.header[PROTOCOL_HEADER := [Join(protocols, ",")]];
  }

  // ----- what the swap keeps -----

  lemma {:induction false} ProtocolsAreClean(values: seq<string>)
    ensures forall k :: 0 <= k < |Protocols(values)| ==>
      Trimmed(Protocols(values)[k]) && Without(Protocols(values)[k], ',')
  {
    if values != [] {
      ProtocolsAreClean(values[1..]);
      var parts := Split(values[0], ',');
      SplitPartsWithoutSep(values[0], ',');
      forall k | 0 <= k < |parts| ensures Trimmed(TrimAll(parts)[k]) && Without(TrimAll(parts)[k], ',') {
        TrimSpaceStable(parts[k]);
        TrimSpaceWithout(parts[k], ',');
      }
    }
  }

  predicate IsVisible(c: char) {
    c != ',' && 32 < c as int < 128
  }

  /** No white space, no comma, no byte of a longer rune. */
  predicate Visible(s: string) {
    forall k :: 0 <= k < |s| ==> IsVisible(s[k])
  }

  lemma DigitIsVisible(c: char)
    requires DigitValue(c).Some?
    ensures IsVisible(c)
  {
  }

  lemma NoSpaceRuneAt(u: string)
    requires u != "" && IsVisible(u[0])
    ensures !IsSpaceRune(u)
  {
  }

  lemma VisibleIsTrimmed(p: string)
    requires Visible(p)
    ensures Trimmed(p) && Without(p, ',')
  {
    var n := |p|;
    if n >= 1 { NoSpaceRuneAt(p[..1]); NoSpaceRuneAt(p[n - 1..]); }
    if n >= 2 { NoSpaceRuneAt(p[..2]); NoSpaceRuneAt(p[n - 2..]); }
    if n >= 3 { NoSpaceRuneAt(p[..3]); NoSpaceRuneAt(p[n - 3..]); }
  }

  lemma PrefixIsVisible()
    ensures Visible(BEARER_PREFIX)
  {
  }

  lemma {:induction false} NewProtocolIsClean(newToken: Bytes)
    ensures Trimmed(BEARER_PREFIX + Encode(newToken)) && Without(BEARER_PREFIX + Encode(newToken), ',')
  {
    PrefixIsVisible();
    EncodeInAlphabet(newToken);
    var encoded := Encode(newToken);
    forall k | 0 <= k < |encoded| ensures IsVisible(encoded[k]) {
      DigitIsVisible(encoded[k]);
    }
    VisibleIsTrimmed(BEARER_PREFIX + encoded);
  }

  lemma TrimmedStay(protocols: seq<string>)
    requires forall k :: 0 <= k < |protocols| ==> Trimmed(protocols[k])
    ensures TrimAll(protocols) == protocols
  {
    forall k | 0 <= k < |protocols| ensures TrimSpace(protocols[k]) == protocols[k] {
      TrimmedIsFixed(protocols[k]);
    }
  }

  lemma {:induction false} OneValue(value: string)
    ensures Protocols([value]) == TrimAll(Split(value, ','))
  {
    assert [value][1..] == [];
    assert TrimAll(Split(value, ',')) + [] == TrimAll(Split(value, ','));
  }

  /** Reading the rewritten header gives the old list back with only the bearer entries changed:
      every other subprotocol keeps its value and its place. */
  lemma {:induction false} SwapKeepsOtherProtocols(values: seq<string>, newToken: Bytes)
    requires Protocols(values) != []
    ensures Protocols([Swapped(values, newToken)]) == Replaced(Protocols(values), Encode(newToken))
  {
    var replaced := Replaced(Protocols(values), Encode(newToken));
    ProtocolsAreClean(values);
    NewProtocolIsClean(newToken);
    SplitOfJoin(replaced, ',');
    TrimmedStay(replaced);
    OneValue(Swapped(values, newToken));
  }

  lemma {:induction false} BearersOfReplaced(protocols: seq<string>, encoded: string)
    ensures |Bearers(Replaced(protocols, encoded))| == |Bearers(protocols)|
    ensures forall b :: b in Bearers(Replaced(protocols, encoded)) ==> b == BEARER_PREFIX + encoded
  {
    if protocols != [] {
      BearersOfReplaced(protocols[1..], encoded);
      assert Replaced(protocols, encoded)[1..] == Replaced(protocols[1..], encoded);
    }
  }

  predicate Carries(bearer: string, token: Bytes) {
    Decode(TrimPrefix(bearer, BEARER_PREFIX)) == Some(token)
  }

  lemma {:induction false} ScannedAfterToken(protocols: seq<string>, token: Bytes)
    ensures Scanned(protocols, true, token)
         == if Bearers(protocols) != [] then Err(MultipleTokens)
            else if token == [] then Err(NoToken) else Ok(token)
  {
    if protocols != [] {
      ScannedAfterToken(protocols[1..], token);
    }
  }

  /** Extraction succeeds with `token` exactly when one subprotocol is a bearer entry and that entry
      decodes to the non-empty, well-formed `token`. */
  lemma {:induction false} ExtractedExactly(protocols: seq<string>, token: Bytes)
    ensures Scanned(protocols, false, []) == Ok(token)
       <==> (&& |Bearers(protocols)| == 1
             && Carries(Bearers(protocols)[0], token)
             && token != [] && ValidUtf8(token))
  {
    if protocols != [] {
      if IsBearer(protocols[0]) {
        var decoded := Decode(TrimPrefix(protocols[0], BEARER_PREFIX));
        if decoded.Some? {
          ScannedAfterToken(protocols[1..], decoded.value);
        }
      } else {
        ExtractedExactly(protocols[1..], token);
      }
    }
  }

  /** Each way to find no token has its own error: no bearer entry, or one that holds an empty token; a second
      bearer entry behind a sound one; a first bearer entry that is no base64url, or no UTF-8. */
  lemma {:induction false} NotExtractedExactly(protocols: seq<string>)
    ensures var r := Scanned(protocols, false, []);
            var bearers := Bearers(protocols);
            var first := if bearers == [] then None else Decode(TrimPrefix(bearers[0], BEARER_PREFIX));
            && (r == Err(NoToken) <==> bearers == [] || (|bearers| == 1 && first == Some([])))
            && (r == Err(MultipleTokens) <==> |bearers| > 1 && first.Some? && ValidUtf8(first.value))
            && (r == Err(InvalidEncoding) <==> bearers != [] && first.None?)
            && (r == Err(NotUtf8) <==> first.Some? && !ValidUtf8(first.value))
  {
    if protocols != [] {
      if IsBearer(protocols[0]) {
        var decoded := Decode(TrimPrefix(protocols[0], BEARER_PREFIX));
        assert Bearers(protocols)[0] == protocols[0];
        assert |Bearers(protocols)| == 1 + |Bearers(protocols[1..])|;
        if decoded.Some? {
          ScannedAfterToken(protocols[1..], decoded.value);
        }
      } else {
        NotExtractedExactly(protocols[1..]);
      }
    }
  }

  /** The bearer entries are the subprotocols with the prefix, in order, and every header value is read. */
  lemma {:induction false} ProtocolsOfAllValues(values: seq<string>, more: seq<string>)
    ensures Protocols(values + more) == Protocols(values) + Protocols(more)
  {
    if values == [] {
      assert values + more == more;
    } else {
      assert (values + more)[0] == values[0] && (values + more)[1..] == values[1..] + more;
      ProtocolsOfAllValues(values[1..], more);
    }
  }

  /** Extracting after the swap gives the new token, for every header list with one bearer entry and
      for no other. */
  lemma {:induction false} ExtractAfterSwap(values: seq<string>, newToken: Bytes)
    requires newToken != [] && ValidUtf8(newToken)
    ensures Extracted([Swapped(values, newToken)]) == Ok(newToken) <==> |Bearers(Protocols(values))| == 1
  {
    var encoded := Encode(newToken);
    var swapped := Protocols([Swapped(values, newToken)]);
    if Protocols(values) == [] {
      assert Swapped(values, newToken) == "";
      assert swapped == TrimAll([""]) + Protocols([]);
      assert TrimSpace("") == "";
      assert swapped == [""];
      assert Bearers(swapped) == [] + Bearers([]) == [];
    } else {
      SwapKeepsOtherProtocols(values, newToken);
      BearersOfReplaced(Protocols(values), encoded);
    }
    ExtractedExactly(swapped, newToken);
    if |Bearers(Protocols(values))| == 1 {
      assert Bearers(swapped)[0] in Bearers(swapped);
      assert TrimPrefix(BEARER_PREFIX + encoded, BEARER_PREFIX) == encoded;
      DecodeOfEncode(newToken);
    }
  }

  /** The law the proxy relies on: whenever a token could be read, swapping it makes the new one readable. */
  lemma {:induction false} SwapIsReadBack(values: seq<string>, newToken: Bytes)
    requires newToken != [] && ValidUtf8(newToken)
    requires Extracted(values).Ok?
    ensures Extracted([Swapped(values, newToken)]) == Ok(newToken)
    ensures Protocols([Swapped(values, newToken)]) == Replaced(Protocols(values), Encode(newToken))
  {
    ExtractedExactly(Protocols(values), Extracted(values).value);
    ExtractAfterSwap(values, newToken);
    SwapKeepsOtherProtocols(values, newToken);
  }
}
