/** Whether the access token in hand is still worth sending. `JSON.parse` is a parameter. */
module AccessToken {
  import opened Options
  import opened Base64

  const ACCESS_TOKEN_FRESHNESS_MARGIN_MS := 60_000.0

  /** What a payload can hold under `exp`. */
  datatype Claim = Number(value: real) | NotFinite | NotANumber

  /** A parsed value: only an object that is not an array is a payload, and `exp` may be missing from it. */
  datatype Json = Object(exp: Option<Claim>) | Array | Primitive

  type Parser = seq<Byte> -> Option<Json>

  /** `token.split('.')` */
  function Split(token: string): (parts: seq<string>)
    ensures parts != []
  {
    if token == "" then [""]
    else if token[0] == '.' then [""] + Split(token[1..])
    else
      var rest := Split(token[1..]);
      [[token[0]] + rest[0]] + rest[1..]
  }

  function DecodeJwtPayload(token: string, parse: Parser): Option<Json> {
    var parts := Split(token);
    if |parts| != 3 || parts[1] == "" then None
    else
      match DecodeUrl(parts[1])
      case None => None
      case Some(bytes) =>
        match parse(bytes)
        case Some(Object(exp)) => Some(Object(exp))
        case _ => None
  }

  function IsAccessTokenUsable(token: Option<string>, nowMs: real, parse: Parser): bool {
    if token.None? || token.value == "" then false
    else
      match DecodeJwtPayload(token.value, parse)
      case Some(Object(Some(Number(exp)))) => exp * 1000.0 - nowMs > ACCESS_TOKEN_FRESHNESS_MARGIN_MS
      case _ => false
  }

  // ---------- Splitting ----------

  predicate NoDot(s: string) { forall i :: 0 <= i < |s| ==> s[i] != '.' }

  lemma {:induction false} SplitLast(s: string)
    requires NoDot(s)
    ensures Split(s) == [s]
  {
    if s != "" {
      SplitLast(s[1..]);
      assert [s[0]] + s[1..] == s;
    }
  }

  lemma {:induction false} SplitFirst(head: string, rest: string)
    requires NoDot(head)
    ensures Split(head + "." + rest) == [head] + Split(rest)
  {
    var token := head + "." + rest;
    if head == "" {
      assert token[1..] == rest;
    } else {
      SplitFirst(head[1..], rest);
      assert token[1..] == head[1..] + "." + rest;
      assert [token[0]] + head[1..] == head;
    }
  }

  function Rejoin(parts: seq<string>): string {
    if parts == [] then "" else if |parts| == 1 then parts[0] else parts[0] + "." + Rejoin(parts[1..])
  }

  lemma Regroup(c: char, head: string, rest: string)
    ensures ([c] + head) + "." + rest == [c] + (head + "." + rest)
  {
  }

  lemma RejoinLonger(c: char, parts: seq<string>)
    requires parts != []
    ensures Rejoin([[c] + parts[0]] + parts[1..]) == [c] + Rejoin(parts)
  {
    var longer := [[c] + parts[0]] + parts[1..];
    if |parts| > 1 {
      assert longer[1..] == parts[1..];
      Regroup(c, parts[0], Rejoin(parts[1..]));
    }
  }

  lemma RejoinAfterDot(parts: seq<string>)
    requires parts != []
    ensures Rejoin([""] + parts) == ['.'] + Rejoin(parts)
  {
    assert ([""] + parts)[1..] == parts;
    assert "" + "." + Rejoin(parts) == ['.'] + Rejoin(parts);
  }

  lemma {:induction false} PartsRejoin(token: string)
    ensures Rejoin(Split(token)) == token
  {
    if token != "" {
      PartsRejoin(token[1..]);
      assert token == [token[0]] + token[1..];
      if token[0] == '.' {
        RejoinAfterDot(Split(token[1..]));
      } else {
        RejoinLonger(token[0], Split(token[1..]));
      }
    }
  }

  lemma {:induction false} PartsHaveNoDot(token: string, k: nat)
    requires k < |Split(token)|
    ensures NoDot(Split(token)[k])
  {
    if token != "" {
      var rest := Split(token[1..]);
      if token[0] == '.' {
        if k > 0 {
          PartsHaveNoDot(token[1..], k - 1);
        }
      } else {
        PartsHaveNoDot(token[1..], k);
      }
    }
  }

  // ---------- What the client promises ----------

  /** A token of exactly three parts. */
  predicate IsThreeParts(token: string, header: string, payload: string, signature: string) {
    && token == header + "." + payload + "." + signature
    && NoDot(header) && NoDot(payload) && NoDot(signature)
  }

  /** A token splits into three parts in one way at most. */
  lemma ThreePartsIff(token: string, header: string, payload: string, signature: string)
    ensures IsThreeParts(token, header, payload, signature) <==> Split(token) == [header, payload, signature]
  {
    if IsThreeParts(token, header, payload, signature) {
      assert token == header + "." + (payload + "." + signature);
      SplitFirst(header, payload + "." + signature);
      SplitFirst(payload, signature);
      SplitLast(signature);
    }
    var parts := Split(token);
    if parts == [header, payload, signature] {
      PartsRejoin(token);
      PartsHaveNoDot(token, 0);
      PartsHaveNoDot(token, 1);
      PartsHaveNoDot(token, 2);
      assert Rejoin(parts[1..]) == payload + "." + signature;
      assert token == header + "." + payload + "." + signature;
    }
  }

  /** A payload put in a three-part token reaches the parser byte for byte. */
  lemma TokenRoundTrip(header: string, bytes: seq<Byte>, signature: string, parse: Parser)
    requires NoDot(header) && NoDot(signature) && bytes != []
    ensures var token := header + "." + EncodeUrl(bytes) + "." + signature;
            DecodeJwtPayload(token, parse) ==
            match parse(bytes) { case Some(Object(exp)) => Some(Object(exp)) case _ => None }
  {
    var payload := EncodeUrl(bytes);
    var token := header + "." + payload + "." + signature;
    forall i | 0 <= i < |payload| ensures payload[i] != '.' {
      SwappedDigit(ToSextets(bytes)[i]);
    }
    ThreePartsIff(token, header, payload, signature);
    SextetCount(bytes);
    UrlRoundTrip(bytes);
    assert Split(token) == [header, payload, signature];
  }

  /** The payload is not empty, its base64url decodes, and its bytes parse to this value. */
  predicate PayloadIs(payload: string, json: Json, parse: Parser) {
    payload != "" && DecodeUrl(payload).Some? && parse(DecodeUrl(payload).value) == Some(json)
  }

  /** A token decodes if and only if it is exactly three parts around a payload that parses to an object, and then to that object. */
  lemma DecodesIff(token: string, json: Json, parse: Parser)
    ensures DecodeJwtPayload(token, parse) == Some(json) <==>
            json.Object? && exists header, payload, signature ::
              IsThreeParts(token, header, payload, signature) && PayloadIs(payload, json, parse)
  {
    var parts := Split(token);
    if DecodeJwtPayload(token, parse) == Some(json) {
      ThreePartsIff(token, parts[0], parts[1], parts[2]);
      assert IsThreeParts(token, parts[0], parts[1], parts[2]) && PayloadIs(parts[1], json, parse);
    }
    forall header, payload, signature
      | json.Object? && IsThreeParts(token, header, payload, signature) && PayloadIs(payload, json, parse)
      ensures DecodeJwtPayload(token, parse) == Some(json)
    {
      ThreePartsIff(token, header, payload, signature);
    }
  }

  /** A token is usable exactly when it is three parts around a payload that names a finite expiry more than a minute away. */
  lemma UsableIff(token: string, nowMs: real, parse: Parser)
    ensures IsAccessTokenUsable(Some(token), nowMs, parse) <==>
            exists header, payload, signature, exp ::
              && IsThreeParts(token, header, payload, signature) && PayloadIs(payload, Object(Some(Number(exp))), parse)
              && nowMs + 60_000.0 < exp * 1000.0
  {
    if token == "" {
      assert |Split(token)| == 1;
    }
    if IsAccessTokenUsable(Some(token), nowMs, parse) {
      var json := DecodeJwtPayload(token, parse).value;
      DecodesIff(token, json, parse);
      var exp := json.exp.value.value;
      assert json == Object(Some(Number(exp)));
    }
    forall header, payload, signature, exp
      | IsThreeParts(token, header, payload, signature) && PayloadIs(payload, Object(Some(Number(exp))), parse)
        && nowMs + 60_000.0 < exp * 1000.0
      ensures IsAccessTokenUsable(Some(token), nowMs, parse)
    {
      DecodesIff(token, Object(Some(Number(exp))), parse);
    }
  }

  /** Once unusable, a token stays so. */
  lemma UnusableStaysUnusable(token: Option<string>, now: real, later: real, parse: Parser)
    requires now <= later && !IsAccessTokenUsable(token, now, parse)
    ensures !IsAccessTokenUsable(token, later, parse)
  {
  }

  /** A token that is not exactly three parts, or whose payload is empty or does not decode, is never usable. */
  lemma UndecodableIsUnusable(token: string, nowMs: real, parse: Parser)
    requires !exists header, payload, signature ::
               IsThreeParts(token, header, payload, signature) && payload != "" && DecodeUrl(payload).Some?
    ensures DecodeJwtPayload(token, parse).None?
    ensures !IsAccessTokenUsable(Some(token), nowMs, parse) && !IsAccessTokenUsable(None, nowMs, parse)
  {
    if DecodeJwtPayload(token, parse).Some? {
      DecodesIff(token, DecodeJwtPayload(token, parse).value, parse);
    }
    UsableIff(token, nowMs, parse);
  }
}
