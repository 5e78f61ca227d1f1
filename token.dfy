/** Signed action-link tokens for match availability responses. A token is
    `encodedPayload + "." + signature`, where `encodedPayload` is the
    base64url form (section 5 of RFC 4648) of the payload's JSON text and the
    signature is the base64url form of its HMAC-SHA256 (RFC 2104) under the
    application key. Hashing and encoding are oracles; verification is the
    ordered pipeline shape, signature, decode, schema, expiry. Time is
    milliseconds since the epoch; the payload's `exp` is whole seconds. */
module Token {
  import opened Wrappers
  import opened Json
  import Text

  const TOKEN_VERSION: int := 1
  const TOKEN_TTL_HOURS: int := 72
  const MS_PER_HOUR: int := 3_600_000
  /** The largest instant the date library accepts: 8.64e15 ms from the epoch. */
  const MAX_DATE_MS: int := 8_640_000_000_000_000

  datatype ResponseStatus = Yes | Maybe | No

  function StatusText(s: ResponseStatus): string {
    match s
    case Yes => "yes"
    case Maybe => "maybe"
    case No => "no"
  }

  /** The status named by a string, if it is one of the three. */
  function ParseStatus(s: string): (r: Option<ResponseStatus>)
    ensures r.Some? <==> s in {"yes", "maybe", "no"}
    ensures r.Some? ==> StatusText(r.value) == s
  {
    if s == "yes" then Some(Yes) else if s == "maybe" then Some(Maybe) else if s == "no" then Some(No) else None
  }

  datatype TokenPayload = TokenPayload(v: int, matchId: int, userId: int, status: ResponseStatus, exp: int)

  datatype VerifiedPayload = VerifiedPayload(matchId: int, userId: int, status: ResponseStatus, expiresAtMs: int)

  datatype VerifyError = TokenInvalid | TokenExpired

  /** The oracles the service relies on. `sign` is HMAC-SHA256 under the
      application key rendered as base64url; `encode`/`decode` are UTF-8 plus
      base64url (decoding never throws: it skips what is not in the alphabet). */
  datatype Codec = Codec(
    sign: string -> string,
    encode: string -> string,
    decode: string -> string,
    json: JsonText)

  predicate IsBase64UrlChar(c: char) {
    ('A' <= c <= 'Z') || ('a' <= c <= 'z') || ('0' <= c <= '9') || c == '-' || c == '_'
  }

  predicate IsBase64Url(s: string) {
    forall i :: 0 <= i < |s| ==> IsBase64UrlChar(s[i])
  }

  /** What the round-trip property assumes of the oracles: decoding undoes
      encoding, both outputs use the base64url alphabet, non-empty text
      encodes to non-empty text, and a signature is never empty. */
  ghost predicate Sound(c: Codec) {
    RoundTrips(c.json)
    && (forall s :: c.decode(c.encode(s)) == s)
    && (forall s :: IsBase64Url(c.encode(s)) && (s != [] ==> c.encode(s) != []))
    && (forall s :: IsBase64Url(c.sign(s)) && c.sign(s) != [])
  }

  /** The JSON object `createToken` serializes. */
  function PayloadJson(p: TokenPayload): Json {
    JObj(map[
      "v" := JNum(p.v as real),
      "matchId" := JNum(p.matchId as real),
      "userId" := JNum(p.userId as real),
      "status" := JStr(StatusText(p.status)),
      "exp" := JNum(p.exp as real)])
  }

  /** An integer member that must be positive (`number().withoutDecimals().positive()`). */
  function PositiveInt(j: Json, key: string): (r: Option<int>)
    ensures r.Some? ==> r.value > 0
  {
    var m := Member(j, key);
    if m.Some? && AsInt(m.value).Some? && AsInt(m.value).value > 0 then AsInt(m.value) else None
  }

  /** The payload schema: v is 1, matchId, userId and exp are positive integers,
      status is yes, maybe or no. Other members are ignored. */
  function ValidatePayload(j: Json): (r: Option<TokenPayload>)
    ensures r.Some? ==> r.value.v == TOKEN_VERSION && r.value.matchId > 0 && r.value.userId > 0 && r.value.exp > 0
  {
    var v := Member(j, "v");
    var matchId := PositiveInt(j, "matchId");
    var userId := PositiveInt(j, "userId");
    var status := Member(j, "status");
    var exp := PositiveInt(j, "exp");
    if v.Some? && AsInt(v.value) == Some(TOKEN_VERSION) && matchId.Some? && userId.Some?
       && status.Some? && status.value.JStr? && ParseStatus(status.value.s).Some? && exp.Some?
    then Some(TokenPayload(TOKEN_VERSION, matchId.value, userId.value, ParseStatus(status.value.s).value, exp.value))
    else None
  }

  /** The schema accepts the serialized payload exactly when its fields meet the rules. */
  lemma ValidatePayloadJson(p: TokenPayload)
    ensures ValidatePayload(PayloadJson(p)) == Some(p) <==>
      p.v == TOKEN_VERSION && p.matchId > 0 && p.userId > 0 && p.exp > 0
    ensures ValidatePayload(PayloadJson(p)).Some? ==> ValidatePayload(PayloadJson(p)) == Some(p)
  {
    var j := PayloadJson(p);
    assert Member(j, "status") == Some(JStr(StatusText(p.status)));
    assert ParseStatus(StatusText(p.status)) == Some(p.status);
  }

  /** The payload `createToken` signs: `expiresAtMs` defaults to now + 72 hours,
      and exp is the expiry in whole seconds, rounded down. */
  function CreatedPayload(matchId: int, userId: int, status: ResponseStatus,
                          expiresAtMs: Option<int>, nowMs: int): (p: TokenPayload)
    ensures p.v == TOKEN_VERSION && p.matchId == matchId && p.userId == userId && p.status == status
    ensures expiresAtMs.None? ==> p.exp * 1000 <= nowMs + TOKEN_TTL_HOURS * MS_PER_HOUR < p.exp * 1000 + 1000
    ensures expiresAtMs.Some? ==> p.exp * 1000 <= expiresAtMs.value < p.exp * 1000 + 1000
  {
    TokenPayload(TOKEN_VERSION, matchId, userId, status, expiresAtMs.GetOr(nowMs + TOKEN_TTL_HOURS * MS_PER_HOUR) / 1000)
  }

  /** Base64url text holds no dot, so the token splits back into its two parts. */
  lemma TokenParts(c: Codec, text: string)
    ensures Sound(c) ==>
      Text.Split(c.encode(text) + "." + c.sign(c.encode(text)), '.') == [c.encode(text), c.sign(c.encode(text))]
  {
    if Sound(c) {
      var encoded, sig := c.encode(text), c.sign(c.encode(text));
      assert IsBase64Url(encoded) && IsBase64Url(sig);
      assert '.' !in encoded by {
        assert forall i :: 0 <= i < |encoded| ==> encoded[i] != '.';
      }
      assert '.' !in sig by {
        assert forall i :: 0 <= i < |sig| ==> sig[i] != '.';
      }
      Text.SplitTwo(encoded, '.', sig);
    }
  }

  /** `createToken`: the encoded payload, a dot, and the signature of the
      encoded payload. With sound oracles the token splits at its one dot into
      a part that decodes to the payload's JSON text and its signature. */
  function CreateToken(c: Codec, matchId: int, userId: int, status: ResponseStatus,
                       expiresAtMs: Option<int>, nowMs: int): (r: string)
    ensures Sound(c) ==>
      var parts := Text.Split(r, '.');
      |parts| == 2 && parts[1] == c.sign(parts[0])
      && c.json.parse(c.decode(parts[0])) == Some(PayloadJson(CreatedPayload(matchId, userId, status, expiresAtMs, nowMs)))
  {
    var text := c.json.stringify(PayloadJson(CreatedPayload(matchId, userId, status, expiresAtMs, nowMs)));
    var encoded := c.encode(text);
    TokenParts(c, text);
    encoded + "." + c.sign(encoded)
  }

  /** `verifyToken`. `nowMs` is the current time. */
  function VerifyToken(c: Codec, token: string, nowMs: int): (r: Result<VerifiedPayload, VerifyError>)
    ensures |Text.Split(token, '.')| != 2 ==> r == Err(TokenInvalid)
    ensures r.Ok? ==> var parts := Text.Split(token, '.');
      |parts| == 2 && parts[0] != [] && parts[1] == c.sign(parts[0])
    ensures r.Ok? ==> r.value.expiresAtMs > nowMs && r.value.matchId > 0 && r.value.userId > 0
  {
    var parts := Text.Split(token, '.');
    if |parts| != 2 then Err(TokenInvalid)
    else
      var encoded, provided := parts[0], parts[1];
      if encoded == [] || provided == [] then Err(TokenInvalid)
      else
        var expected := c.sign(encoded);
        // Buffers of different byte lengths are rejected before the constant-time comparison.
        if Utf8Length(provided) != Utf8Length(expected) then Err(TokenInvalid)
        else if provided != expected then Err(TokenInvalid)
        else
          var parsed := c.json.parse(c.decode(encoded));
          if parsed.None? then Err(TokenInvalid)
          else
            var payload := ValidatePayload(parsed.value);
            if payload.None? then Err(TokenInvalid)
            else
              var expiresAtMs := payload.value.exp * 1000;
              if expiresAtMs > MAX_DATE_MS then Err(TokenInvalid)
              else if expiresAtMs <= nowMs then Err(TokenExpired)
              else Ok(VerifiedPayload(payload.value.matchId, payload.value.userId, payload.value.status, expiresAtMs))
  }

  /** The number of bytes of the UTF-8 encoding of a string (`Buffer.from(s).length`). */
  function Utf8Length(s: string): nat {
    if s == [] then 0
    else
      var c := s[0] as int;
      (if c < 0x80 then 1 else if c < 0x800 then 2 else if c < 0x10000 then 3 else 4) + Utf8Length(s[1..])
  }

  /** Verifying a freshly created token returns its match, user and status,
      provided the ids are positive and the expiry, truncated to whole seconds,
      is still in the future and within the date range. */
  lemma {:induction false} CreateThenVerify(c: Codec, matchId: int, userId: int, status: ResponseStatus,
                                            expiresAtMs: Option<int>, createdMs: int, nowMs: int)
    requires Sound(c)
    requires matchId > 0 && userId > 0
    requires var p := CreatedPayload(matchId, userId, status, expiresAtMs, createdMs);
      p.exp > 0 && nowMs < p.exp * 1000 <= MAX_DATE_MS
    ensures var p := CreatedPayload(matchId, userId, status, expiresAtMs, createdMs);
      VerifyToken(c, CreateToken(c, matchId, userId, status, expiresAtMs, createdMs), nowMs)
        == Ok(VerifiedPayload(matchId, userId, status, p.exp * 1000))
  {
    var p := CreatedPayload(matchId, userId, status, expiresAtMs, createdMs);
    var text := c.json.stringify(PayloadJson(p));
    var encoded := c.encode(text);
    var sig := c.sign(encoded);
    assert '.' !in encoded by {
      assert IsBase64Url(encoded);
      assert forall i :: 0 <= i < |encoded| ==> encoded[i] != '.';
    }
    assert '.' !in sig by {
      assert IsBase64Url(sig);
      assert forall i :: 0 <= i < |sig| ==> sig[i] != '.';
    }
    Text.SplitTwo(encoded, '.', sig);
    assert CreateToken(c, matchId, userId, status, expiresAtMs, createdMs) == encoded + "." + sig;
    assert c.decode(encoded) == text;
    assert c.json.parse(text) == Some(PayloadJson(p));
    ValidatePayloadJson(p);
  }

  /** A correctly shaped token whose signature does not match is invalid whatever
      the payload decodes to and whatever the time: the signature is checked first. */
  lemma SignatureCheckedFirst(c1: Codec, c2: Codec, token: string, now1: int, now2: int)
    requires c1.sign == c2.sign
    requires var parts := Text.Split(token, '.'); |parts| == 2 && parts[1] != c1.sign(parts[0])
    ensures VerifyToken(c1, token, now1) == VerifyToken(c2, token, now2) == Err(TokenInvalid)
  {
  }

  /** A correctly signed, well-formed token whose expiry is not after now is
      `token_expired`, never ok. */
  lemma ExpiredNeverOk(c: Codec, token: string, nowMs: int)
    requires var parts := Text.Split(token, '.');
      |parts| == 2 && parts[0] != [] && parts[1] != [] && parts[1] == c.sign(parts[0])
    requires var parsed := c.json.parse(c.decode(Text.Split(token, '.')[0]));
      parsed.Some? && ValidatePayload(parsed.value).Some?
      && ValidatePayload(parsed.value).value.exp * 1000 <= MAX_DATE_MS
      && ValidatePayload(parsed.value).value.exp * 1000 <= nowMs
    ensures VerifyToken(c, token, nowMs) == Err(TokenExpired)
  {
  }

  /** Without an explicit expiry a token expires 72 hours after it is created,
      truncated to the second. */
  lemma DefaultExpiry(matchId: int, userId: int, status: ResponseStatus, nowMs: int)
    ensures CreatedPayload(matchId, userId, status, None, nowMs).exp == (nowMs + 259_200_000) / 1000
  {
  }
}
