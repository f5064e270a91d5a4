/** The compact HS256 tokens of the collaboration server. */
module Jwt {
  import opened Wrappers
  import opened Base64url

  /** What JSON text can hold; nested values other than the claims are kept as they are. */
  datatype Json =
    | Null
    | Number(value: real)
    | Text(text: string)
    | Other(raw: string)
    | Object(fields: map<string, Json>)

  /** `JSON.parse`: a value, or a syntax error. */
  type Parsed = Option<Json>

  /**
   * What the token code takes from its environment: the UTF-8 JSON text of a value, its inverse, and
   * HMAC-SHA256 of a text under a secret.
   */
  datatype Codec = Codec(
    write: Json -> seq<byte>,
    read: seq<byte> -> Parsed,
    mac: (string, string) -> seq<byte>,
    header: Json)

  datatype Verdict = Valid(payload: Json) | Invalid | Throws

  const DEFAULT_EXPIRY_SEC := 3600.0

  // ---------------------------------------------------------------------
  // Splitting at dots
  // ---------------------------------------------------------------------

  function Split(s: string, tail: string): seq<string> {
    if s == "" then [tail]
    else
      var n := |s| - 1;
      if s[n] == '.' then Split(s[..n], "") + [tail] else Split(s[..n], [s[n]] + tail)
  }

  /** `token.split('.')`. */
  function Parts(token: string): seq<string> {
    Split(token, "")
  }

  function Join(parts: seq<string>): string {
    if parts == [] then ""
    else if |parts| == 1 then parts[0]
    else Join(parts[..|parts| - 1]) + "." + parts[|parts| - 1]
  }

  predicate Dotless(parts: seq<string>) {
    forall k :: 0 <= k < |parts| ==> '.' !in parts[k]
  }

  lemma {:induction false} SplitTail(s: string, piece: string, tail: string)
    requires '.' !in piece
    ensures Split(s + piece, tail) == Split(s, piece + tail)
  {
    if piece == "" {
      assert s + piece == s && piece + tail == tail;
    } else {
      var n := |piece| - 1;
      assert (s + piece)[..|s + piece| - 1] == s + piece[..n];
      assert piece[..n] + ([piece[n]] + tail) == piece + tail;
      SplitTail(s, piece[..n], [piece[n]] + tail);
    }
  }

  lemma SplitSnoc(s: string, piece: string)
    requires '.' !in piece
    ensures Parts(s + "." + piece) == Parts(s) + [piece]
  {
    var p := s + ".";
    SplitTail(p, piece, "");
    assert piece + "" == piece && p[..|p| - 1] == s;
  }

  /** Three pieces without dots come back apart exactly as they were joined. */
  lemma ThreePartsOf(a: string, b: string, c: string)
    requires '.' !in a && '.' !in b && '.' !in c
    ensures Parts(a + "." + b + "." + c) == [a, b, c]
  {
    SplitTail("", a, "");
    assert "" + a == a && a + "" == a;
    SplitSnoc(a, b);
    SplitSnoc(a + "." + b, c);
  }

  lemma {:induction false} SplitJoins(s: string, tail: string)
    requires '.' !in tail
    ensures Split(s, tail) != [] && Join(Split(s, tail)) == s + tail && Dotless(Split(s, tail))
  {
    if s == "" {
      assert s + tail == tail;
    } else {
      var n := |s| - 1;
      if s[n] == '.' {
        SplitJoins(s[..n], "");
        var front := Split(s[..n], "");
        assert (front + [tail])[..|front|] == front;
        assert s[..n] + "" + "." + tail == s + tail;
      } else {
        SplitJoins(s[..n], [s[n]] + tail);
        assert s[..n] + ([s[n]] + tail) == s + tail;
      }
    }
  }

  lemma ThreePartsJoin(token: string, a: string, b: string, c: string)
    requires Parts(token) == [a, b, c]
    ensures token == a + "." + b + "." + c && '.' !in a && '.' !in b && '.' !in c
  {
    SplitJoins(token, "");
    assert token + "" == token;
    var parts := [a, b, c];
    assert Dotless(parts) && parts[0] == a && parts[1] == b && parts[2] == c;
    assert Join([a]) == a;
    assert [a, b][..1] == [a];
    assert Join([a, b]) == a + "." + b;
    assert parts[..2] == [a, b];
  }

  /** A token splits into three parts in one way only. */
  lemma ThreePartsIff(token: string, a: string, b: string, c: string)
    ensures Parts(token) == [a, b, c] <==>
              token == a + "." + b + "." + c && '.' !in a && '.' !in b && '.' !in c
  {
    if Parts(token) == [a, b, c] {
      ThreePartsJoin(token, a, b, c);
    }
    if token == a + "." + b + "." + c && '.' !in a && '.' !in b && '.' !in c {
      ThreePartsOf(a, b, c);
    }
  }

  // ---------------------------------------------------------------------
  // Signing and verifying
  // ---------------------------------------------------------------------

  function EncodedHeader(codec: Codec): string {
    Encode(codec.write(codec.header))
  }

  function HmacSign(codec: Codec, input: string, secret: string): string {
    Encode(codec.mac(input, secret))
  }

  /** Whole seconds since the epoch, rounded down. */
  function Seconds(nowMs: int): real {
    (nowMs / 1000) as real
  }

  function ExpiryOf(nowMs: int, expiresInSec: Option<real>): real {
    Seconds(nowMs) + if expiresInSec.Some? then expiresInSec.value else DEFAULT_EXPIRY_SEC
  }

  /** The payload with its three registered claims; a token id the caller gave is kept. */
  function FullPayload(
    payload: map<string, Json>, nowMs: int, expiresInSec: Option<real>, freshId: string): map<string, Json>
  {
    var jti := if "jti" in payload && payload["jti"] != Null then payload["jti"] else Text(freshId);
    payload["iat" := Number(Seconds(nowMs))]["exp" := Number(ExpiryOf(nowMs, expiresInSec))]["jti" := jti]
  }

  function SigningInput(codec: Codec, payload: Json): string {
    EncodedHeader(codec) + "." + Encode(codec.write(payload))
  }

  function Sign(
    codec: Codec, payload: map<string, Json>, secret: string, nowMs: int, expiresInSec: Option<real>, freshId: string)
    : string
  {
    var input := SigningInput(codec, Object(FullPayload(payload, nowMs, expiresInSec, freshId)));
    input + "." + HmacSign(codec, input, secret)
  }

  /** The code rejects a token only once its expiry lies in the past. */
  predicate Expired(payload: Json, now: real) {
    payload.Object? && "exp" in payload.fields && payload.fields["exp"].Number? &&
    payload.fields["exp"].value < now
  }

  function Verify(codec: Codec, token: string, secret: string, ignoreExpiration: bool, now: real): Verdict {
    if token == "" then Invalid
    else
      var parts := Parts(token);
      if |parts| != 3 then Invalid
      else if parts[0] != EncodedHeader(codec) then Invalid
      else if parts[2] != HmacSign(codec, parts[0] + "." + parts[1], secret) then Invalid
      else
        match codec.read(Decode(parts[1]))
        case None => Invalid
        // Reading a property of null throws outside the guarded block; unread, null means "not valid".
        case Some(Null) => if ignoreExpiration then Invalid else Throws
        case Some(payload) => if !ignoreExpiration && Expired(payload, now) then Invalid else Valid(payload)
  }

  /** The token that carries the encoded payload `e`. */
  function TokenFor(codec: Codec, e: string, secret: string): string {
    var input := EncodedHeader(codec) + "." + e;
    input + "." + HmacSign(codec, input, secret)
  }

  /** A properly signed token whose payload text reads as `v`. */
  ghost predicate Carries(codec: Codec, token: string, secret: string, v: Json) {
    exists e :: '.' !in e && token == TokenFor(codec, e, secret) && codec.read(Decode(e)) == Some(v)
  }

  lemma TokenParts(codec: Codec, e: string, secret: string)
    requires '.' !in e
    ensures Parts(TokenFor(codec, e, secret)) ==
              [EncodedHeader(codec), e, HmacSign(codec, EncodedHeader(codec) + "." + e, secret)]
  {
    OnlyUrlChars(codec.write(codec.header));
    OnlyUrlChars(codec.mac(EncodedHeader(codec) + "." + e, secret));
    ThreePartsOf(EncodedHeader(codec), e, HmacSign(codec, EncodedHeader(codec) + "." + e, secret));
  }

  /** What verification says of a properly signed token. */
  lemma VerifyToken(codec: Codec, e: string, secret: string, ignoreExpiration: bool, now: real)
    requires '.' !in e
    ensures Verify(codec, TokenFor(codec, e, secret), secret, ignoreExpiration, now) ==
              match codec.read(Decode(e))
              case None => Invalid
              case Some(v) =>
                if v == Null then (if ignoreExpiration then Invalid else Throws)
                else if !ignoreExpiration && Expired(v, now) then Invalid
                else Valid(v)
  {
    TokenParts(codec, e, secret);
    assert |TokenFor(codec, e, secret)| > 0;
  }

  /** Whatever is not rejected is a properly signed token. */
  lemma NotInvalidIsToken(codec: Codec, token: string, secret: string, ignoreExpiration: bool, now: real)
    returns (e: string)
    requires Verify(codec, token, secret, ignoreExpiration, now) != Invalid
    ensures '.' !in e && token == TokenFor(codec, e, secret)
  {
    var parts := Parts(token);
    e := parts[1];
    assert parts == [parts[0], e, parts[2]];
    ThreePartsIff(token, parts[0], e, parts[2]);
  }

  /**
   * A token is accepted with payload `v` exactly if it is the properly signed token of some payload
   * text that reads as `v`, and `v` is not null and has not expired before `now`.
   */
  lemma AcceptedIff(codec: Codec, token: string, secret: string, ignoreExpiration: bool, now: real, v: Json)
    ensures Verify(codec, token, secret, ignoreExpiration, now) == Valid(v) <==>
              Carries(codec, token, secret, v) && v != Null && (ignoreExpiration || !Expired(v, now))
  {
    if Verify(codec, token, secret, ignoreExpiration, now) == Valid(v) {
      var e := NotInvalidIsToken(codec, token, secret, ignoreExpiration, now);
      VerifyToken(codec, e, secret, ignoreExpiration, now);
    }
    if Carries(codec, token, secret, v) {
      var e :| '.' !in e && token == TokenFor(codec, e, secret) && codec.read(Decode(e)) == Some(v);
      VerifyToken(codec, e, secret, ignoreExpiration, now);
    }
  }

  /** Verification throws on exactly one kind of token: a properly signed one whose payload is null. */
  lemma ThrowsIff(codec: Codec, token: string, secret: string, ignoreExpiration: bool, now: real)
    ensures Verify(codec, token, secret, ignoreExpiration, now) == Throws <==>
              Carries(codec, token, secret, Null) && !ignoreExpiration
  {
    if Verify(codec, token, secret, ignoreExpiration, now) == Throws {
      var e := NotInvalidIsToken(codec, token, secret, ignoreExpiration, now);
      VerifyToken(codec, e, secret, ignoreExpiration, now);
    }
    if Carries(codec, token, secret, Null) {
      var e :| '.' !in e && token == TokenFor(codec, e, secret) && codec.read(Decode(e)) == Some(Null);
      VerifyToken(codec, e, secret, ignoreExpiration, now);
    }
  }

  /** The claims of the caller survive, but for the time stamps, which are always set afresh. */
  lemma ClaimsAreKept(
    payload: map<string, Json>, nowMs: int, expiresInSec: Option<real>, freshId: string, claim: string)
    ensures var full := FullPayload(payload, nowMs, expiresInSec, freshId);
            full.Keys == payload.Keys + {"iat", "exp", "jti"} &&
            (claim in payload && claim != "iat" && claim != "exp" && (claim != "jti" || payload[claim] != Null) ==>
               full[claim] == payload[claim]) &&
            full["jti"] != Null
  {
  }

  lemma ExpiresLate(payload: map<string, Json>, nowMs: int, expiresInSec: Option<real>, freshId: string, now: real)
    ensures Expired(Object(FullPayload(payload, nowMs, expiresInSec, freshId)), now) <==>
              ExpiryOf(nowMs, expiresInSec) < now
  {
    assert "exp" != "jti";
  }

  /**
   * A signed token verifies under the same secret and gives the full payload back, up to and
   * including the second it expires, and never later.
   */
  lemma SignThenVerify(
    codec: Codec, payload: map<string, Json>, secret: string, nowMs: int, expiresInSec: Option<real>,
    freshId: string, ignoreExpiration: bool, now: real)
    requires var full := Object(FullPayload(payload, nowMs, expiresInSec, freshId));
             codec.read(codec.write(full)) == Some(full)
    ensures var full := Object(FullPayload(payload, nowMs, expiresInSec, freshId));
            Verify(codec, Sign(codec, payload, secret, nowMs, expiresInSec, freshId), secret, ignoreExpiration, now) ==
              if ignoreExpiration || now <= ExpiryOf(nowMs, expiresInSec) then Valid(full) else Invalid
  {
    var full := Object(FullPayload(payload, nowMs, expiresInSec, freshId));
    var e := Encode(codec.write(full));
    RoundTrip(codec.write(full));
    OnlyUrlChars(codec.write(full));
    VerifyToken(codec, e, secret, ignoreExpiration, now);
    ExpiresLate(payload, nowMs, expiresInSec, freshId, now);
    assert Sign(codec, payload, secret, nowMs, expiresInSec, freshId) == TokenFor(codec, e, secret);
  }

  /** Under another secret it verifies exactly if both secrets give the signed text the same code, and in time. */
  lemma OtherSecretIff(
    codec: Codec, payload: map<string, Json>, secret: string, other: string, nowMs: int,
    expiresInSec: Option<real>, freshId: string, ignoreExpiration: bool, now: real)
    requires var full := Object(FullPayload(payload, nowMs, expiresInSec, freshId));
             codec.read(codec.write(full)) == Some(full)
    ensures var input := SigningInput(codec, Object(FullPayload(payload, nowMs, expiresInSec, freshId)));
            var token := Sign(codec, payload, secret, nowMs, expiresInSec, freshId);
            Verify(codec, token, other, ignoreExpiration, now).Valid? <==>
              codec.mac(input, secret) == codec.mac(input, other) &&
              (ignoreExpiration || now <= ExpiryOf(nowMs, expiresInSec))
  {
    var full := Object(FullPayload(payload, nowMs, expiresInSec, freshId));
    var input := SigningInput(codec, full);
    if codec.mac(input, secret) == codec.mac(input, other) {
      SignThenVerify(codec, payload, other, nowMs, expiresInSec, freshId, ignoreExpiration, now);
    } else {
      OtherCodeIsInvalid(codec, full, secret, other, ignoreExpiration, now);
    }
  }

  lemma OtherCodeIsInvalid(
    codec: Codec, payload: Json, secret: string, other: string, ignoreExpiration: bool, now: real)
    requires codec.mac(SigningInput(codec, payload), secret) != codec.mac(SigningInput(codec, payload), other)
    ensures var token := TokenFor(codec, Encode(codec.write(payload)), secret);
            Verify(codec, token, other, ignoreExpiration, now) == Invalid
  {
    OnlyUrlChars(codec.write(payload));
    TokenParts(codec, Encode(codec.write(payload)), secret);
    RoundTrip(codec.mac(SigningInput(codec, payload), secret));
    RoundTrip(codec.mac(SigningInput(codec, payload), other));
  }

  /** Such a token: any codec that reads back the null it writes throws on its properly signed text. */
  lemma NullPayloadThrows(codec: Codec, secret: string, now: real)
    requires codec.read(codec.write(Null)) == Some(Null)
    ensures Verify(codec, TokenFor(codec, Encode(codec.write(Null)), secret), secret, false, now) == Throws
  {
    RoundTrip(codec.write(Null));
    OnlyUrlChars(codec.write(Null));
    VerifyToken(codec, Encode(codec.write(Null)), secret, false, now);
  }
}
