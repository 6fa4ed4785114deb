/**
 Signed caller contexts: the builder, the signer and the verifier. The MAC is an arbitrary function
 with 32-byte tags; the clock and the nonce are parameters. Clock readings are nanoseconds relative
 to the Unix epoch and may lie before it.
 */
module CallerContext {
  import opened MachineInt
  import opened Wrappers
  import opened ContextJson
  import Base64Url

  type byte = Base64Url.byte

  type SigningKey = k: seq<byte> | |k| == 32 witness seq(32, _ => 0)

  type Tag = t: seq<byte> | |t| == 32 witness seq(32, _ => 0)

  /** `hmac_sha256` as the source uses it: message text and key to tag. */
  type Mac = (string, SigningKey) -> Tag

  const SIGNATURE_DOMAIN: string := "sdkwork-rpc-caller-context/v1\\n"
  const CONTEXT_VERSION: nat := 1
  const MAX_TTL_SECONDS: nat := 300
  const MAX_CLOCK_SKEW_SECONDS: nat := 30
  const MAX_METADATA_BYTES: nat := 4096

  // ---- Identifiers ----

  predicate IdentifierChar(c: char) {
    'a' <= c <= 'z' || 'A' <= c <= 'Z' || '0' <= c <= '9' || c == '-' || c == '_' || c == '.' || c == ':'
  }

  predicate ValidIdentifier(s: string) {
    1 <= |s| <= 128 && forall i :: 0 <= i < |s| ==> IdentifierChar(s[i])
  }

  predicate ValidOptional(s: Option<string>) {
    s.Some? ==> ValidIdentifier(s.value)
  }

  /** One to 128 characters, each a letter, a digit or one of hyphen, full stop, colon and underscore. */
  lemma {:induction false} IdentifierIsValidIff(s: string)
    ensures ValidIdentifier(s)
            <==> && s != "" && |s| <= 128
                 && forall i :: 0 <= i < |s| ==>
                      || 48 <= s[i] as int <= 57 || 65 <= s[i] as int <= 90 || 97 <= s[i] as int <= 122
                      || s[i] as int == 45 || s[i] as int == 46 || s[i] as int == 58 || s[i] as int == 95
  {
  }

  lemma {:induction false} IdentifierIsPlain(s: string)
    requires ValidIdentifier(s)
    ensures Plain(s) && Short(s)
  {
  }

  // ---- Builder ----

  datatype Context = Context(
    tenantId: string,
    organizationId: string,
    actorId: string,
    actorKind: ActorKind,
    sessionId: Option<string>,
    requestId: string,
    traceId: Option<string>,
    idempotencyKey: Option<string>,
    audienceServiceId: string)

  datatype Builder = Builder(
    tenantId: Option<string>,
    organizationId: Option<string>,
    actorId: Option<string>,
    actorKind: Option<ActorKind>,
    sessionId: Option<string>,
    requestId: Option<string>,
    traceId: Option<string>,
    idempotencyKey: Option<string>,
    audienceServiceId: Option<string>)

  datatype Error =
    | FieldMissing | BadIdentifier | ActorKindMissing | SessionMissing
    | BadTtl | ClockOutOfRange | ExpiryOverflow
    | TooLarge | NotBase64 | BadSchema | BadVersion | WrongAudience | PeerMismatch | UntrustedIssuer
    | BadSignature | IssuedInFuture | Expired | IdempotencyMismatch

  function RequiredIdentifier(s: Option<string>): Result<string, Error> {
    match s
    case None => Err(FieldMissing)
    case Some(text) => if ValidIdentifier(text) then Ok(text) else Err(BadIdentifier)
  }

  function OptionalIdentifier(s: Option<string>): Result<Option<string>, Error> {
    if ValidOptional(s) then Ok(s) else Err(BadIdentifier)
  }

  function Build(b: Builder): Result<Context, Error> {
    var tenantId :- RequiredIdentifier(b.tenantId);
    var organizationId :- RequiredIdentifier(b.organizationId);
    var actorId :- RequiredIdentifier(b.actorId);
    var actorKind :- if b.actorKind.Some? then Ok(b.actorKind.value) else Err(ActorKindMissing);
    var requestId :- RequiredIdentifier(b.requestId);
    var audience :- RequiredIdentifier(b.audienceServiceId);
    var sessionId :- OptionalIdentifier(b.sessionId);
    var traceId :- OptionalIdentifier(b.traceId);
    var idempotencyKey :- OptionalIdentifier(b.idempotencyKey);
    if actorKind == User && sessionId == None then Err(SessionMissing)
    else Ok(Context(tenantId, organizationId, actorId, actorKind, sessionId, requestId, traceId, idempotencyKey, audience))
  }

  /** What the builder guarantees. */
  predicate ValidContext(c: Context) {
    && ValidIdentifier(c.tenantId) && ValidIdentifier(c.organizationId) && ValidIdentifier(c.actorId)
    && ValidIdentifier(c.requestId) && ValidIdentifier(c.audienceServiceId)
    && ValidOptional(c.sessionId) && ValidOptional(c.traceId) && ValidOptional(c.idempotencyKey)
    && (c.actorKind == User ==> c.sessionId.Some?)
  }

  /** The builder makes exactly the valid contexts: it checks everything it is given and drops nothing. */
  lemma BuildExactly(b: Builder, c: Context)
    ensures Build(b) == Ok(c)
            <==> ValidContext(c)
                 && b == Builder(Some(c.tenantId), Some(c.organizationId), Some(c.actorId), Some(c.actorKind),
                                 c.sessionId, Some(c.requestId), c.traceId, c.idempotencyKey, Some(c.audienceServiceId))
  {
  }

  // ---- Clock ----

  function UnixSeconds(now: int): Result<nat, Error> {
    if now < 0 then Err(ClockOutOfRange)
    else if now / NANOS_PER_SECOND > I64_MAX then Err(ClockOutOfRange)
    else Ok(now / NANOS_PER_SECOND)
  }

  // ---- Signer ----

  datatype Signer = Signer(issuerServiceId: string, signingKey: SigningKey) {
    predicate Valid() {
      ValidIdentifier(issuerServiceId)
    }
  }

  datatype Signed = Signed(encodedContext: string, signature: string)

  /** UTF-8 of a text. */
  function Utf8Char(c: char): seq<byte> {
    var n := c as int;
    if n < 0x80 then [n]
    else if n < 0x800 then [0xC0 + n / 0x40, 0x80 + n % 0x40]
    else if n < 0x10000 then [0xE0 + n / 0x1000, 0x80 + n / 0x40 % 0x40, 0x80 + n % 0x40]
    else [0xF0 + n / 0x40000, 0x80 + n / 0x1000 % 0x40, 0x80 + n / 0x40 % 0x40, 0x80 + n % 0x40]
  }

  /** The code point that a sequence of bytes carries, six bits in each byte after the first. */
  function CodePoint(u: seq<byte>): int
    requires 1 <= |u| <= 4
  {
    if |u| == 1 then u[0] as int
    else if |u| == 2 then (u[0] as int - 192) * 64 + (u[1] as int - 128)
    else if |u| == 3 then (u[0] as int - 224) * 4096 + (u[1] as int - 128) * 64 + (u[2] as int - 128)
    else (u[0] as int - 240) * 262144 + (u[1] as int - 128) * 4096 + (u[2] as int - 128) * 64 + (u[3] as int - 128)
  }

  lemma {:induction false} SixBits(n: nat)
    ensures n == n / 64 * 64 + n % 64
    ensures n / 64 / 64 == n / 4096 && n / 4096 / 64 == n / 262144
  {
  }

  /** A character is carried by its bytes, in the shortest form. */
  lemma Utf8CharCarries(c: char)
    ensures var n, u := c as int, Utf8Char(c);
            && |u| == (if n < 128 then 1 else if n < 2048 then 2 else if n < 65536 then 3 else 4)
            && (forall i :: 1 <= i < |u| ==> 128 <= u[i] < 192)
            && CodePoint(u) == n
  {
    var n := c as int;
    SixBits(n);
    SixBits(n / 64);
    SixBits(n / 4096);
  }

  function Utf8(s: string): seq<byte> {
    if s == [] then [] else Utf8Char(s[0]) + Utf8(s[1..])
  }

  /** Text of ASCII bytes; text beyond ASCII could not pass the field checks and is refused here already. */
  function AsciiText(data: seq<byte>): Option<string> {
    if forall i :: 0 <= i < |data| ==> data[i] < 0x80
    then Some(seq(|data|, i requires 0 <= i < |data| => data[i] as char))
    else None
  }

  function PayloadOf(signer: Signer, c: Context, issuedAt: int, expiresAt: int, nonce: string): Payload {
    Payload(CONTEXT_VERSION, signer.issuerServiceId, c.audienceServiceId, c.tenantId, c.organizationId, c.actorId,
            c.actorKind, c.sessionId, c.requestId, c.traceId, c.idempotencyKey, issuedAt, expiresAt, nonce)
  }

  function EncodePayload(p: Payload): string {
    Base64Url.Encode(Utf8(Serialize(p)))
  }

  function Signature(mac: Mac, encoded: string, key: SigningKey): string {
    Base64Url.Encode(mac(SIGNATURE_DOMAIN + encoded, key))
  }

  /** `ttl` in nanoseconds. */
  function SignAt(mac: Mac, signer: Signer, c: Context, ttl: Duration, now: int, nonce: string): Result<Signed, Error> {
    if ttl == 0 || ttl > MAX_TTL_SECONDS * NANOS_PER_SECOND then Err(BadTtl)
    else
      var issuedAt :- UnixSeconds(now);
      var expiresAt := issuedAt + ttl / NANOS_PER_SECOND;
      if expiresAt > I64_MAX then Err(ExpiryOverflow)
      else
        var encoded := EncodePayload(PayloadOf(signer, c, issuedAt, expiresAt, nonce));
        Ok(Signed(encoded, Signature(mac, encoded, signer.signingKey)))
  }

  // ---- Verifier ----

  datatype Verifier = Verifier(audienceServiceId: string, issuerKeys: map<string, SigningKey>)

  datatype Verified = Verified(context: Context, issuerServiceId: string, issuedAt: int, expiresAt: int, nonce: string)

  predicate ValidPayloadFields(p: Payload) {
    && ValidIdentifier(p.issuerServiceId) && ValidIdentifier(p.audienceServiceId) && ValidIdentifier(p.tenantId)
    && ValidIdentifier(p.organizationId) && ValidIdentifier(p.actorId) && ValidIdentifier(p.requestId)
    && ValidIdentifier(p.nonce)
  }

  function ValidatePayload(p: Payload): Result<(), Error> {
    if p.version != CONTEXT_VERSION then Err(BadVersion)
    else if !ValidPayloadFields(p) then Err(BadIdentifier)
    else if p.actorKind == User && p.sessionId == None then Err(SessionMissing)
    else if !(ValidOptional(p.sessionId) && ValidOptional(p.traceId) && ValidOptional(p.idempotencyKey)) then Err(BadIdentifier)
    else
      var ttl := p.expiresAt - p.issuedAt;
      if !(I64_MIN <= ttl <= I64_MAX) || ttl <= 0 || ttl > MAX_TTL_SECONDS then Err(BadTtl) else Ok(())
  }

  function SaturatingI64(n: int): int {
    if n > I64_MAX then I64_MAX else if n < I64_MIN then I64_MIN else n
  }

  function ValidateTimeWindow(p: Payload, now: int): Result<(), Error> {
    var seconds :- UnixSeconds(now);
    if p.issuedAt > SaturatingI64(seconds + MAX_CLOCK_SKEW_SECONDS) then Err(IssuedInFuture)
    else if p.expiresAt < SaturatingI64(seconds - MAX_CLOCK_SKEW_SECONDS) then Err(Expired)
    else Ok(())
  }

  function ValidateIdempotency(p: Payload, metadataKey: Option<string>): Result<(), Error> {
    match (p.idempotencyKey, metadataKey)
    case (Some(expected), Some(actual)) => if expected == actual then Ok(()) else Err(IdempotencyMismatch)
    case (None, None) => Ok(())
    case _ => Err(IdempotencyMismatch)
  }

  /** A JSON reader for payloads. */
  type Reader = seq<byte> -> Option<Payload>

  /** The reader for compact objects of unescaped ASCII text. */
  function ReadCompact(data: seq<byte>): Option<Payload> {
    match AsciiText(data)
    case None => None
    case Some(text) => Deserialize(text)
  }

  function DecodePayload(read: Reader, encoded: string): Result<Payload, Error> {
    match Base64Url.Decode(encoded)
    case None => Err(NotBase64)
    case Some(data) =>
      match read(data)
      case None => Err(BadSchema)
      case Some(p) => Ok(p)
  }

  /** The checks after decoding, in the order of the source. */
  function VerifyPayload(mac: Mac, verifier: Verifier, signed: Signed, p: Payload, peer: string,
                         metadataKey: Option<string>, now: int): Result<Verified, Error>
  {
    var _ :- ValidatePayload(p);
    if p.audienceServiceId != verifier.audienceServiceId then Err(WrongAudience)
    else if p.issuerServiceId != peer then Err(PeerMismatch)
    else if p.issuerServiceId !in verifier.issuerKeys then Err(UntrustedIssuer)
    else
      var tag :- SignatureTag(signed);
      if mac(SIGNATURE_DOMAIN + signed.encodedContext, verifier.issuerKeys[p.issuerServiceId]) != tag then Err(BadSignature)
      else
        var _ :- ValidateTimeWindow(p, now);
        var _ :- ValidateIdempotency(p, metadataKey);
        var context := Context(p.tenantId, p.organizationId, p.actorId, p.actorKind, p.sessionId, p.requestId,
                               p.traceId, p.idempotencyKey, p.audienceServiceId);
        Ok(Verified(context, p.issuerServiceId, p.issuedAt, p.expiresAt, p.nonce))
  }

  function SignatureTag(signed: Signed): Result<seq<byte>, Error> {
    match Base64Url.Decode(signed.signature)
    case None => Err(NotBase64)
    case Some(tag) => Ok(tag)
  }

  /** Verification with the given JSON reader. */
  function VerifyWith(read: Reader, mac: Mac, verifier: Verifier, signed: Signed, peer: string,
                      metadataKey: Option<string>, now: int): Result<Verified, Error>
  {
    if |signed.encodedContext| > MAX_METADATA_BYTES || |signed.signature| > MAX_METADATA_BYTES then Err(TooLarge)
    else
      var p :- DecodePayload(read, signed.encodedContext);
      VerifyPayload(mac, verifier, signed, p, peer, metadataKey, now)
  }

  function Verify(mac: Mac, verifier: Verifier, signed: Signed, peer: string,
                  metadataKey: Option<string>, now: int): Result<Verified, Error>
  {
    VerifyWith(ReadCompact, mac, verifier, signed, peer, metadataKey, now)
  }

  // ---- Encoding ----

  lemma {:induction false} Utf8OfAscii(s: string)
    requires Ascii(s)
    ensures |Utf8(s)| == |s| && forall i :: 0 <= i < |s| ==> Utf8(s)[i] == s[i] as int
    decreases |s|
  {
    if s != [] {
      Utf8OfAscii(s[1..]);
    }
  }

  lemma {:induction false} AsciiRoundTrip(s: string)
    requires Ascii(s)
    ensures AsciiText(Utf8(s)) == Some(s)
  {
    Utf8OfAscii(s);
    assert AsciiText(Utf8(s)).Some?;
    assert AsciiText(Utf8(s)).value == s;
  }

  /** Simple UUID text: 32 lower-case hexadecimal digits. */
  predicate UuidSimple(s: string) {
    |s| == 32 && forall i :: 0 <= i < |s| ==> '0' <= s[i] <= '9' || 'a' <= s[i] <= 'f'
  }

  /** Payloads the signer builds from valid parts. */
  predicate Issued(p: Payload) {
    && p.version == CONTEXT_VERSION && ValidPayloadFields(p)
    && ValidOptional(p.sessionId) && ValidOptional(p.traceId) && ValidOptional(p.idempotencyKey)
    && (p.actorKind == User ==> p.sessionId.Some?)
    && 0 <= p.issuedAt <= p.expiresAt <= I64_MAX
  }

  lemma IssuedIsPrintable(p: Payload)
    requires Issued(p)
    ensures Printable(p) && ShortFields(p)
  {
    hide ValidIdentifier, Plain, Short;
    IdentifierIsPlain(p.issuerServiceId);
    IdentifierIsPlain(p.audienceServiceId);
    IdentifierIsPlain(p.tenantId);
    IdentifierIsPlain(p.organizationId);
    IdentifierIsPlain(p.actorId);
    IdentifierIsPlain(p.requestId);
    IdentifierIsPlain(p.nonce);
    if p.sessionId.Some? {
      IdentifierIsPlain(p.sessionId.value);
    }
    if p.traceId.Some? {
      IdentifierIsPlain(p.traceId.value);
    }
    if p.idempotencyKey.Some? {
      IdentifierIsPlain(p.idempotencyKey.value);
    }
  }

  /** Decoding what the signer encoded gives the payload back. */
  lemma DecodeEncode(p: Payload)
    requires Issued(p)
    ensures DecodePayload(ReadCompact, EncodePayload(p)) == Ok(p)
  {
    hide Issued, Serialize, Deserialize, Utf8, AsciiText, Base64Url.Encode, Base64Url.Decode;
    IssuedIsPrintable(p);
    SerializedIsAscii(p);
    AsciiRoundTrip(Serialize(p));
    Base64Url.RoundTrip(Utf8(Serialize(p)));
    DeserializeSerialize(p);
  }

  /** One encoded text, and so one signature input, never stands for two payloads. */
  lemma EncodingIsUnambiguous(p: Payload, q: Payload)
    requires Issued(p) && Issued(q) && EncodePayload(p) == EncodePayload(q)
    ensures p == q
  {
    DecodeEncode(p);
    DecodeEncode(q);
  }

  /** Every issued payload stays well under the size limit of the verifier. */
  lemma EncodedSize(p: Payload)
    requires Issued(p)
    ensures |EncodePayload(p)| <= 2878 < MAX_METADATA_BYTES
  {
    hide Issued, Serialize, Utf8, Base64Url.Encode;
    IssuedIsPrintable(p);
    SerializedIsAscii(p);
    Utf8OfAscii(Serialize(p));
    SerializedLength(p);
    Base64Url.EncodedLength(Utf8(Serialize(p)));
  }

  // ---- Signing and verifying ----

  lemma {:induction false} SignSucceedsIff(mac: Mac, signer: Signer, c: Context, ttl: Duration, now: int, nonce: string)
    ensures SignAt(mac, signer, c, ttl, now, nonce).Ok?
            <==> 0 < ttl <= 300_000_000_000 && now >= 0
                 && now / 1_000_000_000 + ttl / 1_000_000_000 <= 0x7FFF_FFFF_FFFF_FFFF
  {
  }

  /** The payload behind a signature of valid parts. */
  lemma {:induction false} SignedPayload(mac: Mac, signer: Signer, c: Context, ttl: Duration, now: int, nonce: string)
    returns (p: Payload)
    requires signer.Valid() && ValidContext(c) && UuidSimple(nonce)
    requires SignAt(mac, signer, c, ttl, now, nonce).Ok?
    ensures Issued(p) && UnixSeconds(now).Ok?
    ensures var issuedAt := UnixSeconds(now).value;
            p == PayloadOf(signer, c, issuedAt, issuedAt + ttl / NANOS_PER_SECOND, nonce)
    ensures var signed := SignAt(mac, signer, c, ttl, now, nonce).value;
            signed == Signed(EncodePayload(p), Signature(mac, EncodePayload(p), signer.signingKey))
  {
    hide EncodePayload, Signature;
    var issuedAt := UnixSeconds(now).value;
    p := PayloadOf(signer, c, issuedAt, issuedAt + ttl / NANOS_PER_SECOND, nonce);
    assert ValidIdentifier(nonce);
  }

  /**
   Size bound: for every context the builder accepts and every accepted issuer, what the signer
   produces is below the limit the verifier enforces, for the context and for the signature.
   */
  lemma {:induction false} SignedFitsMetadata(mac: Mac, signer: Signer, b: Builder, c: Context, ttl: Duration, now: int, nonce: string,
                           signed: Signed)
    requires signer.Valid() && Build(b) == Ok(c) && UuidSimple(nonce)
    requires SignAt(mac, signer, c, ttl, now, nonce) == Ok(signed)
    ensures |signed.encodedContext| < MAX_METADATA_BYTES && |signed.signature| == 43
  {
    BuildExactly(b, c);
    var p := SignedPayload(mac, signer, c, ttl, now, nonce);
    hide Build, SignAt, EncodePayload, Issued, ValidContext, UuidSimple, Base64Url.Encode;
    EncodedSize(p);
    Base64Url.EncodedLength(mac(SIGNATURE_DOMAIN + EncodePayload(p), signer.signingKey));
  }

  /** A verifier for the audience that trusts the signer's key. */
  predicate Trusts(verifier: Verifier, signer: Signer, c: Context) {
    && verifier.audienceServiceId == c.audienceServiceId
    && signer.issuerServiceId in verifier.issuerKeys
    && verifier.issuerKeys[signer.issuerServiceId] == signer.signingKey
  }

  predicate InWindow(p: Payload, now: int) {
    && UnixSeconds(now).Ok?
    && p.issuedAt - MAX_CLOCK_SKEW_SECONDS <= UnixSeconds(now).value <= p.expiresAt + MAX_CLOCK_SKEW_SECONDS
  }

  /** Saturating at the ends of `i64` never changes the time-window answer. */
  lemma WindowExact(p: Payload, now: int)
    requires I64_MIN <= p.issuedAt <= I64_MAX && I64_MIN <= p.expiresAt <= I64_MAX
    ensures ValidateTimeWindow(p, now).Ok? <==> InWindow(p, now)
  {
  }

  lemma PayloadAccepted(mac: Mac, verifier: Verifier, signer: Signer, c: Context, p: Payload, now: int)
    requires Issued(p) && Trusts(verifier, signer, c)
    requires p == PayloadOf(signer, c, p.issuedAt, p.expiresAt, p.nonce)
    ensures var signed := Signed(EncodePayload(p), Signature(mac, EncodePayload(p), signer.signingKey));
            var result := VerifyPayload(mac, verifier, signed, p, signer.issuerServiceId, c.idempotencyKey, now);
            && (result.Ok? <==> 0 < p.expiresAt - p.issuedAt <= MAX_TTL_SECONDS && InWindow(p, now))
            && (result.Ok? ==> result.value == Verified(c, signer.issuerServiceId, p.issuedAt, p.expiresAt, p.nonce))
  {
    var encoded := EncodePayload(p);
    Base64Url.RoundTrip(mac(SIGNATURE_DOMAIN + encoded, signer.signingKey));
    WindowExact(p, now);
    hide ValidateTimeWindow, InWindow, EncodePayload, ValidIdentifier, Base64Url.Encode, Base64Url.Decode;
    assert ValidatePayload(p).Ok? <==> 0 < p.expiresAt - p.issuedAt <= MAX_TTL_SECONDS;
    assert ValidateIdempotency(p, c.idempotencyKey).Ok?;
  }

  /**
   Sign/verify round trip with its exact window: a builder-made context, signed with an accepted
   lifetime, verifies for the matching audience, peer, key and idempotency metadata exactly when
   the lifetime has at least one whole second and the clock, in whole seconds, lies between 30
   seconds before issue and 30 seconds after expiry. It then yields the same fields. A lifetime
   below one second can be signed but never verifies.
   */
  lemma {:induction false} SignVerifyRoundTrip(mac: Mac, signer: Signer, verifier: Verifier, b: Builder, c: Context,
                            ttl: Duration, signedAt: int, nonce: string, signed: Signed, now: int)
    requires signer.Valid() && Build(b) == Ok(c) && UuidSimple(nonce) && Trusts(verifier, signer, c)
    requires SignAt(mac, signer, c, ttl, signedAt, nonce) == Ok(signed)
    ensures var issued := signedAt / NANOS_PER_SECOND;
            var expires := issued + ttl / NANOS_PER_SECOND;
            var result := Verify(mac, verifier, signed, signer.issuerServiceId, c.idempotencyKey, now);
            && (result.Ok? <==>
                  && ttl >= NANOS_PER_SECOND
                  && 0 <= now && now / NANOS_PER_SECOND <= I64_MAX
                  && issued - 30 <= now / NANOS_PER_SECOND <= expires + 30)
            && (result.Ok? ==> result.value == Verified(c, signer.issuerServiceId, issued, expires, nonce))
  {
    hide Build, SignAt, Verify, DecodePayload, VerifyPayload, EncodePayload, Signature;
    hide Issued, ValidContext, Trusts, UuidSimple, ReadCompact;
    BuildExactly(b, c);
    var p := SignedPayload(mac, signer, c, ttl, signedAt, nonce);
    SignedFitsMetadata(mac, signer, b, c, ttl, signedAt, nonce, signed);
    SignSucceedsIff(mac, signer, c, ttl, signedAt, nonce);
    DecodeEncode(p);
    PayloadAccepted(mac, verifier, signer, c, p, now);
    LifetimeSeconds(ttl);
    VerifyDecoded(mac, verifier, signed, p, signer.issuerServiceId, c.idempotencyKey, now);
  }

  lemma {:induction false} VerifyDecoded(mac: Mac, verifier: Verifier, signed: Signed, p: Payload, peer: string,
                      metadataKey: Option<string>, now: int)
    requires |signed.encodedContext| < MAX_METADATA_BYTES && |signed.signature| < MAX_METADATA_BYTES
    ensures DecodePayload(ReadCompact, signed.encodedContext) == Ok(p) ==>
              Verify(mac, verifier, signed, peer, metadataKey, now)
              == VerifyPayload(mac, verifier, signed, p, peer, metadataKey, now)
  {
    hide VerifyPayload, DecodePayload;
  }

  lemma {:induction false} LifetimeSeconds(ttl: nat)
    ensures ttl / NANOS_PER_SECOND > 0 <==> ttl >= NANOS_PER_SECOND
    ensures ttl <= MAX_TTL_SECONDS * NANOS_PER_SECOND ==> ttl / NANOS_PER_SECOND <= MAX_TTL_SECONDS
  {
  }

  /**
   Whatever bytes arrive and whatever JSON reader is used, an accepted context carries the tag of exactly the received text under
   the key of the peer's own identity, is addressed to this audience, is within its window and
   repeats the idempotency key of the request.
   */
  lemma {:induction false} AcceptedMeansAuthentic(read: Reader, mac: Mac, verifier: Verifier, signed: Signed, peer: string,
                               metadataKey: Option<string>, now: int)
    ensures var result := VerifyWith(read, mac, verifier, signed, peer, metadataKey, now);
            result.Ok? ==>
              var v := result.value;
              && v.issuerServiceId == peer && peer in verifier.issuerKeys
              && Base64Url.Decode(signed.signature)
                 == Some(mac("sdkwork-rpc-caller-context/v1\\n" + signed.encodedContext, verifier.issuerKeys[peer]))
              && v.context.audienceServiceId == verifier.audienceServiceId
              && v.context.idempotencyKey == metadataKey
              && ValidContext(v.context)
              && 0 < v.expiresAt - v.issuedAt <= 300
              && UnixSeconds(now).Ok?
              && UnixSeconds(now).value == now / 1_000_000_000
              && v.issuedAt - 30 <= now / 1_000_000_000 <= v.expiresAt + 30
  {
    hide ValidIdentifier, DecodePayload, Base64Url.Decode;
  }

  /** What the signer writes and signs, in the fields of the context. */
  lemma {:induction false} SignedExactly(mac: Mac, signer: Signer, c: Context, ttl: Duration, now: int, nonce: string)
    requires SignAt(mac, signer, c, ttl, now, nonce).Ok?
    ensures var signed, issued := SignAt(mac, signer, c, ttl, now, nonce).value, now / 1_000_000_000;
            var payload := Payload(
              1, signer.issuerServiceId, c.audienceServiceId, c.tenantId, c.organizationId, c.actorId, c.actorKind,
              c.sessionId, c.requestId, c.traceId, c.idempotencyKey, issued, issued + ttl / 1_000_000_000, nonce);
            && signed.encodedContext == Base64Url.Encode(Utf8(Serialize(payload)))
            && signed.signature
               == Base64Url.Encode(mac("sdkwork-rpc-caller-context/v1\\n" + signed.encodedContext, signer.signingKey))
  {
    hide Serialize, Utf8, Base64Url.Encode;
  }

  /** The fields of a payload that verification demands to be valid. */
  predicate AcceptableFields(p: Payload) {
    && p.version == 1
    && ValidIdentifier(p.issuerServiceId) && ValidIdentifier(p.audienceServiceId) && ValidIdentifier(p.tenantId)
    && ValidIdentifier(p.organizationId) && ValidIdentifier(p.actorId) && ValidIdentifier(p.requestId)
    && ValidIdentifier(p.nonce)
    && (p.sessionId.Some? ==> ValidIdentifier(p.sessionId.value))
    && (p.traceId.Some? ==> ValidIdentifier(p.traceId.value))
    && (p.idempotencyKey.Some? ==> ValidIdentifier(p.idempotencyKey.value))
    && (p.actorKind == User ==> p.sessionId.Some?)
    && 1 <= p.expiresAt - p.issuedAt <= 300
  }

  lemma AcceptableIff(p: Payload)
    ensures ValidatePayload(p).Ok? <==> AcceptableFields(p)
  {
    hide ValidIdentifier;
  }

  lemma WindowIff(p: Payload, now: int)
    requires p.issuedAt <= I64_MAX
    ensures ValidateTimeWindow(p, now).Ok?
            <==> && 0 <= now && now / 1_000_000_000 <= 0x7FFF_FFFF_FFFF_FFFF
                 && p.issuedAt - 30 <= now / 1_000_000_000 <= p.expiresAt + 30
  {
  }

  /**
   Acceptance, exactly, for any JSON reader of 64-bit timestamps: both texts within 4096 bytes and
   decodable, the payload acceptable, addressed here and issued by the peer, whose key gives the tag,
   the clock within the window widened by 30 seconds, and the idempotency keys equal. The result is
   the payload, field by field.
   */
  lemma {:induction false} VerifyAcceptsIff(read: Reader, mac: Mac, verifier: Verifier, signed: Signed, p: Payload, peer: string,
                         metadataKey: Option<string>, now: int)
    requires p.issuedAt <= I64_MAX
    ensures var result := VerifyWith(read, mac, verifier, signed, peer, metadataKey, now);
            var data := Base64Url.Decode(signed.encodedContext);
            && (data == None || read(data.value) == None ==> result.Err?)
            && (data.Some? && read(data.value) == Some(p) ==>
                  && (result.Ok? <==>
                        && |signed.encodedContext| <= 4096 && |signed.signature| <= 4096
                        && AcceptableFields(p)
                        && p.audienceServiceId == verifier.audienceServiceId && p.issuerServiceId == peer
                        && peer in verifier.issuerKeys
                        && Base64Url.Decode(signed.signature)
                           == Some(mac("sdkwork-rpc-caller-context/v1\\n" + signed.encodedContext, verifier.issuerKeys[peer]))
                        && 0 <= now && now / 1_000_000_000 <= 0x7FFF_FFFF_FFFF_FFFF
                        && p.issuedAt - 30 <= now / 1_000_000_000 <= p.expiresAt + 30
                        && p.idempotencyKey == metadataKey)
                  && (result.Ok? ==>
                        result.value == Verified(
                          Context(p.tenantId, p.organizationId, p.actorId, p.actorKind, p.sessionId, p.requestId,
                                  p.traceId, p.idempotencyKey, p.audienceServiceId),
                          p.issuerServiceId, p.issuedAt, p.expiresAt, p.nonce)))
  {
    AcceptableIff(p);
    WindowIff(p, now);
    hide ValidatePayload, ValidateTimeWindow, AcceptableFields, Base64Url.Decode;
  }
}
