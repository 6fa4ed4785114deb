/**
 The signed caller-context payload as compact JSON: what `serde_json` prints for it, and a reader
 for compact objects of unescaped strings, integers and nulls with the field rules of the payload
 (any order, no unknown or repeated field, absent optional fields read as null).
 */
module ContextJson {
  import opened MachineInt
  import opened Wrappers
  import Decimal

  datatype ActorKind = User | Service

  datatype Payload = Payload(
    version: nat,
    issuerServiceId: string,
    audienceServiceId: string,
    tenantId: string,
    organizationId: string,
    actorId: string,
    actorKind: ActorKind,
    sessionId: Option<string>,
    requestId: string,
    traceId: Option<string>,
    idempotencyKey: Option<string>,
    issuedAt: int,
    expiresAt: int,
    nonce: string)

  // ---- Tokens ----

  datatype Token = Text(text: string) | Number(number: int) | Null

  datatype Member = Member(name: string, value: Token)

  function HexDigit(d: nat): char
    requires d < 16
  {
    if d < 10 then (d + '0' as int) as char else (d - 10 + 'a' as int) as char
  }

  function EscapedChar(c: char): string {
    if c == '"' then "\\\""
    else if c == '\\' then "\\\\"
    else if c == '\n' then "\\n"
    else if c == '\r' then "\\r"
    else if c == '\t' then "\\t"
    else if c as int == 8 then "\\b"
    else if c as int == 12 then "\\f"
    else if c as int < 32 then "\\u00" + [HexDigit(c as int / 16), HexDigit(c as int % 16)]
    else [c]
  }

  function Escaped(s: string): string {
    if s == [] then "" else EscapedChar(s[0]) + Escaped(s[1..])
  }

  /** Text that JSON prints as it is, one byte a character. */
  predicate Plain(s: string) {
    forall i :: 0 <= i < |s| ==> s[i] != '"' && s[i] != '\\' && 32 <= s[i] as int < 127
  }

  predicate Ascii(s: string) {
    forall i :: 0 <= i < |s| ==> s[i] as int < 0x80
  }

  lemma {:induction false} PlainNeedsNoEscape(s: string)
    requires Plain(s)
    ensures Escaped(s) == s
    decreases |s|
  {
    if s != [] {
      PlainNeedsNoEscape(s[1..]);
      assert Escaped(s) == [s[0]] + s[1..];
    }
  }

  function PrintInt(n: int): string {
    if n < 0 then "-" + Decimal.Print(-n) else Decimal.Print(n)
  }

  function PrintToken(t: Token): string {
    match t
    case Text(s) => "\"" + Escaped(s) + "\""
    case Number(n) => PrintInt(n)
    case Null => "null"
  }

  function PrintMember(m: Member): string {
    "\"" + Escaped(m.name) + "\":" + PrintToken(m.value)
  }

  function PrintMembers(members: seq<Member>): string {
    if members == [] then ""
    else if |members| == 1 then PrintMember(members[0])
    else PrintMember(members[0]) + "," + PrintMembers(members[1..])
  }

  function PrintObject(members: seq<Member>): string {
    "{" + PrintMembers(members) + "}"
  }

  // ---- Reader ----

  /** The characters before the first quote, and the text after it; escapes are not read. */
  function ReadToQuote(s: string): (r: Option<(string, string)>)
    ensures r.Some? ==> |r.value.1| < |s|
  {
    if s == [] || s[0] == '\\' || (s[0] as int) < 32 then None
    else if s[0] == '"' then Some(("", s[1..]))
    else
      match ReadToQuote(s[1..])
      case Some((text, rest)) => Some(([s[0]] + text, rest))
      case None => None
  }

  function DigitPrefix(s: string): (n: nat)
    ensures n <= |s| && Decimal.AllDigits(s[..n])
  {
    if s == [] || !Decimal.IsDigit(s[0]) then 0
    else
      var n := 1 + DigitPrefix(s[1..]);
      assert forall i :: 0 < i < n ==> s[..n][i] == s[1..][..n - 1][i - 1];
      n
  }

  /** An unsigned integer without superfluous leading zeros. */
  function ReadNat(s: string): (r: Option<(nat, string)>)
    ensures r.Some? ==> |r.value.1| < |s|
  {
    var n := DigitPrefix(s);
    if n == 0 || (n > 1 && s[0] == '0') then None else Some((Decimal.Value(s[..n]), s[n..]))
  }

  function ReadToken(s: string): (r: Option<(Token, string)>)
    ensures r.Some? ==> |r.value.1| < |s|
  {
    if s == [] then None
    else if s[0] == '"' then
      (match ReadToQuote(s[1..])
       case Some((text, rest)) => Some((Text(text), rest))
       case None => None)
    else if "null" <= s then Some((Null, s[4..]))
    else if s[0] == '-' then
      (match ReadNat(s[1..])
       case Some((n, rest)) => if n == 0 then None else Some((Number(0 - n), rest))
       case None => None)
    else
      match ReadNat(s)
      case Some((n, rest)) => Some((Number(n), rest))
      case None => None
  }

  function ReadMember(s: string): (r: Option<(Member, string)>)
    ensures r.Some? ==> |r.value.1| < |s|
  {
    if s == [] || s[0] != '"' then None
    else
      match ReadToQuote(s[1..])
      case Some((name, rest)) =>
        if rest == [] || rest[0] != ':' then None
        else
          (match ReadToken(rest[1..])
           case Some((value, after)) => Some((Member(name, value), after))
           case None => None)
      case None => None
  }

  function ReadMembers(s: string): Option<seq<Member>>
    decreases |s|
  {
    match ReadMember(s)
    case None => None
    case Some((m, rest)) =>
      if rest == "}" then Some([m])
      else if rest != [] && rest[0] == ',' then
        (match ReadMembers(rest[1..])
         case Some(more) => Some([m] + more)
         case None => None)
      else None
  }

  function ReadObject(s: string): Option<seq<Member>> {
    if s == "{}" then Some([])
    else if s != [] && s[0] == '{' then ReadMembers(s[1..])
    else None
  }

  // ---- The reader undoes the printer ----

  lemma {:induction false} ReadPlain(s: string, rest: string)
    requires Plain(s)
    ensures ReadToQuote(s + "\"" + rest) == Some((s, rest))
    decreases |s|
  {
    var all := s + "\"" + rest;
    if s == [] {
      assert all[1..] == rest;
    } else {
      ReadPlain(s[1..], rest);
      assert all[1..] == s[1..] + "\"" + rest;
      assert [s[0]] + s[1..] == s;
    }
  }

  /** What may follow a value. */
  predicate Delimited(rest: string) {
    rest != [] && (rest[0] == ',' || rest[0] == '}')
  }

  lemma {:induction false} DigitPrefixIs(s: string, rest: string)
    requires Decimal.AllDigits(s) && (rest == [] || !Decimal.IsDigit(rest[0]))
    ensures DigitPrefix(s + rest) == |s|
    decreases |s|
  {
    if s == [] {
      assert s + rest == rest;
    } else {
      DigitPrefixIs(s[1..], rest);
      assert (s + rest)[1..] == s[1..] + rest;
    }
  }

  lemma {:induction false} NoLeadingZero(n: nat)
    ensures |Decimal.Print(n)| > 1 ==> Decimal.Print(n)[0] != '0'
    ensures n > 0 ==> Decimal.Print(n)[0] != '0'
    decreases n
  {
    if n >= 10 {
      NoLeadingZero(n / 10);
    } else {
      assert Decimal.DigitValue(Decimal.Print(n)[0]) == n;
    }
  }

  lemma {:induction false} ReadPrintedNat(n: nat, rest: string)
    requires Delimited(rest)
    ensures ReadNat(Decimal.Print(n) + rest) == Some((n, rest))
  {
    var digits := Decimal.Print(n);
    DigitPrefixIs(digits, rest);
    NoLeadingZero(n);
    Decimal.ValueOfPrint(n);
    assert (digits + rest)[..|digits|] == digits && (digits + rest)[|digits|..] == rest;
  }

  predicate PlainToken(t: Token) {
    t.Text? ==> Plain(t.text)
  }

  lemma {:induction false} ReadPrintedText(text: string, rest: string)
    requires Plain(text)
    ensures ReadToken(PrintToken(Text(text)) + rest) == Some((Text(text), rest))
  {
    var all := PrintToken(Text(text)) + rest;
    PlainNeedsNoEscape(text);
    ReadPlain(text, rest);
    assert all[1..] == text + "\"" + rest;
  }

  lemma {:induction false} ReadPrintedNull(rest: string)
    ensures ReadToken(PrintToken(Null) + rest) == Some((Null, rest))
  {
    var all := PrintToken(Null) + rest;
    assert all[0] == 'n' && all[..4] == "null" && all[4..] == rest;
  }

  lemma {:induction false} ReadPrintedNumber(n: int, rest: string)
    requires Delimited(rest)
    ensures ReadToken(PrintToken(Number(n)) + rest) == Some((Number(n), rest))
  {
    hide ReadNat;
    var digits := Decimal.Print(if n < 0 then -n else n);
    var all := PrintToken(Number(n)) + rest;
    ReadPrintedNat(if n < 0 then -n else n, rest);
    assert Decimal.IsDigit(digits[0]);
    assert "null"[0] == 'n';
    if n < 0 {
      assert all[0] == '-' && all[1..] == digits + rest;
    } else {
      assert all == digits + rest && all[0] == digits[0];
    }
  }

  lemma {:induction false} ReadPrintedToken(t: Token, rest: string)
    requires PlainToken(t) && Delimited(rest)
    ensures ReadToken(PrintToken(t) + rest) == Some((t, rest))
  {
    match t
    case Text(s) => ReadPrintedText(s, rest);
    case Null => ReadPrintedNull(rest);
    case Number(n) => ReadPrintedNumber(n, rest);
  }

  predicate PlainMember(m: Member) {
    Plain(m.name) && PlainToken(m.value)
  }

  lemma {:induction false} ReadPrintedMember(m: Member, rest: string)
    requires PlainMember(m) && Delimited(rest)
    ensures ReadMember(PrintMember(m) + rest) == Some((m, rest))
  {
    hide ReadToken, ReadToQuote, PrintToken, Escaped;
    PlainNeedsNoEscape(m.name);
    var value := PrintToken(m.value) + rest;
    var tail := ":" + value;
    var all := PrintMember(m) + rest;
    assert all == "\"" + (m.name + "\"" + tail);
    assert all[1..] == m.name + "\"" + tail;
    ReadPlain(m.name, tail);
    assert tail[1..] == value;
    ReadPrintedToken(m.value, rest);
  }

  lemma {:induction false} ReadPrintedMembers(members: seq<Member>)
    requires members != [] && forall i :: 0 <= i < |members| ==> PlainMember(members[i])
    ensures ReadMembers(PrintMembers(members) + "}") == Some(members)
    decreases |members|
  {
    hide ReadMember, PrintMember;
    var first := PrintMember(members[0]);
    if |members| == 1 {
      ReadPrintedMember(members[0], "}");
      assert members == [members[0]];
    } else {
      var more := PrintMembers(members[1..]) + "}";
      var rest := "," + more;
      assert PrintMembers(members) + "}" == first + rest;
      ReadPrintedMember(members[0], rest);
      ReadPrintedMembers(members[1..]);
      assert rest[0] == ',' && rest[1..] == more;
      assert members == [members[0]] + members[1..];
    }
  }

  lemma {:induction false} ReadPrintedObject(members: seq<Member>)
    requires members != [] && forall i :: 0 <= i < |members| ==> PlainMember(members[i])
    ensures ReadObject(PrintObject(members)) == Some(members)
  {
    ReadPrintedMembers(members);
    var all := PrintObject(members);
    assert all[1..] == PrintMembers(members) + "}";
    assert all != "{}" by {
      assert PrintMember(members[0]) != [] && PrintMembers(members) != [];
      assert |all| > 2;
    }
  }

  // ---- Payload fields ----

  datatype Key =
    | Version | IssuerServiceId | AudienceServiceId | TenantId | OrganizationId | ActorId | ActorKindKey
    | SessionId | RequestId | TraceId | IdempotencyKey | IssuedAtUnixSeconds | ExpiresAtUnixSeconds | Nonce

  function NameOf(k: Key): string {
    match k
    case Version => "version"
    case IssuerServiceId => "issuerServiceId"
    case AudienceServiceId => "audienceServiceId"
    case TenantId => "tenantId"
    case OrganizationId => "organizationId"
    case ActorId => "actorId"
    case ActorKindKey => "actorKind"
    case SessionId => "sessionId"
    case RequestId => "requestId"
    case TraceId => "traceId"
    case IdempotencyKey => "idempotencyKey"
    case IssuedAtUnixSeconds => "issuedAtUnixSeconds"
    case ExpiresAtUnixSeconds => "expiresAtUnixSeconds"
    case Nonce => "nonce"
  }

  /** Length and first letter tell the field names apart. */
  function Fingerprint(k: Key): (nat, char) {
    match k
    case Version => (7, 'v')
    case IssuerServiceId => (15, 'i')
    case AudienceServiceId => (17, 'a')
    case TenantId => (8, 't')
    case OrganizationId => (14, 'o')
    case ActorId => (7, 'a')
    case ActorKindKey => (9, 'a')
    case SessionId => (9, 's')
    case RequestId => (9, 'r')
    case TraceId => (7, 't')
    case IdempotencyKey => (14, 'i')
    case IssuedAtUnixSeconds => (19, 'i')
    case ExpiresAtUnixSeconds => (20, 'e')
    case Nonce => (5, 'n')
  }

  lemma NameFingerprint(k: Key)
    ensures |NameOf(k)| > 0 && (|NameOf(k)|, NameOf(k)[0]) == Fingerprint(k)
  {
  }

  lemma ShortNamesArePlain()
    ensures Plain("version") && Plain("tenantId") && Plain("actorId") && Plain("actorKind") && Plain("sessionId")
    ensures Plain("requestId") && Plain("traceId") && Plain("nonce")
  {
  }

  lemma LongNamesArePlain()
    ensures Plain("issuerServiceId") && Plain("audienceServiceId") && Plain("organizationId") && Plain("idempotencyKey")
  {
  }

  lemma TimeNamesArePlain()
    ensures Plain("issuedAtUnixSeconds") && Plain("expiresAtUnixSeconds")
  {
  }

  lemma NameIsPlain(k: Key)
    ensures Plain(NameOf(k))
  {
    hide Plain;
    ShortNamesArePlain();
    LongNamesArePlain();
    TimeNamesArePlain();
  }

  const KEYS: seq<Key> :=
    [Version, IssuerServiceId, AudienceServiceId, TenantId, OrganizationId, ActorId, ActorKindKey,
     SessionId, RequestId, TraceId, IdempotencyKey, IssuedAtUnixSeconds, ExpiresAtUnixSeconds, Nonce]

  function KeyAmong(name: string, keys: seq<Key>): Option<Key> {
    if keys == [] then None
    else if NameOf(keys[0]) == name then Some(keys[0])
    else KeyAmong(name, keys[1..])
  }

  lemma {:induction false} KeyIsFound(k: Key, keys: seq<Key>)
    requires k in keys
    ensures KeyAmong(NameOf(k), keys) == Some(k)
    decreases |keys|
  {
    NameFingerprint(k);
    NameFingerprint(keys[0]);
    if keys[0] != k {
      assert Fingerprint(keys[0]) != Fingerprint(k);
      KeyIsFound(k, keys[1..]);
    }
  }

  function KeyOf(name: string): Option<Key> {
    KeyAmong(name, KEYS)
  }

  lemma KeyOfName(k: Key)
    ensures KeyOf(NameOf(k)) == Some(k)
  {
    assert k in KEYS by {
      assert KEYS[Ordinal(k)] == k;
    }
    KeyIsFound(k, KEYS);
  }

  /** Members by key; an unknown or repeated name is an error. */
  function Collect(members: seq<Member>): Option<map<Key, Token>> {
    if members == [] then Some(map[])
    else
      match (KeyOf(members[0].name), Collect(members[1..]))
      case (Some(k), Some(rest)) => if k in rest then None else Some(rest[k := members[0].value])
      case _ => None
  }

  datatype Entry = Entry(key: Key, value: Token)

  function MemberOf(e: Entry): Member {
    Member(NameOf(e.key), e.value)
  }

  function MembersOf(entries: seq<Entry>): (m: seq<Member>)
    ensures |m| == |entries| && forall i :: 0 <= i < |m| ==> m[i] == MemberOf(entries[i])
  {
    if entries == [] then [] else [MemberOf(entries[0])] + MembersOf(entries[1..])
  }

  ghost predicate Holds(m: map<Key, Token>, entries: seq<Entry>) {
    && (forall i :: 0 <= i < |entries| ==> entries[i].key in m && m[entries[i].key] == entries[i].value)
    && (forall k :: k in m ==> exists i :: 0 <= i < |entries| && entries[i].key == k)
  }

  lemma {:induction false} HoldsOneMore(rest: map<Key, Token>, entries: seq<Entry>)
    requires entries != [] && Holds(rest, entries[1..])
    requires forall i :: 0 < i < |entries| ==> entries[0].key != entries[i].key
    ensures entries[0].key !in rest
    ensures Holds(rest[entries[0].key := entries[0].value], entries)
  {
    var all := rest[entries[0].key := entries[0].value];
    forall i | 0 <= i < |entries| ensures entries[i].key in all && all[entries[i].key] == entries[i].value {
      if i > 0 {
        assert entries[i] == entries[1..][i - 1];
      }
    }
    forall k | k in rest ensures exists i :: 0 < i < |entries| && entries[i].key == k {
      var i :| 0 <= i < |entries[1..]| && entries[1..][i].key == k;
      assert entries[i + 1].key == k;
    }
  }

  lemma {:induction false} CollectDistinct(entries: seq<Entry>)
    requires forall i, j :: 0 <= i < j < |entries| ==> entries[i].key != entries[j].key
    ensures Collect(MembersOf(entries)).Some? && Holds(Collect(MembersOf(entries)).value, entries)
    decreases |entries|
  {
    if entries != [] {
      CollectDistinct(entries[1..]);
      HoldsOneMore(Collect(MembersOf(entries[1..])).value, entries);
      KeyOfName(entries[0].key);
      hide KeyOf, NameOf, Holds;
      assert MembersOf(entries)[1..] == MembersOf(entries[1..]);
    }
  }

  function OptionalToken(s: Option<string>): Token {
    match s
    case Some(text) => Text(text)
    case None => Null
  }

  function ActorKindText(k: ActorKind): string {
    match k
    case User => "user"
    case Service => "service"
  }

  function EntriesOf(p: Payload): seq<Entry> {
    [Entry(Version, Number(p.version)),
     Entry(IssuerServiceId, Text(p.issuerServiceId)),
     Entry(AudienceServiceId, Text(p.audienceServiceId)),
     Entry(TenantId, Text(p.tenantId)),
     Entry(OrganizationId, Text(p.organizationId)),
     Entry(ActorId, Text(p.actorId)),
     Entry(ActorKindKey, Text(ActorKindText(p.actorKind))),
     Entry(SessionId, OptionalToken(p.sessionId)),
     Entry(RequestId, Text(p.requestId)),
     Entry(TraceId, OptionalToken(p.traceId)),
     Entry(IdempotencyKey, OptionalToken(p.idempotencyKey)),
     Entry(IssuedAtUnixSeconds, Number(p.issuedAt)),
     Entry(ExpiresAtUnixSeconds, Number(p.expiresAt)),
     Entry(Nonce, Text(p.nonce))]
  }

  /** The serialized payload. */
  function Serialize(p: Payload): string {
    PrintObject(MembersOf(EntriesOf(p)))
  }

  function RequiredText(m: map<Key, Token>, k: Key): Option<string> {
    if k in m && m[k].Text? then Some(m[k].text) else None
  }

  function OptionalText(m: map<Key, Token>, k: Key): Option<Option<string>> {
    if k !in m || m[k] == Null then Some(None)
    else if m[k].Text? then Some(Some(m[k].text))
    else None
  }

  function NumberWithin(m: map<Key, Token>, k: Key, low: int, high: int): Option<int> {
    if k in m && m[k].Number? && low <= m[k].number <= high then Some(m[k].number) else None
  }

  function ActorKindOf(m: map<Key, Token>): Option<ActorKind> {
    match RequiredText(m, ActorKindKey)
    case Some(text) => if text == "user" then Some(User) else if text == "service" then Some(Service) else None
    case None => None
  }

  function FromMap(m: map<Key, Token>): Option<Payload> {
    var version := NumberWithin(m, Version, 0, 255);
    var issuer, audience := RequiredText(m, IssuerServiceId), RequiredText(m, AudienceServiceId);
    var tenant, organization := RequiredText(m, TenantId), RequiredText(m, OrganizationId);
    var actor, kind := RequiredText(m, ActorId), ActorKindOf(m);
    var session, request := OptionalText(m, SessionId), RequiredText(m, RequestId);
    var trace, idempotency := OptionalText(m, TraceId), OptionalText(m, IdempotencyKey);
    var issued := NumberWithin(m, IssuedAtUnixSeconds, I64_MIN, I64_MAX);
    var expires := NumberWithin(m, ExpiresAtUnixSeconds, I64_MIN, I64_MAX);
    var nonce := RequiredText(m, Nonce);
    if version.Some? && issuer.Some? && audience.Some? && tenant.Some? && organization.Some? && actor.Some?
       && kind.Some? && session.Some? && request.Some? && trace.Some? && idempotency.Some? && issued.Some?
       && expires.Some? && nonce.Some?
    then
      Some(Payload(version.value, issuer.value, audience.value, tenant.value, organization.value, actor.value,
                   kind.value, session.value, request.value, trace.value, idempotency.value,
                   issued.value, expires.value, nonce.value))
    else None
  }

  function Deserialize(s: string): Option<Payload> {
    match ReadObject(s)
    case None => None
    case Some(members) =>
      match Collect(members)
      case None => None
      case Some(m) => FromMap(m)
  }

  function Ordinal(k: Key): nat {
    match k
    case Version => 0
    case IssuerServiceId => 1
    case AudienceServiceId => 2
    case TenantId => 3
    case OrganizationId => 4
    case ActorId => 5
    case ActorKindKey => 6
    case SessionId => 7
    case RequestId => 8
    case TraceId => 9
    case IdempotencyKey => 10
    case IssuedAtUnixSeconds => 11
    case ExpiresAtUnixSeconds => 12
    case Nonce => 13
  }

  lemma EntriesAreInOrder(p: Payload)
    ensures |EntriesOf(p)| == 14
    ensures forall i :: 0 <= i < 14 ==> Ordinal(EntriesOf(p)[i].key) == i
  {
  }

  predicate PlainOption(s: Option<string>) {
    s.Some? ==> Plain(s.value)
  }

  /** Strings that print unescaped and numbers in range, as in every payload the signer builds. */
  predicate Printable(p: Payload) {
    && p.version <= 255 && I64_MIN <= p.issuedAt <= I64_MAX && I64_MIN <= p.expiresAt <= I64_MAX
    && Plain(p.issuerServiceId) && Plain(p.audienceServiceId) && Plain(p.tenantId) && Plain(p.organizationId)
    && Plain(p.actorId) && Plain(p.requestId) && Plain(p.nonce)
    && PlainOption(p.sessionId) && PlainOption(p.traceId) && PlainOption(p.idempotencyKey)
  }

  lemma EntriesArePlain(p: Payload)
    requires Printable(p)
    ensures forall i :: 0 <= i < |EntriesOf(p)| ==> PlainToken(EntriesOf(p)[i].value)
  {
    assert Plain(ActorKindText(p.actorKind));
  }

  ghost predicate Maps(m: map<Key, Token>, k: Key, t: Token) {
    k in m && m[k] == t
  }

  /** The map of a payload, field by field. */
  ghost predicate MapOf(m: map<Key, Token>, p: Payload) {
    && Maps(m, Version, Number(p.version))
    && Maps(m, IssuerServiceId, Text(p.issuerServiceId))
    && Maps(m, AudienceServiceId, Text(p.audienceServiceId))
    && Maps(m, TenantId, Text(p.tenantId))
    && Maps(m, OrganizationId, Text(p.organizationId))
    && Maps(m, ActorId, Text(p.actorId))
    && Maps(m, ActorKindKey, Text(ActorKindText(p.actorKind)))
    && Maps(m, SessionId, OptionalToken(p.sessionId))
    && Maps(m, RequestId, Text(p.requestId))
    && Maps(m, TraceId, OptionalToken(p.traceId))
    && Maps(m, IdempotencyKey, OptionalToken(p.idempotencyKey))
    && Maps(m, IssuedAtUnixSeconds, Number(p.issuedAt))
    && Maps(m, ExpiresAtUnixSeconds, Number(p.expiresAt))
    && Maps(m, Nonce, Text(p.nonce))
  }

  lemma HeldEntriesMap(p: Payload, m: map<Key, Token>)
    requires Holds(m, EntriesOf(p))
    ensures MapOf(m, p)
  {
    var e := EntriesOf(p);
    forall i | 0 <= i < |e| ensures Maps(m, e[i].key, e[i].value) {}
    assert Maps(m, e[0].key, e[0].value) && Maps(m, e[1].key, e[1].value) && Maps(m, e[2].key, e[2].value);
    assert Maps(m, e[3].key, e[3].value) && Maps(m, e[4].key, e[4].value) && Maps(m, e[5].key, e[5].value);
    assert Maps(m, e[6].key, e[6].value) && Maps(m, e[7].key, e[7].value) && Maps(m, e[8].key, e[8].value);
    assert Maps(m, e[9].key, e[9].value) && Maps(m, e[10].key, e[10].value) && Maps(m, e[11].key, e[11].value);
    assert Maps(m, e[12].key, e[12].value) && Maps(m, e[13].key, e[13].value);
  }

  lemma ActorKindReads(m: map<Key, Token>, kind: ActorKind)
    requires Maps(m, ActorKindKey, Text(ActorKindText(kind)))
    ensures ActorKindOf(m) == Some(kind)
  {
    assert |"user"| == 4 && |"service"| == 7;
  }

  lemma TextsRead(p: Payload, m: map<Key, Token>)
    requires MapOf(m, p)
    ensures RequiredText(m, IssuerServiceId) == Some(p.issuerServiceId)
    ensures RequiredText(m, AudienceServiceId) == Some(p.audienceServiceId)
    ensures RequiredText(m, TenantId) == Some(p.tenantId)
    ensures RequiredText(m, OrganizationId) == Some(p.organizationId)
    ensures RequiredText(m, ActorId) == Some(p.actorId)
    ensures RequiredText(m, RequestId) == Some(p.requestId)
    ensures RequiredText(m, Nonce) == Some(p.nonce)
    ensures OptionalText(m, SessionId) == Some(p.sessionId)
    ensures OptionalText(m, TraceId) == Some(p.traceId)
    ensures OptionalText(m, IdempotencyKey) == Some(p.idempotencyKey)
  {
  }

  lemma NumbersRead(p: Payload, m: map<Key, Token>)
    requires Printable(p) && MapOf(m, p)
    ensures NumberWithin(m, Version, 0, 255) == Some(p.version)
    ensures NumberWithin(m, IssuedAtUnixSeconds, I64_MIN, I64_MAX) == Some(p.issuedAt)
    ensures NumberWithin(m, ExpiresAtUnixSeconds, I64_MIN, I64_MAX) == Some(p.expiresAt)
  {
  }

  lemma FromMapOfEntries(p: Payload, m: map<Key, Token>)
    requires Printable(p) && Holds(m, EntriesOf(p))
    ensures FromMap(m) == Some(p)
  {
    HeldEntriesMap(p, m);
    ActorKindReads(m, p.actorKind);
    TextsRead(p, m);
    NumbersRead(p, m);
    hide EntriesOf, ActorKindOf, ActorKindText, Holds, MapOf, Printable, RequiredText, OptionalText, NumberWithin;
  }

  /** Reading a serialized payload gives it back. */
  lemma DeserializeSerialize(p: Payload)
    requires Printable(p)
    ensures Deserialize(Serialize(p)) == Some(p)
  {
    var entries := EntriesOf(p);
    EntriesAreInOrder(p);
    EntriesArePlain(p);
    CollectDistinct(entries);
    var members := MembersOf(entries);
    forall i | 0 <= i < |members| ensures PlainMember(members[i]) {
      NameIsPlain(entries[i].key);
    }
    ReadPrintedObject(members);
    FromMapOfEntries(p, Collect(members).value);
  }

  // ---- Size ----

  lemma TokenIsAscii(t: Token)
    requires PlainToken(t)
    ensures Ascii(PrintToken(t))
  {
    match t
    case Text(s) => PlainNeedsNoEscape(s);
    case Number(n) => assert Ascii(Decimal.Print(if n < 0 then -n else n));
    case Null =>
  }

  lemma MemberIsAscii(m: Member)
    requires PlainMember(m)
    ensures Ascii(PrintMember(m))
  {
    hide PrintToken;
    PlainNeedsNoEscape(m.name);
    TokenIsAscii(m.value);
  }

  lemma {:induction false} MembersAreAscii(members: seq<Member>)
    requires forall i :: 0 <= i < |members| ==> PlainMember(members[i])
    ensures Ascii(PrintMembers(members))
    decreases |members|
  {
    hide PrintMember;
    if members != [] {
      MemberIsAscii(members[0]);
      MembersAreAscii(members[1..]);
    }
  }

  lemma SerializedIsAscii(p: Payload)
    requires Printable(p)
    ensures Ascii(Serialize(p))
  {
    EntriesArePlain(p);
    var entries := EntriesOf(p);
    var members := MembersOf(entries);
    hide EntriesOf, PrintMembers, NameOf;
    forall i | 0 <= i < |members| ensures PlainMember(members[i]) {
      NameIsPlain(entries[i].key);
    }
    MembersAreAscii(members);
  }

  /** Room for one printed member and a comma: a 20-letter name, a 128-letter string, quotes and a colon. */
  const MEMBER_ROOM: nat := 154

  lemma {:induction false} MembersLength(members: seq<Member>)
    requires forall i :: 0 <= i < |members| ==> |PrintMember(members[i])| + 1 <= MEMBER_ROOM
    ensures |PrintMembers(members)| <= |members| * MEMBER_ROOM
    decreases |members|
  {
    hide PrintMember;
    if |members| > 1 {
      MembersLength(members[1..]);
    }
  }

  predicate Short(s: string) {
    |s| <= 128
  }

  predicate ShortToken(t: Token) {
    match t
    case Text(s) => Short(s)
    case Number(n) => I64_MIN <= n <= I64_MAX
    case Null => true
  }

  predicate ShortFields(p: Payload) {
    && Short(p.issuerServiceId) && Short(p.audienceServiceId) && Short(p.tenantId) && Short(p.organizationId)
    && Short(p.actorId) && Short(p.requestId) && Short(p.nonce)
    && (p.sessionId.Some? ==> Short(p.sessionId.value))
    && (p.traceId.Some? ==> Short(p.traceId.value))
    && (p.idempotencyKey.Some? ==> Short(p.idempotencyKey.value))
  }

  lemma EntriesAreShort(p: Payload)
    requires Printable(p) && ShortFields(p)
    ensures forall i :: 0 <= i < |EntriesOf(p)| ==> ShortToken(EntriesOf(p)[i].value)
  {
    assert Short(ActorKindText(p.actorKind));
  }

  lemma PowersOfTen()
    ensures Decimal.Pow10(19) == 10_000_000_000_000_000_000
  {
    assert Decimal.Pow10(3) == 1_000;
    assert Decimal.Pow10(6) == 1_000_000;
    assert Decimal.Pow10(9) == 1_000_000_000;
    assert Decimal.Pow10(12) == 1_000_000_000_000;
    assert Decimal.Pow10(15) == 1_000_000_000_000_000;
    assert Decimal.Pow10(18) == 1_000_000_000_000_000_000;
  }

  lemma MemberLength(e: Entry)
    requires PlainToken(e.value) && ShortToken(e.value)
    ensures |PrintMember(MemberOf(e))| + 1 <= MEMBER_ROOM
  {
    NameFingerprint(e.key);
    NameIsPlain(e.key);
    PlainNeedsNoEscape(NameOf(e.key));
    assert |NameOf(e.key)| <= 20;
    match e.value
    case Text(s) => PlainNeedsNoEscape(s);
    case Number(n) =>
      PowersOfTen();
      Decimal.PrintLength(if n < 0 then -n else n, 19);
    case Null =>
  }

  lemma SerializedLength(p: Payload)
    requires Printable(p) && ShortFields(p)
    ensures |Serialize(p)| <= 14 * MEMBER_ROOM + 2
  {
    EntriesArePlain(p);
    EntriesAreShort(p);
    EntriesAreInOrder(p);
    hide EntriesOf, PrintMember;
    var entries := EntriesOf(p);
    var members := MembersOf(entries);
    forall i | 0 <= i < |members| ensures |PrintMember(members[i])| + 1 <= MEMBER_ROOM {
      MemberLength(entries[i]);
    }
    MembersLength(members);
  }

  // ---- The text itself ----

  function Joined(texts: seq<string>): string {
    if texts == [] then ""
    else if |texts| == 1 then texts[0]
    else texts[0] + "," + Joined(texts[1..])
  }

  function Field(name: string, value: string): string {
    "\"" + name + "\":" + value
  }

  function Quoted(s: string): string {
    "\"" + s + "\""
  }

  function QuotedOrNull(s: Option<string>): string {
    match s
    case Some(text) => Quoted(text)
    case None => "null"
  }

  lemma {:induction false} MembersAreJoined(members: seq<Member>, texts: seq<string>)
    requires |texts| == |members| && forall i :: 0 <= i < |members| ==> texts[i] == PrintMember(members[i])
    ensures PrintMembers(members) == Joined(texts)
    decreases |members|
  {
    hide PrintMember;
    if |members| > 1 {
      MembersAreJoined(members[1..], texts[1..]);
    }
  }

  lemma {:induction false} TextField(k: Key, s: string)
    requires Plain(s)
    ensures PrintMember(MemberOf(Entry(k, Text(s)))) == Field(NameOf(k), Quoted(s))
  {
    NameIsPlain(k);
    hide NameOf;
    PlainNeedsNoEscape(NameOf(k));
    PlainNeedsNoEscape(s);
  }

  lemma OptionalField(k: Key, s: Option<string>)
    requires PlainOption(s)
    ensures PrintMember(MemberOf(Entry(k, OptionalToken(s)))) == Field(NameOf(k), QuotedOrNull(s))
  {
    NameIsPlain(k);
    hide NameOf;
    PlainNeedsNoEscape(NameOf(k));
    if s.Some? {
      PlainNeedsNoEscape(s.value);
    }
  }

  lemma NumberField(k: Key, n: int)
    ensures PrintMember(MemberOf(Entry(k, Number(n)))) == Field(NameOf(k), (if n < 0 then "-" else "") + Decimal.Print(if n < 0 then -n else n))
  {
    NameIsPlain(k);
    hide NameOf;
    PlainNeedsNoEscape(NameOf(k));
    assert "" + Decimal.Print(if n < 0 then -n else n) == Decimal.Print(if n < 0 then -n else n);
  }

  /** The fourteen fields as they are written. */
  function FieldTexts(p: Payload): seq<string>
    requires p.issuedAt >= 0 && p.expiresAt >= 0
  {
    [Field("version", Decimal.Print(p.version)),
     Field("issuerServiceId", Quoted(p.issuerServiceId)),
     Field("audienceServiceId", Quoted(p.audienceServiceId)),
     Field("tenantId", Quoted(p.tenantId)),
     Field("organizationId", Quoted(p.organizationId)),
     Field("actorId", Quoted(p.actorId)),
     Field("actorKind", Quoted(if p.actorKind == User then "user" else "service")),
     Field("sessionId", QuotedOrNull(p.sessionId)),
     Field("requestId", Quoted(p.requestId)),
     Field("traceId", QuotedOrNull(p.traceId)),
     Field("idempotencyKey", QuotedOrNull(p.idempotencyKey)),
     Field("issuedAtUnixSeconds", Decimal.Print(p.issuedAt)),
     Field("expiresAtUnixSeconds", Decimal.Print(p.expiresAt)),
     Field("nonce", Quoted(p.nonce))]
  }

  lemma FirstFields(p: Payload)
    requires Printable(p) && p.issuedAt >= 0 && p.expiresAt >= 0
    ensures forall i :: 0 <= i < 7 ==> FieldTexts(p)[i] == PrintMember(MemberOf(EntriesOf(p)[i]))
  {
    hide PrintMember, MemberOf, Field, Plain, Quoted;
    NumberField(Version, p.version);
    assert "" + Decimal.Print(p.version) == Decimal.Print(p.version);
    TextField(IssuerServiceId, p.issuerServiceId);
    TextField(AudienceServiceId, p.audienceServiceId);
    TextField(TenantId, p.tenantId);
    TextField(OrganizationId, p.organizationId);
    TextField(ActorId, p.actorId);
    ActorKindField(p.actorKind);
  }

  lemma ActorKindField(k: ActorKind)
    ensures PrintMember(MemberOf(Entry(ActorKindKey, Text(ActorKindText(k)))))
            == Field("actorKind", Quoted(if k == User then "user" else "service"))
  {
    assert Plain(ActorKindText(k));
    hide PrintMember, MemberOf, Field, Plain, Quoted;
    TextField(ActorKindKey, ActorKindText(k));
  }

  lemma LastFields(p: Payload)
    requires Printable(p) && p.issuedAt >= 0 && p.expiresAt >= 0
    ensures forall i :: 7 <= i < 14 ==> FieldTexts(p)[i] == PrintMember(MemberOf(EntriesOf(p)[i]))
  {
    hide PrintMember, MemberOf, Field, Plain, Quoted, OptionalToken, QuotedOrNull;
    OptionalField(SessionId, p.sessionId);
    TextField(RequestId, p.requestId);
    OptionalField(TraceId, p.traceId);
    OptionalField(IdempotencyKey, p.idempotencyKey);
    NumberField(IssuedAtUnixSeconds, p.issuedAt);
    NumberField(ExpiresAtUnixSeconds, p.expiresAt);
    assert "" + Decimal.Print(p.issuedAt) == Decimal.Print(p.issuedAt);
    assert "" + Decimal.Print(p.expiresAt) == Decimal.Print(p.expiresAt);
    TextField(Nonce, p.nonce);
  }

  /** The compact text of a payload: the fourteen fields in this order under these names. */
  lemma SerializedText(p: Payload)
    requires Printable(p) && p.issuedAt >= 0 && p.expiresAt >= 0
    ensures Serialize(p) == "{" + Joined(FieldTexts(p)) + "}"
  {
    FirstFields(p);
    LastFields(p);
    hide FieldTexts, EntriesOf, PrintMember, Joined, PrintMembers, MemberOf;
    EntriesAreInOrder(p);
    FieldCount(p);
    MembersAreJoined(MembersOf(EntriesOf(p)), FieldTexts(p));
  }

  lemma FieldCount(p: Payload)
    requires p.issuedAt >= 0 && p.expiresAt >= 0
    ensures |FieldTexts(p)| == 14
  {
  }

  // ---- Strictness of the reader ----

  lemma {:induction false} KeyAmongHasName(name: string, keys: seq<Key>)
    ensures KeyAmong(name, keys).Some? ==> NameOf(KeyAmong(name, keys).value) == name
    decreases |keys|
  {
    hide NameOf;
    if keys != [] {
      KeyAmongHasName(name, keys[1..]);
    }
  }

  ghost predicate KnownMember(m: map<Key, Token>, member: Member) {
    match KeyOf(member.name)
    case Some(k) => NameOf(k) == member.name && k in m && m[k] == member.value
    case None => false
  }

  ghost predicate Names(members: seq<Member>, k: Key) {
    exists i :: 0 <= i < |members| && KeyOf(members[i].name) == Some(k)
  }

  lemma {:induction false} CollectStep(members: seq<Member>)
    requires members != [] && Collect(members).Some?
    ensures Collect(members[1..]).Some? && KeyOf(members[0].name).Some?
    ensures var before, first := Collect(members[1..]).value, KeyOf(members[0].name).value;
            && NameOf(first) == members[0].name && first !in before
            && Collect(members).value == before[first := members[0].value]
  {
    KeyAmongHasName(members[0].name, KEYS);
  }

  /** Every member has a known name of its own, and the map holds exactly the members. */
  lemma {:induction false} CollectIsStrict(members: seq<Member>)
    requires Collect(members).Some?
    ensures forall i :: 0 <= i < |members| ==> KnownMember(Collect(members).value, members[i])
    ensures forall k :: k in Collect(members).value ==> Names(members, k)
    ensures forall i, j :: 0 <= i < j < |members| ==> members[i].name != members[j].name
    decreases |members|
  {
    if members != [] {
      hide NameOf, KeyOf, Collect;
      var rest := members[1..];
      CollectStep(members);
      CollectIsStrict(rest);
      var m, before := Collect(members).value, Collect(rest).value;
      var first := KeyOf(members[0].name).value;
      forall j | 1 <= j < |members| ensures KnownMember(m, members[j]) && members[j].name != members[0].name {
        assert members[j] == rest[j - 1] && KnownMember(before, rest[j - 1]);
      }
      forall k | k in m ensures Names(members, k) {
        MoreNames(members, k);
        assert k != first ==> Names(rest, k);
      }
      forall i, j | 0 <= i < j < |members| ensures members[i].name != members[j].name {
        if i > 0 {
          assert members[i] == rest[i - 1] && members[j] == rest[j - 1];
        }
      }
    }
  }

  lemma {:induction false} MoreNames(members: seq<Member>, k: Key)
    requires members != []
    ensures Names(members, k) <==> KeyOf(members[0].name) == Some(k) || Names(members[1..], k)
  {
    hide KeyOf;
    if Names(members[1..], k) {
      var i :| 0 <= i < |members[1..]| && KeyOf(members[1..][i].name) == Some(k);
      assert members[i + 1] == members[1..][i];
    }
    if i :| 0 < i < |members| && KeyOf(members[i].name) == Some(k) {
      assert members[1..][i - 1] == members[i];
    }
  }

  lemma FromMapIsExact(m: map<Key, Token>, p: Payload)
    requires FromMap(m) == Some(p)
    ensures p.version <= 255 && I64_MIN <= p.issuedAt <= I64_MAX && I64_MIN <= p.expiresAt <= I64_MAX
    ensures forall k :: k in m ==> m[k] == EntriesOf(p)[Ordinal(k)].value
    ensures forall k :: k != SessionId && k != TraceId && k != IdempotencyKey ==> k in m
  {
    forall k | k in m ensures m[k] == EntriesOf(p)[Ordinal(k)].value {
      match k
      case SessionId =>
      case TraceId =>
      case IdempotencyKey =>
      case _ =>
    }
  }

  /** Text that stands for itself between quotes. */
  predicate Unescaped(s: string) {
    forall i :: 0 <= i < |s| ==> s[i] != '"' && s[i] != '\\' && s[i] as int >= 32
  }

  lemma {:induction false} UnescapedStands(s: string)
    requires Unescaped(s)
    ensures Escaped(s) == s
    decreases |s|
  {
    if s != [] {
      UnescapedStands(s[1..]);
      assert Escaped(s) == [s[0]] + s[1..];
    }
  }

  lemma {:induction false} QuoteIsCanonical(s: string)
    requires ReadToQuote(s).Some?
    ensures var (text, rest) := ReadToQuote(s).value; s == text + "\"" + rest && Unescaped(text)
    decreases |s|
  {
    if s[0] == '"' {
      assert s == "" + "\"" + s[1..];
    } else {
      QuoteIsCanonical(s[1..]);
      var (text, rest) := ReadToQuote(s[1..]).value;
      assert s == [s[0]] + s[1..];
      assert [s[0]] + (text + "\"" + rest) == ([s[0]] + text) + "\"" + rest;
    }
  }

  lemma {:induction false} NatIsCanonical(s: string)
    requires ReadNat(s).Some?
    ensures var (n, rest) := ReadNat(s).value; s == Decimal.Print(n) + rest
  {
    var n := DigitPrefix(s);
    Decimal.PrintOfValue(s[..n]);
    assert s == s[..n] + s[n..];
  }

  lemma {:induction false} TokenIsCanonical(s: string)
    requires ReadToken(s).Some?
    ensures var (t, rest) := ReadToken(s).value; s == PrintToken(t) + rest
  {
    hide ReadToQuote, ReadNat, Escaped;
    var (t, rest) := ReadToken(s).value;
    if s[0] == '"' {
      QuoteIsCanonical(s[1..]);
      UnescapedStands(t.text);
      assert s == "\"" + (t.text + "\"" + rest);
    } else if "null" <= s {
      assert s == "null" + s[4..];
    } else if s[0] == '-' {
      NatIsCanonical(s[1..]);
      assert s == "-" + (Decimal.Print(-t.number) + rest);
    } else {
      NatIsCanonical(s);
    }
  }

  lemma {:induction false} MemberIsCanonical(s: string)
    requires ReadMember(s).Some?
    ensures var (m, rest) := ReadMember(s).value; s == PrintMember(m) + rest
  {
    hide ReadToQuote, ReadToken, Escaped, PrintToken;
    var (m, rest) := ReadMember(s).value;
    QuoteIsCanonical(s[1..]);
    UnescapedStands(m.name);
    var (_, colon) := ReadToQuote(s[1..]).value;
    TokenIsCanonical(colon[1..]);
    assert colon == ":" + colon[1..];
    assert s == "\"" + (m.name + "\"" + (":" + (PrintToken(m.value) + rest)));
  }

  lemma {:induction false} MembersAreCanonical(s: string)
    requires ReadMembers(s).Some?
    ensures ReadMembers(s).value != [] && s == PrintMembers(ReadMembers(s).value) + "}"
    decreases |s|
  {
    hide ReadMember, PrintMember;
    MemberIsCanonical(s);
    var (m, rest) := ReadMember(s).value;
    var all := ReadMembers(s).value;
    if rest == "}" {
      assert all == [m];
    } else {
      MembersAreCanonical(rest[1..]);
      var more := ReadMembers(rest[1..]).value;
      assert all == [m] + more && all[1..] == more;
      assert rest == "," + rest[1..];
      assert PrintMember(m) + ("," + (PrintMembers(more) + "}")) == (PrintMember(m) + "," + PrintMembers(more)) + "}";
    }
  }

  /** The reader takes one text for each list of members: the one the printer writes. */
  lemma {:induction false} ObjectIsCanonical(s: string)
    requires ReadObject(s).Some?
    ensures s == PrintObject(ReadObject(s).value)
  {
    if s == "{}" {
      assert PrintMembers([]) == "";
      assert PrintObject([]) == "{" + "" + "}";
    } else {
      MembersAreCanonical(s[1..]);
      assert s == "{" + s[1..];
    }
  }

  /**
   Strictness: any text that is read as a payload is the compact text of an object all of whose
   members, in whatever order, are members the payload itself has, none unknown or repeated, and
   only the three optional ones may be missing.
   */
  lemma {:induction false} ReaderIsStrict(s: string, p: Payload) returns (members: seq<Member>)
    requires Deserialize(s) == Some(p)
    ensures s == PrintObject(members)
    ensures forall i :: 0 <= i < |members| ==> members[i] in MembersOf(EntriesOf(p))
    ensures forall i, j :: 0 <= i < j < |members| ==> members[i].name != members[j].name
    ensures forall k :: k != SessionId && k != TraceId && k != IdempotencyKey ==> Names(members, k)
    ensures p.version <= 255 && I64_MIN <= p.issuedAt <= I64_MAX && I64_MIN <= p.expiresAt <= I64_MAX
  {
    members := ReadObject(s).value;
    ObjectIsCanonical(s);
    CollectIsStrict(members);
    var m := Collect(members).value;
    FromMapIsExact(m, p);
    EntriesAreInOrder(p);
    var own := MembersOf(EntriesOf(p));
    hide KeyOf, NameOf, FromMap, Collect, Deserialize, PrintObject, ReadObject;
    forall i | 0 <= i < |members| ensures members[i] in own {
      assert KnownMember(m, members[i]);
      var k := KeyOf(members[i].name).value;
      OwnMember(p, k);
      assert own[Ordinal(k)] == members[i];
    }
  }

  lemma OwnMember(p: Payload, k: Key)
    ensures Ordinal(k) < 14 && |EntriesOf(p)| == 14 && EntriesOf(p)[Ordinal(k)].key == k
  {
  }

  // ---- Escapes ----

  function HexValue(c: char): int {
    if '0' <= c <= '9' then c as int - '0' as int else c as int - 'a' as int + 10
  }

  /** The character an escape, or a character standing for itself, denotes; minus one for none. */
  function Denoted(text: string): int {
    if |text| == 1 then text[0] as int
    else if |text| == 2 && text[0] == '\\' then
      (match text[1]
       case '"' => 34
       case '\\' => 92
       case 'b' => 8
       case 't' => 9
       case 'n' => 10
       case 'f' => 12
       case 'r' => 13
       case _ => -1)
    else if |text| == 6 && text[..4] == "\\u00" then 16 * HexValue(text[4]) + HexValue(text[5])
    else -1
  }

  /** Every character prints as an escape or itself that denotes it: short escapes for seven, four digits for other controls. */
  lemma EscapeDenotes(c: char)
    ensures Denoted(EscapedChar(c)) == c as int
    ensures var n := c as int;
            |EscapedChar(c)| == (if n == 34 || n == 92 || n == 8 || n == 9 || n == 10 || n == 12 || n == 13 then 2
                                 else if n < 32 then 6
                                 else 1)
  {
    var n := c as int;
    if n < 32 && n != 8 && n != 9 && n != 10 && n != 12 && n != 13 {
      assert EscapedChar(c)[..4] == "\\u00";
      HexDenotes(n / 16);
      HexDenotes(n % 16);
    }
  }

  lemma {:induction false} HexDenotes(d: nat)
    requires d < 16
    ensures HexValue(HexDigit(d)) == d
  {
  }
}
