// The private `euwallet-hybrid-pq-v1` profile: its vocabulary and its to-be-signed bytes.

module HybridTypes {
  import opened Prelude
  import Cbor
  import Utf8

  const VERSION: u64 := 1
  const PROFILE := "euwallet-hybrid-pq-v1"
  const FORMAT := "dev-hybrid-pq+cbor"
  const DOMAIN := "EUWALLET-HYBRID-SIGNATURE-V1"
  const CONTEXT_DOMAIN := "EUWALLET-HYBRID-CONTEXT-V1"
  const MAX_ENVELOPE_BYTES := 64 * 1024
  const MAX_COMPONENT_ENVELOPE_BYTES := 8 * 1024
  const MAX_FIELD_BYTES := 4096
  const MAX_KEY_ID_BYTES := 128
  const MIN_NONCE_BYTES := 16
  const MAX_NONCE_BYTES := 64
  const PQ_PUBLIC_KEY_BYTES := 1952
  const PQ_SECRET_KEY_BYTES := 4032
  const PQ_SIGNATURE_BYTES := 3309
  const CLASSICAL_SIGNATURE_BYTES := 64

  datatype HybridPurpose =
    | WalletExportV1
    | WalletRecoveryV1
    | PrivateProviderMessageV1
    | TestSdJwtWrapperV1
    | TestMdocWrapperV1

  datatype CodecError =
    | Oversized
    | LengthOverflow
    | Malformed
    | DuplicateField
    | NonCanonical
    | Unsupported
    | Missing
    | GenerationMismatch
    | ClassicalSignature
    | PostQuantumSignature

  type Hash32 = s: Vec<byte> | |s| == 32 witness seq(32, _ => 0)

  datatype HybridContext = HybridContext(
    walletIdentity: Vec<byte>,
    issuerIdentity: Option<Vec<byte>>,
    keyGeneration: u64,
    transactionId: Option<Vec<byte>>,
    sessionId: Option<Vec<byte>>,
    audience: Option<Vec<byte>>,
    nonce: Vec<byte>,
    createdAt: u64,
    expiresAt: u64,
    transcriptHash: Option<Hash32>)

  datatype UnsignedEnvelope = UnsignedEnvelope(
    purpose: HybridPurpose,
    context: HybridContext,
    payload: Vec<byte>,
    disclosures: Vec<Vec<byte>>,
    classicalKid: Cbor.Text,
    pqKid: Cbor.Text,
    generation: u64)

  datatype EnvelopeSignatures = EnvelopeSignatures(classical: Vec<byte>, postQuantum: Vec<byte>)

  function AsciiText(s: string): (t: Cbor.Text)
    requires |s| < 1000
    ensures t == Ascii(s)
  {
    Utf8.AsciiIsValid(Ascii(s));
    Ascii(s)
  }

  function ProfileText(): (t: Cbor.Text)
    ensures |t| < 30
  {
    AsciiText(PROFILE)
  }

  function FormatText(): (t: Cbor.Text)
    ensures |t| < 30
  {
    AsciiText(FORMAT)
  }

  function PurposeId(p: HybridPurpose): (id: string)
    ensures |id| < 30
  {
    match p
    case WalletExportV1 => "wallet-export-v1"
    case WalletRecoveryV1 => "wallet-recovery-v1"
    case PrivateProviderMessageV1 => "private-provider-message-v1"
    case TestSdJwtWrapperV1 => "test-sd-jwt-wrapper-v1"
    case TestMdocWrapperV1 => "test-mdoc-wrapper-v1"
  }

  function PurposeText(p: HybridPurpose): (t: Cbor.Text)
    ensures |t| == |PurposeId(p)| < 30
  {
    AsciiText(PurposeId(p))
  }

  function PurposeFromText(t: seq<byte>): Result<HybridPurpose, CodecError> {
    if t == PurposeText(WalletExportV1) then Ok(WalletExportV1)
    else if t == PurposeText(WalletRecoveryV1) then Ok(WalletRecoveryV1)
    else if t == PurposeText(PrivateProviderMessageV1) then Ok(PrivateProviderMessageV1)
    else if t == PurposeText(TestSdJwtWrapperV1) then Ok(TestSdJwtWrapperV1)
    else if t == PurposeText(TestMdocWrapperV1) then Ok(TestMdocWrapperV1)
    else Err(Unsupported)
  }

  lemma PurposeIdsDiffer(p: HybridPurpose, q: HybridPurpose)
    requires p != q
    ensures PurposeText(p) != PurposeText(q)
  {
    assert |PurposeId(p)| != |PurposeId(q)|;
  }

  /** Purpose identifiers and purposes name each other. */
  lemma PurposeTextRoundTrip(p: HybridPurpose, t: seq<byte>)
    ensures PurposeFromText(t) == Ok(p) <==> t == PurposeText(p)
  {
    forall q | q != p ensures PurposeText(q) != PurposeText(p) {
      PurposeIdsDiffer(p, q);
    }
  }

  function RequireNonemptyBounded(value: seq<byte>): Result<(), CodecError> {
    if value == [] then Err(Malformed)
    else if |value| > MAX_FIELD_BYTES then Err(Oversized)
    else Ok(())
  }

  function ValidateOptional(value: Option<seq<byte>>): Result<(), CodecError> {
    if value.Some? then RequireNonemptyBounded(value.value) else Ok(())
  }

  function RequirePresent<T>(value: Option<T>): Result<(), CodecError> {
    if value.None? then Err(Missing) else Ok(())
  }

  function RequireAbsent<T>(value: Option<T>): Result<(), CodecError> {
    if value.Some? then Err(Unsupported) else Ok(())
  }

  function ValidateCommon(c: HybridContext): Result<(), CodecError> {
    var _ :- RequireNonemptyBounded(c.walletIdentity);
    var _ :- ValidateOptional(c.issuerIdentity);
    var _ :- ValidateOptional(c.transactionId);
    var _ :- ValidateOptional(c.sessionId);
    var _ :- ValidateOptional(c.audience);
    if c.keyGeneration == 0 then Err(GenerationMismatch)
    else if !(MIN_NONCE_BYTES <= |c.nonce| <= MAX_NONCE_BYTES) || c.createdAt >= c.expiresAt then Err(Malformed)
    else Ok(())
  }

  function ValidateFor(c: HybridContext, p: HybridPurpose): Result<(), CodecError> {
    match p
    case WalletExportV1 | WalletRecoveryV1 =>
      var _ :- RequireAbsent(c.issuerIdentity);
      var _ :- RequireAbsent(c.transactionId);
      var _ :- RequireAbsent(c.sessionId);
      var _ :- RequireAbsent(c.audience);
      RequireAbsent(c.transcriptHash)
    case PrivateProviderMessageV1 =>
      var _ :- RequirePresent(c.sessionId);
      var _ :- RequirePresent(c.audience);
      RequirePresent(c.transcriptHash)
    case TestSdJwtWrapperV1 | TestMdocWrapperV1 =>
      var _ :- RequirePresent(c.issuerIdentity);
      var _ :- RequirePresent(c.transactionId);
      var _ :- RequirePresent(c.audience);
      if c.sessionId.Some? then RequirePresent(c.transcriptHash) else Ok(())
  }

  predicate Bounded(d: seq<byte>) { 1 <= |d| <= MAX_FIELD_BYTES }

  predicate BoundedIfAny(d: Option<seq<byte>>) { d.Some? ==> Bounded(d.value) }

  /** The values any context may have: bounded fields, a generation, a nonce of 16 to 64 bytes, and a lifetime. */
  predicate ContextFits(c: HybridContext) {
    && Bounded(c.walletIdentity) && BoundedIfAny(c.issuerIdentity) && BoundedIfAny(c.transactionId)
    && BoundedIfAny(c.sessionId) && BoundedIfAny(c.audience)
    && c.keyGeneration > 0 && 16 <= |c.nonce| <= 64 && c.createdAt < c.expiresAt
  }

  /** What a purpose forbids its contexts to name. */
  predicate NamesNothingElse(c: HybridContext) {
    c.issuerIdentity == c.transactionId == c.sessionId == c.audience == None && c.transcriptHash == None
  }

  /** What a purpose demands its contexts to name. */
  predicate NamesEnough(c: HybridContext, p: HybridPurpose) {
    match p
    case WalletExportV1 | WalletRecoveryV1 => true
    case PrivateProviderMessageV1 => c.sessionId.Some? && c.audience.Some? && c.transcriptHash.Some?
    case TestSdJwtWrapperV1 | TestMdocWrapperV1 =>
      && c.issuerIdentity.Some? && c.transactionId.Some? && c.audience.Some?
      && (c.sessionId.Some? ==> c.transcriptHash.Some?)
  }

  /** Backups name the wallet alone, messages their session, audience and transcript, wrapped credentials their issuer,
      transaction and audience, with a transcript if there is a session; nothing else is refused. */
  lemma ContextsAcceptedExactly(c: HybridContext, p: HybridPurpose)
    ensures ValidateCommon(c).Ok? <==> ContextFits(c)
    ensures ValidateCommon(c) == Err(GenerationMismatch) <==>
            && Bounded(c.walletIdentity) && BoundedIfAny(c.issuerIdentity) && BoundedIfAny(c.transactionId)
            && BoundedIfAny(c.sessionId) && BoundedIfAny(c.audience) && c.keyGeneration == 0
    ensures ValidateFor(c, p) == Err(Unsupported) <==>
            (p.WalletExportV1? || p.WalletRecoveryV1?) && !NamesNothingElse(c)
    ensures ValidateFor(c, p) == Err(Missing) <==> !NamesEnough(c, p)
    ensures ValidateFor(c, p).Ok? <==>
            NamesEnough(c, p) && (p.WalletExportV1? || p.WalletRecoveryV1? ==> NamesNothingElse(c))
  {
  }
}

module HybridTbs {
  import opened Prelude
  import opened HybridTypes
  import Cbor

  // ---- The bytes, as functions ----

  /** A length-prefixed component. */
  function Component(c: seq<byte>): (s: seq<byte>)
    requires |c| < U32_LIMIT
    ensures |s| == 4 + |c|
  {
    BigEndian(|c|, 4) + c
  }

  function OrEmpty(value: Option<Vec<byte>>): Vec<byte> {
    if value.Some? then value.value else []
  }

  /** What context field `tag` carries; an absent field carries nothing. */
  function ContextValue(c: HybridContext, tag: nat): seq<byte> {
    match tag
    case 1 => c.walletIdentity
    case 2 => OrEmpty(c.issuerIdentity)
    case 3 => BigEndian(c.keyGeneration, 8)
    case 4 => OrEmpty(c.transactionId)
    case 5 => OrEmpty(c.sessionId)
    case 6 => OrEmpty(c.audience)
    case 7 => c.nonce
    case 8 => BigEndian(c.createdAt, 8)
    case 9 => BigEndian(c.expiresAt, 8)
    case _ => OrEmpty(c.transcriptHash)
  }

  /** The context domain followed by the first `count` fields: tag, length, value. */
  function ContextPrefix(c: HybridContext, count: nat): seq<byte>
    requires count <= 10 && ValidateCommon(c).Ok?
  {
    if count == 0 then Ascii(CONTEXT_DOMAIN)
    else
      ValidValueIsShort(c, count);
      ContextPrefix(c, count - 1) + [count as byte] + Component(ContextValue(c, count))
  }

  lemma ValidValueIsShort(c: HybridContext, tag: nat)
    requires ValidateCommon(c).Ok?
    ensures |ContextValue(c, tag)| <= MAX_FIELD_BYTES
  {
  }

  function ContextEncoding(c: HybridContext, p: HybridPurpose): Result<seq<byte>, CodecError> {
    var _ :- ValidateCommon(c);
    var _ :- ValidateFor(c, p);
    Ok(ContextPrefix(c, 10))
  }

  lemma {:induction false} ContextPrefixLength(c: HybridContext, count: nat)
    requires count <= 10 && ValidateCommon(c).Ok?
    ensures |ContextPrefix(c, count)| <= 26 + count * (5 + MAX_FIELD_BYTES)
  {
    if count > 0 {
      ContextPrefixLength(c, count - 1);
      ValidValueIsShort(c, count);
    }
  }

  lemma ContextIsShort(c: HybridContext, p: HybridPurpose)
    requires ContextEncoding(c, p).Ok?
    ensures |ContextEncoding(c, p).value| < U32_LIMIT
  {
    ContextPrefixLength(c, 10);
  }

  function BytesArray(ds: Vec<Vec<byte>>): (vs: Vec<Cbor.Value>)
    ensures |vs| == |ds|
  {
    seq(|ds|, i requires 0 <= i < |ds| => Cbor.Bytes(ds[i]))
  }

  function Pair(key: u64, value: Cbor.Value): Cbor.Entry {
    Cbor.Entry(Cbor.UInt(key), value)
  }

  function CommittedValue(u: UnsignedEnvelope): Cbor.Value {
    Cbor.Map([Pair(1, Cbor.Bytes(u.payload)), Pair(2, Cbor.Array(BytesArray(u.disclosures)))])
  }

  /** The payload and the ordered disclosures, as one canonical value. */
  function CommittedPayload(u: UnsignedEnvelope): seq<byte> {
    Cbor.Enc(CommittedValue(u))
  }

  function TbsBytes(p: HybridPurpose, context: seq<byte>, payload: seq<byte>): seq<byte>
    requires |context| < U32_LIMIT && |payload| < U32_LIMIT
  {
    Ascii(DOMAIN) + Component(ProfileText()) + Component(PurposeText(p)) + Component(context) + Component(payload)
  }

  function BuiltTbs(p: HybridPurpose, c: HybridContext, payload: seq<byte>): Result<seq<byte>, CodecError> {
    if |payload| > MAX_FIELD_BYTES then Err(Oversized)
    else
      var context :- ContextEncoding(c, p);
      ContextIsShort(c, p);
      Ok(TbsBytes(p, context, payload))
  }

  function Tbs(u: UnsignedEnvelope): Result<seq<byte>, CodecError> {
    BuiltTbs(u.purpose, u.context, CommittedPayload(u))
  }

  /** What can be signed: a payload and disclosures that commit to at most 4096 bytes, in a context for the purpose. */
  lemma SignableExactly(u: UnsignedEnvelope)
    ensures Tbs(u).Ok? <==>
            && |CommittedPayload(u)| <= MAX_FIELD_BYTES && ContextFits(u.context) && NamesEnough(u.context, u.purpose)
            && (u.purpose.WalletExportV1? || u.purpose.WalletRecoveryV1? ==> NamesNothingElse(u.context))
  {
    hide CommittedPayload, ContextPrefix;
    ContextsAcceptedExactly(u.context, u.purpose);
  }

  /** A field as it stands in the encoded context. */
  function Tagged(tag: byte, value: seq<byte>): seq<byte>
    requires |value| < U32_LIMIT
  {
    [tag] + BigEndian(|value|, 4) + value
  }

  /** Which field stands under which tag. */
  lemma ContextLayout(c: HybridContext, p: HybridPurpose)
    requires ContextEncoding(c, p).Ok?
    ensures ContextEncoding(c, p).value ==
            Ascii(CONTEXT_DOMAIN)
            + Tagged(1, c.walletIdentity) + Tagged(2, OrEmpty(c.issuerIdentity))
            + Tagged(3, BigEndian(c.keyGeneration, 8)) + Tagged(4, OrEmpty(c.transactionId))
            + Tagged(5, OrEmpty(c.sessionId)) + Tagged(6, OrEmpty(c.audience)) + Tagged(7, c.nonce)
            + Tagged(8, BigEndian(c.createdAt, 8)) + Tagged(9, BigEndian(c.expiresAt, 8))
            + Tagged(10, OrEmpty(c.transcriptHash))
  {
    hide ContextPrefix, Component, BigEndian, CONTEXT_DOMAIN;
    FieldAppended(c, 10);
    FieldAppended(c, 9);
    FieldAppended(c, 8);
    FieldAppended(c, 7);
    FieldAppended(c, 6);
    FieldAppended(c, 5);
    FieldAppended(c, 4);
    FieldAppended(c, 3);
    FieldAppended(c, 2);
    FieldAppended(c, 1);
  }

  lemma FieldAppended(c: HybridContext, tag: nat)
    requires 1 <= tag <= 10 && ValidateCommon(c).Ok?
    ensures |ContextValue(c, tag)| < U32_LIMIT
    ensures ContextPrefix(c, 0) == Ascii(CONTEXT_DOMAIN)
    ensures ContextPrefix(c, tag) == ContextPrefix(c, tag - 1) + Tagged(tag as byte, ContextValue(c, tag))
  {
    ValidValueIsShort(c, tag);
    var front, value := ContextPrefix(c, tag - 1), ContextValue(c, tag);
    ConcatAssociates(front, [tag as byte], Component(value));
    ConcatAssociates([tag as byte], BigEndian(|value|, 4), value);
  }

  // ---- The bytes determine what was signed ----

  lemma ComponentInjective(a: seq<byte>, x: seq<byte>, b: seq<byte>, y: seq<byte>)
    requires |a| < U32_LIMIT && |b| < U32_LIMIT
    requires Component(a) + x == Component(b) + y
    ensures a == b && x == y
  {
    ConcatAssociates(BigEndian(|a|, 4), a, x);
    ConcatAssociates(BigEndian(|b|, 4), b, y);
    SplitAtEqualLength(BigEndian(|a|, 4), a + x, BigEndian(|b|, 4), b + y);
    Pow256Widths();
    BigEndianInjective(|a|, |b|, 4);
    SplitAtEqualLength(a, x, b, y);
  }

  /** A run of fields is self-delimiting. */
  lemma {:induction false} ContextPrefixInjective(c: HybridContext, x: seq<byte>, d: HybridContext, y: seq<byte>,
                                                  count: nat)
    requires count <= 10 && ValidateCommon(c).Ok? && ValidateCommon(d).Ok?
    requires ContextPrefix(c, count) + x == ContextPrefix(d, count) + y
    ensures x == y && forall tag :: 1 <= tag <= count ==> ContextValue(c, tag) == ContextValue(d, tag)
    decreases count
  {
    if count == 0 {
      SplitAtEqualLength(Ascii(CONTEXT_DOMAIN), x, Ascii(CONTEXT_DOMAIN), y);
    } else {
      ValidValueIsShort(c, count);
      ValidValueIsShort(d, count);
      var t := [count as byte];
      var cv, dv := Component(ContextValue(c, count)), Component(ContextValue(d, count));
      FieldAssociates(ContextPrefix(c, count - 1), t, cv, x);
      FieldAssociates(ContextPrefix(d, count - 1), t, dv, y);
      ContextPrefixInjective(c, t + (cv + x), d, t + (dv + y), count - 1);
      SplitAtEqualLength(t, cv + x, t, dv + y);
      ComponentInjective(ContextValue(c, count), x, ContextValue(d, count), y);
    }
  }

  lemma FieldAssociates(a: seq<byte>, b: seq<byte>, c: seq<byte>, d: seq<byte>)
    ensures a + b + c + d == a + (b + (c + d))
  {
  }

  /** Present-but-empty is refused, so an optional field is recovered from what it carries. */
  lemma OptionalFieldRecovered(x: Option<Vec<byte>>, y: Option<Vec<byte>>)
    requires ValidateOptional(x).Ok? && ValidateOptional(y).Ok?
    requires OrEmpty(x) == OrEmpty(y)
    ensures x == y
  {
  }

  lemma ContextEncodingInjective(c: HybridContext, p: HybridPurpose, d: HybridContext, q: HybridPurpose)
    requires ContextEncoding(c, p).Ok? && ContextEncoding(c, p) == ContextEncoding(d, q)
    ensures c == d
  {
    ContextPrefixInjective(c, [], d, [], 10);
    Pow256Widths();
    assert ContextValue(c, 3) == ContextValue(d, 3);
    BigEndianInjective(c.keyGeneration, d.keyGeneration, 8);
    assert ContextValue(c, 8) == ContextValue(d, 8);
    BigEndianInjective(c.createdAt, d.createdAt, 8);
    assert ContextValue(c, 9) == ContextValue(d, 9);
    BigEndianInjective(c.expiresAt, d.expiresAt, 8);
    assert ContextValue(c, 1) == ContextValue(d, 1) && ContextValue(c, 7) == ContextValue(d, 7);
    assert ContextValue(c, 2) == ContextValue(d, 2) && ContextValue(c, 4) == ContextValue(d, 4);
    assert ContextValue(c, 5) == ContextValue(d, 5) && ContextValue(c, 6) == ContextValue(d, 6);
    assert ContextValue(c, 10) == ContextValue(d, 10);
    OptionalFieldRecovered(c.issuerIdentity, d.issuerIdentity);
    OptionalFieldRecovered(c.transactionId, d.transactionId);
    OptionalFieldRecovered(c.sessionId, d.sessionId);
    OptionalFieldRecovered(c.audience, d.audience);
  }

  lemma TbsBytesInjective(p: HybridPurpose, c: seq<byte>, x: seq<byte>, q: HybridPurpose, d: seq<byte>, y: seq<byte>)
    requires |c| < U32_LIMIT && |x| < U32_LIMIT && |d| < U32_LIMIT && |y| < U32_LIMIT
    requires TbsBytes(p, c, x) == TbsBytes(q, d, y)
    ensures p == q && c == d && x == y
  {
    var start := Ascii(DOMAIN) + Component(ProfileText());
    FieldAssociates(start, Component(PurposeText(p)), Component(c), Component(x));
    FieldAssociates(start, Component(PurposeText(q)), Component(d), Component(y));
    var cx, dy := Component(c) + Component(x), Component(d) + Component(y);
    SplitAtEqualLength(start, Component(PurposeText(p)) + cx, start, Component(PurposeText(q)) + dy);
    ComponentInjective(PurposeText(p), cx, PurposeText(q), dy);
    if p != q { PurposeIdsDiffer(p, q); }
    ComponentInjective(c, Component(x), d, Component(y));
    assert Component(x) + [] == Component(y) + [];
    ComponentInjective(x, [], y, []);
  }

  lemma BuiltTbsInjective(p: HybridPurpose, c: HybridContext, x: seq<byte>,
                          q: HybridPurpose, d: HybridContext, y: seq<byte>)
    requires BuiltTbs(p, c, x).Ok? && BuiltTbs(p, c, x) == BuiltTbs(q, d, y)
    ensures p == q && c == d && x == y
  {
    ContextIsShort(c, p);
    ContextIsShort(d, q);
    TbsBytesInjective(p, ContextEncoding(c, p).value, x, q, ContextEncoding(d, q).value, y);
    ContextEncodingInjective(c, p, d, q);
  }

  lemma CommittedPayloadInjective(u: UnsignedEnvelope, v: UnsignedEnvelope)
    requires CommittedPayload(u) == CommittedPayload(v)
    ensures u.payload == v.payload && u.disclosures == v.disclosures
  {
    Cbor.EncIsPrefixFree(CommittedValue(u), [], CommittedValue(v), []);
    BytesArrayInjective(u.disclosures, v.disclosures);
  }

  lemma BytesArrayInjective(ds: Vec<Vec<byte>>, es: Vec<Vec<byte>>)
    ensures BytesArray(ds) == BytesArray(es) ==> ds == es
  {
    if BytesArray(ds) == BytesArray(es) {
      forall i | 0 <= i < |ds| ensures ds[i] == es[i] {
        assert BytesArray(ds)[i] == BytesArray(es)[i];
      }
    }
  }

  /** Equal signed bytes mean equal purpose, context, payload and ordered disclosures. */
  lemma TbsInjective(u: UnsignedEnvelope, v: UnsignedEnvelope)
    requires Tbs(u).Ok? && Tbs(u) == Tbs(v)
    ensures u.purpose == v.purpose && u.context == v.context
    ensures u.payload == v.payload && u.disclosures == v.disclosures
  {
    BuiltTbsInjective(u.purpose, u.context, CommittedPayload(u), v.purpose, v.context, CommittedPayload(v));
    CommittedPayloadInjective(u, v);
  }

  // ---- The bytes are kept apart from every other signed format ----

  /** Whatever is signed for an envelope starts with the signature domain. */
  lemma TbsStartsWithDomain(u: UnsignedEnvelope)
    requires Tbs(u).Ok?
    ensures Ascii(DOMAIN) <= Tbs(u).value
  {
    var context := ContextEncoding(u.context, u.purpose).value;
    ContextIsShort(u.context, u.purpose);
    var m := TbsBytes(u.purpose, context, CommittedPayload(u));
    assert m[..|Ascii(DOMAIN)|] == Ascii(DOMAIN);
  }

  /** An encoded array does not: its first byte is no ASCII character. */
  lemma ArrayHasNoDomain(items: Vec<Cbor.Value>)
    ensures !(Ascii(DOMAIN) <= Cbor.Enc(Cbor.Array(items)))
  {
    var info := Cbor.ShortestInfo(|items|);
    assert Cbor.Enc(Cbor.Array(items))[0] == Cbor.Head(4, |items|)[0] == (128 + info) as byte;
    assert Ascii(DOMAIN)[0] < 128;
  }

  /** The bytes of a COSE `Sig_structure`, section 4.4 of RFC 9052, as an mdoc signs them. */
  function SigStructure(header: Vec<byte>, payload: Vec<byte>): seq<byte> {
    Cbor.Enc(Cbor.Array([Cbor.Str(AsciiText("Signature1")), Cbor.Bytes(header), Cbor.Bytes([]), Cbor.Bytes(payload)]))
  }

  /** No envelope's signed bytes are those of an mdoc. */
  lemma SigStructureIsNoTbs(header: Vec<byte>, payload: Vec<byte>, u: UnsignedEnvelope)
    ensures Tbs(u) != Ok(SigStructure(header, payload))
  {
    ArrayHasNoDomain([Cbor.Str(AsciiText("Signature1")), Cbor.Bytes(header), Cbor.Bytes([]), Cbor.Bytes(payload)]);
    if Tbs(u).Ok? {
      TbsStartsWithDomain(u);
    }
  }

  // ---- The bytes as they are grown ----

  /** The `Vec<u8>` an encoder appends to. */
  class ByteBuffer {
    var data: seq<byte>

    constructor ()
      ensures data == []
    {
      data := [];
    }

    method ExtendFromSlice(slice: seq<byte>)
      modifies this
      ensures data == old(data) + slice
      ensures old(data) == [] ==> data == slice
    {
      data := data + slice;
    }

    method AppendComponent(component: seq<byte>) returns (r: Result<(), CodecError>)
      modifies this
      ensures r == if |component| < U32_LIMIT then Ok(()) else Err(LengthOverflow)
      ensures data == if |component| < U32_LIMIT then old(data) + Component(component) else old(data)
    {
      if |component| >= U32_LIMIT {
        return Err(LengthOverflow);
      }
      ExtendFromSlice(BigEndian(|component|, 4));
      ExtendFromSlice(component);
      ConcatAssociates(old(data), BigEndian(|component|, 4), component);
      return Ok(());
    }

    method EncodeContextField(tag: byte, value: Option<Vec<byte>>) returns (r: Result<(), CodecError>)
      modifies this
      ensures r == if |OrEmpty(value)| < U32_LIMIT then Ok(()) else Err(LengthOverflow)
      ensures r.Ok? ==> data == old(data) + [tag] + Component(OrEmpty(value))
    {
      ExtendFromSlice([tag]);
      r := AppendComponent(OrEmpty(value));
    }
  }

  /** Each field in turn. After validation the length encoding never overflows. */
  method EncodeFor(c: HybridContext, p: HybridPurpose) returns (r: Result<seq<byte>, CodecError>)
    ensures r == ContextEncoding(c, p)
  {
    var _ :- ValidateCommon(c);
    var _ :- ValidateFor(c, p);
    r := WriteFields(c);
  }

  method WriteFields(c: HybridContext) returns (r: Result<seq<byte>, CodecError>)
    requires ValidateCommon(c).Ok?
    ensures r == Ok(ContextPrefix(c, 10))
  {
    forall tag: nat ensures |ContextValue(c, tag)| < U32_LIMIT { ValidValueIsShort(c, tag); }
    var encoded := new ByteBuffer();
    encoded.ExtendFromSlice(Ascii(CONTEXT_DOMAIN));
    assert encoded.data == ContextPrefix(c, 0);
    var written := encoded.EncodeContextField(1, Some(c.walletIdentity));
    assert |ContextValue(c, 1)| < U32_LIMIT && encoded.data == ContextPrefix(c, 1);
    if written.Err? { return Err(LengthOverflow); }
    written := encoded.EncodeContextField(2, c.issuerIdentity);
    assert |ContextValue(c, 2)| < U32_LIMIT && encoded.data == ContextPrefix(c, 2);
    if written.Err? { return Err(LengthOverflow); }
    written := encoded.EncodeContextField(3, Some(BigEndian(c.keyGeneration, 8)));
    assert |ContextValue(c, 3)| < U32_LIMIT && encoded.data == ContextPrefix(c, 3);
    if written.Err? { return Err(LengthOverflow); }
    written := encoded.EncodeContextField(4, c.transactionId);
    assert |ContextValue(c, 4)| < U32_LIMIT && encoded.data == ContextPrefix(c, 4);
    if written.Err? { return Err(LengthOverflow); }
    written := encoded.EncodeContextField(5, c.sessionId);
    assert |ContextValue(c, 5)| < U32_LIMIT && encoded.data == ContextPrefix(c, 5);
    if written.Err? { return Err(LengthOverflow); }
    written := encoded.EncodeContextField(6, c.audience);
    assert |ContextValue(c, 6)| < U32_LIMIT && encoded.data == ContextPrefix(c, 6);
    if written.Err? { return Err(LengthOverflow); }
    written := encoded.EncodeContextField(7, Some(c.nonce));
    assert |ContextValue(c, 7)| < U32_LIMIT && encoded.data == ContextPrefix(c, 7);
    if written.Err? { return Err(LengthOverflow); }
    written := encoded.EncodeContextField(8, Some(BigEndian(c.createdAt, 8)));
    assert |ContextValue(c, 8)| < U32_LIMIT && encoded.data == ContextPrefix(c, 8);
    if written.Err? { return Err(LengthOverflow); }
    written := encoded.EncodeContextField(9, Some(BigEndian(c.expiresAt, 8)));
    assert |ContextValue(c, 9)| < U32_LIMIT && encoded.data == ContextPrefix(c, 9);
    if written.Err? { return Err(LengthOverflow); }
    written := encoded.EncodeContextField(10, c.transcriptHash);
    assert |ContextValue(c, 10)| < U32_LIMIT && encoded.data == ContextPrefix(c, 10);
    if written.Err? { return Err(LengthOverflow); }
    return Ok(encoded.data);
  }

  method BuildTbs(p: HybridPurpose, c: HybridContext, payload: seq<byte>) returns (r: Result<seq<byte>, CodecError>)
    ensures r == BuiltTbs(p, c, payload)
    ensures r != Err(LengthOverflow)
  {
    if |payload| > MAX_FIELD_BYTES {
      return Err(Oversized);
    }
    var context :- EncodeFor(c, p);
    ContextIsShort(c, p);
    r := WriteComponents(p, context, payload);
  }

  method WriteComponents(p: HybridPurpose, context: seq<byte>, payload: seq<byte>)
    returns (r: Result<seq<byte>, CodecError>)
    requires |context| < U32_LIMIT && |payload| < U32_LIMIT
    ensures r == Ok(TbsBytes(p, context, payload))
  {
    var output := new ByteBuffer();
    output.ExtendFromSlice(Ascii(DOMAIN));
    var written := output.AppendComponent(ProfileText());
    if written.Err? { return Err(LengthOverflow); }
    written := output.AppendComponent(PurposeText(p));
    if written.Err? { return Err(LengthOverflow); }
    written := output.AppendComponent(context);
    if written.Err? { return Err(LengthOverflow); }
    written := output.AppendComponent(payload);
    if written.Err? { return Err(LengthOverflow); }
    return Ok(output.data);
  }
}
