// The three magic-prefixed containers of the hybrid profile: the public-key container, the
// dual-signature container and the credential wrapper.

module HybridEnvelope {
  import opened Prelude
  import opened HybridTypes
  import opened HybridTbs
  import Cbor

  function Magic(): (m: seq<byte>)
    ensures |m| == 35
  {
    Ascii("EUWALLET-EXPERIMENTAL-HYBRID-PQ-V1") + [0]
  }

  datatype PublicComponents = PublicComponents(classical: Vec<byte>, postQuantum: Vec<byte>)

  // ---- Typed access to parsed values ----

  function Integer(v: Cbor.Value): Result<u64, CodecError> {
    if v.UInt? then Ok(v.n) else Err(Malformed)
  }

  function TextOf(v: Cbor.Value): Result<Cbor.Text, CodecError> {
    if v.Str? then Ok(v.text) else Err(Malformed)
  }

  function BytesOf(v: Cbor.Value): Result<Vec<byte>, CodecError> {
    if v.Bytes? then Ok(v.data) else Err(Malformed)
  }

  function ByteStrings(vs: seq<Cbor.Value>): (r: Result<seq<Vec<byte>>, CodecError>)
    ensures r.Ok? ==> |r.value| == |vs|
  {
    if vs == [] then Ok([])
    else
      var first :- BytesOf(vs[0]);
      var others :- ByteStrings(vs[1..]);
      Ok([first] + others)
  }

  function ByteArrayOf(v: Cbor.Value): Result<Vec<Vec<byte>>, CodecError> {
    if v.Array? then
      var ds :- ByteStrings(v.items);
      Ok(ds)
    else Err(Malformed)
  }

  lemma {:induction false} ByteStringsExact(vs: seq<Cbor.Value>, ds: seq<Vec<byte>>)
    ensures ByteStrings(vs) == Ok(ds) <==> |vs| == |ds| && forall i :: 0 <= i < |vs| ==> vs[i] == Cbor.Bytes(ds[i])
  {
    if vs == [] {
    } else if ds == [] {
    } else {
      ByteStringsExact(vs[1..], ds[1..]);
      assert ds == [ds[0]] + ds[1..];
      if ByteStrings(vs) == Ok(ds) {
        assert ByteStrings(vs[1..]).Ok?;
        var others := ByteStrings(vs[1..]).value;
        assert others == ([vs[0].data] + others)[1..] == ds[1..];
        forall i | 0 <= i < |vs| ensures vs[i] == Cbor.Bytes(ds[i]) {
          if i > 0 { assert vs[i] == vs[1..][i - 1] && ds[i] == ds[1..][i - 1]; }
        }
      }
    }
  }

  lemma ByteArrayExact(v: Cbor.Value, ds: Vec<Vec<byte>>)
    ensures ByteArrayOf(v) == Ok(ds) <==> v == Cbor.Array(BytesArray(ds))
  {
    if v.Array? {
      ByteStringsExact(v.items, ds);
      if |v.items| == |ds| && forall i :: 0 <= i < |ds| ==> v.items[i] == Cbor.Bytes(ds[i]) {
        assert v.items == BytesArray(ds);
      }
    }
  }

  // ---- Keys 1, 2, ..., n in order ----

  datatype Field = Field(key: u64, value: Cbor.Value)

  function FieldOf(e: Cbor.Entry): Result<Field, CodecError> {
    if e.key.UInt? then Ok(Field(e.key.n, e.value)) else Err(Malformed)
  }

  /** The wrapper's reading of its keys: none may come twice. */
  function DistinctFields(entries: seq<Cbor.Entry>, seen: set<u64>): Result<seq<Field>, CodecError> {
    if entries == [] then Ok([])
    else
      var f :- FieldOf(entries[0]);
      if f.key in seen then Err(DuplicateField)
      else
        var others :- DistinctFields(entries[1..], seen + {f.key});
        Ok([f] + others)
  }

  /** The component containers' reading of their keys: each must be its position. */
  function PositionalFields(entries: seq<Cbor.Entry>, index: nat): Result<seq<Field>, CodecError> {
    if entries == [] then Ok([])
    else
      var f :- FieldOf(entries[0]);
      if f.key != index + 1 then Err(DuplicateField)
      else
        var others :- PositionalFields(entries[1..], index + 1);
        Ok([f] + others)
  }

  predicate NumberedFrom(fields: seq<Field>, first: nat) {
    forall i :: 0 <= i < |fields| ==> fields[i].key == first + i
  }

  predicate KeyedFrom(entries: seq<Cbor.Entry>, first: nat) {
    forall i :: 0 <= i < |entries| ==> entries[i].key.UInt? && entries[i].key.n == first + i
  }

  /** The fields are the entries, one for one. */
  predicate ReadsThrough(entries: seq<Cbor.Entry>, fields: seq<Field>) {
    |fields| == |entries| &&
    forall i :: 0 <= i < |entries| ==> entries[i] == Cbor.Entry(Cbor.UInt(fields[i].key), fields[i].value)
  }

  lemma ReadsThroughCons(entries: seq<Cbor.Entry>, f: Field, others: seq<Field>)
    requires entries != [] && FieldOf(entries[0]) == Ok(f) && ReadsThrough(entries[1..], others)
    ensures ReadsThrough(entries, [f] + others)
  {
    forall i | 0 <= i < |entries|
      ensures var g := ([f] + others)[i]; entries[i] == Cbor.Entry(Cbor.UInt(g.key), g.value)
    {
      if i > 0 { assert entries[i] == entries[1..][i - 1]; }
    }
  }

  lemma {:induction false} DistinctReadsThrough(entries: seq<Cbor.Entry>, seen: set<u64>)
    requires DistinctFields(entries, seen).Ok?
    ensures ReadsThrough(entries, DistinctFields(entries, seen).value)
  {
    if entries != [] {
      var f := FieldOf(entries[0]).value;
      DistinctReadsThrough(entries[1..], seen + {f.key});
      ReadsThroughCons(entries, f, DistinctFields(entries[1..], seen + {f.key}).value);
    }
  }

  lemma {:induction false} DistinctAcceptsOrder(entries: seq<Cbor.Entry>, first: nat, seen: set<u64>)
    requires KeyedFrom(entries, first) && forall k :: k in seen ==> k < first
    ensures DistinctFields(entries, seen).Ok?
    decreases entries
  {
    if entries != [] {
      DistinctAcceptsOrder(entries[1..], first + 1, seen + {entries[0].key.n});
    }
  }

  lemma {:induction false} PositionalExact(entries: seq<Cbor.Entry>, index: nat)
    ensures PositionalFields(entries, index).Ok? <==> KeyedFrom(entries, index + 1)
    ensures PositionalFields(entries, index).Ok? ==> ReadsThrough(entries, PositionalFields(entries, index).value)
    decreases entries
  {
    if entries != [] {
      PositionalExact(entries[1..], index + 1);
      if PositionalFields(entries, index).Ok? {
        var f := FieldOf(entries[0]).value;
        ReadsThroughCons(entries, f, PositionalFields(entries[1..], index + 1).value);
        forall i | 0 <= i < |entries| ensures entries[i].key.UInt? && entries[i].key.n == index + 1 + i {
          if i > 0 { assert entries[i] == entries[1..][i - 1]; }
        }
      }
    }
  }

  lemma ReadingIsUnique(entries: seq<Cbor.Entry>, fs: seq<Field>, gs: seq<Field>)
    requires ReadsThrough(entries, fs) && ReadsThrough(entries, gs)
    ensures fs == gs
  {
    forall i | 0 <= i < |entries| ensures fs[i] == gs[i] {
      assert entries[i].key == Cbor.UInt(fs[i].key) && entries[i].key == Cbor.UInt(gs[i].key);
    }
  }

  /** The fields the wrapper's reader passes on: keys 1..n, read with a set of keys seen so far. */
  function OrderedFields(entries: seq<Cbor.Entry>, count: nat): Result<seq<Field>, CodecError> {
    var fields :- DistinctFields(entries, {});
    if |fields| != count || !NumberedFrom(fields, 1) then Err(Missing) else Ok(fields)
  }

  /** Both readings accept the same key sequences, namely 1, 2, ..., n in order, and read the same fields. */
  lemma BothReadingsAgree(entries: seq<Cbor.Entry>, count: nat)
    ensures OrderedFields(entries, count).Ok? <==> |entries| == count && KeyedFrom(entries, 1)
    ensures OrderedFields(entries, count).Ok? <==> |entries| == count && PositionalFields(entries, 0).Ok?
    ensures OrderedFields(entries, count).Ok? ==> OrderedFields(entries, count) == PositionalFields(entries, 0)
  {
    PositionalExact(entries, 0);
    if DistinctFields(entries, {}).Ok? {
      DistinctReadsThrough(entries, {});
    }
    if KeyedFrom(entries, 1) {
      DistinctAcceptsOrder(entries, 1, {});
      ReadingIsUnique(entries, DistinctFields(entries, {}).value, PositionalFields(entries, 0).value);
    }
  }

  // ---- The same readings, as loops ----

  method ReadDistinct(entries: seq<Cbor.Entry>) returns (r: Result<seq<Field>, CodecError>)
    ensures r == DistinctFields(entries, {})
  {
    var seen: set<u64>, fields: seq<Field> := {}, [];
    assert entries[0..] == entries && forall others: seq<Field> :: fields + others == others;
    for i := 0 to |entries|
      invariant DistinctFields(entries, {}) ==
        match DistinctFields(entries[i..], seen) case Ok(others) => Ok(fields + others) case Err(e) => Err(e)
    {
      assert entries[i..][0] == entries[i] && entries[i..][1..] == entries[i + 1..];
      var f := FieldOf(entries[i]);
      if f.Err? { return Err(Malformed); }
      if f.value.key in seen { return Err(DuplicateField); }
      seen := seen + {f.value.key};
      ghost var rest := DistinctFields(entries[i + 1..], seen);
      if rest.Ok? { ConcatAssociates(fields, [f.value], rest.value); }
      fields := fields + [f.value];
    }
    assert fields + [] == fields;
    return Ok(fields);
  }

  method ReadPositional(entries: seq<Cbor.Entry>) returns (r: Result<seq<Field>, CodecError>)
    ensures r == PositionalFields(entries, 0)
  {
    var fields: seq<Field> := [];
    assert entries[0..] == entries && forall others: seq<Field> :: fields + others == others;
    for i := 0 to |entries|
      invariant PositionalFields(entries, 0) ==
        match PositionalFields(entries[i..], i) case Ok(others) => Ok(fields + others) case Err(e) => Err(e)
    {
      assert entries[i..][0] == entries[i] && entries[i..][1..] == entries[i + 1..];
      var f := FieldOf(entries[i]);
      if f.Err? { return Err(Malformed); }
      if f.value.key != i + 1 { return Err(DuplicateField); }
      ghost var rest := PositionalFields(entries[i + 1..], i + 1);
      if rest.Ok? { ConcatAssociates(fields, [f.value], rest.value); }
      fields := fields + [f.value];
    }
    assert fields + [] == fields;
    return Ok(fields);
  }

  // ---- The credential wrapper ----

  /** A canonical map and nothing after it. */
  function StrictMap(body: seq<byte>): Result<Vec<Cbor.Entry>, CodecError> {
    match Cbor.ReadStrict(body)
    case Err(NotCbor) => Err(Malformed)
    case Err(NotCanonical) => Err(NonCanonical)
    case Ok(v) => if v.Map? then Ok(v.entries) else Err(Malformed)
  }

  lemma StrictMapExact(body: seq<byte>, entries: Vec<Cbor.Entry>)
    ensures StrictMap(body) == Ok(entries) <==> body == Cbor.Enc(Cbor.Map(entries))
  {
    Cbor.ReadStrictExact(body, Cbor.Map(entries));
    match Cbor.ReadStrict(body)
    case Ok(v) => Cbor.ReadStrictExact(body, v);
    case Err(_) =>
  }

  function RequireKid(kid: seq<byte>): Result<(), CodecError> {
    if kid == [] then Err(Malformed) else if |kid| > MAX_KEY_ID_BYTES then Err(Oversized) else Ok(())
  }

  function RequireEach(ds: seq<Vec<byte>>): Result<(), CodecError> {
    if ds == [] then Ok(())
    else
      var _ :- RequireNonemptyBounded(ds[0]);
      RequireEach(ds[1..])
  }

  lemma {:induction false} RequireEachExact(ds: seq<Vec<byte>>)
    ensures RequireEach(ds).Ok? <==> forall i :: 0 <= i < |ds| ==> Bounded(ds[i])
  {
    if ds != [] {
      RequireEachExact(ds[1..]);
      assert forall i :: 1 <= i < |ds| ==> ds[i] == ds[1..][i - 1];
      assert RequireEach(ds).Ok? ==> Bounded(ds[0]);
    }
  }

  /** What the wrapper format allows its parts to be. */
  predicate Legal(u: UnsignedEnvelope, s: EnvelopeSignatures) {
    && |s.classical| == CLASSICAL_SIGNATURE_BYTES && |s.postQuantum| == PQ_SIGNATURE_BYTES
    && Bounded(u.payload)
    && (forall i :: 0 <= i < |u.disclosures| ==> Bounded(u.disclosures[i]))
    && 1 <= |u.classicalKid| <= MAX_KEY_ID_BYTES && 1 <= |u.pqKid| <= MAX_KEY_ID_BYTES
    && u.generation != 0
  }

  /** The value under key `i + 1` of the wrapper. */
  function WrapperField(u: UnsignedEnvelope, s: EnvelopeSignatures, i: nat): Cbor.Value {
    match i
    case 0 => Cbor.UInt(VERSION)
    case 1 => Cbor.Str(ProfileText())
    case 2 => Cbor.Str(PurposeText(u.purpose))
    case 3 => Cbor.Str(FormatText())
    case 4 => Cbor.Bytes(u.payload)
    case 5 => Cbor.Array(BytesArray(u.disclosures))
    case 6 => Cbor.Str(u.classicalKid)
    case 7 => Cbor.Str(u.pqKid)
    case 8 => Cbor.UInt(u.generation)
    case 9 => Cbor.Bytes(s.classical)
    case _ => Cbor.Bytes(s.postQuantum)
  }

  function WrapperEntries(u: UnsignedEnvelope, s: EnvelopeSignatures): (es: Vec<Cbor.Entry>)
    ensures |es| == 11
  {
    seq(11, i requires 0 <= i < 11 => Pair(i + 1, WrapperField(u, s, i)))
  }

  /** The one spelling of a wrapper. */
  function WrapperBytes(u: UnsignedEnvelope, s: EnvelopeSignatures): seq<byte> {
    Magic() + Cbor.Enc(Cbor.Map(WrapperEntries(u, s)))
  }

  function EncodedEnvelope(u: UnsignedEnvelope, s: EnvelopeSignatures): Result<seq<byte>, CodecError> {
    if |s.classical| != CLASSICAL_SIGNATURE_BYTES || |s.postQuantum| != PQ_SIGNATURE_BYTES then Err(Missing)
    else
      var _ :- RequireNonemptyBounded(u.payload);
      var _ :- RequireEach(u.disclosures);
      var _ :- RequireKid(u.classicalKid);
      var _ :- RequireKid(u.pqKid);
      if u.generation == 0 then Err(GenerationMismatch)
      else
        var encoded := WrapperBytes(u, s);
        if |encoded| > MAX_ENVELOPE_BYTES then Err(Oversized) else Ok(encoded)
  }

  type Opened = (UnsignedEnvelope, EnvelopeSignatures)

  /** Version, profile, purpose and format: the fields that must be what the reader expects. */
  function CheckedHeader(fields: seq<Field>, purpose: HybridPurpose): Result<HybridPurpose, CodecError>
    requires |fields| == 11
  {
    var version :- Integer(fields[0].value);
    var profile :- TextOf(fields[1].value);
    var id :- TextOf(fields[2].value);
    var found :- PurposeFromText(id);
    var format :- TextOf(fields[3].value);
    if version != VERSION || profile != ProfileText() || found != purpose || format != FormatText()
    then Err(Unsupported) else Ok(found)
  }

  function DecodedBody(fields: seq<Field>, purpose: HybridPurpose, context: HybridContext): Result<Opened, CodecError>
    requires |fields| == 11
  {
    var payload :- BytesOf(fields[4].value);
    var _ :- RequireNonemptyBounded(payload);
    var disclosures :- ByteArrayOf(fields[5].value);
    var _ :- RequireEach(disclosures);
    var classicalKid :- TextOf(fields[6].value);
    var pqKid :- TextOf(fields[7].value);
    var _ :- RequireKid(classicalKid);
    var _ :- RequireKid(pqKid);
    var generation :- Integer(fields[8].value);
    if generation == 0 then Err(GenerationMismatch)
    else
      var classical :- BytesOf(fields[9].value);
      var postQuantum :- BytesOf(fields[10].value);
      if |classical| != CLASSICAL_SIGNATURE_BYTES || |postQuantum| != PQ_SIGNATURE_BYTES then Err(Missing)
      else
        Ok((UnsignedEnvelope(purpose, context, payload, disclosures, classicalKid, pqKid, generation),
            EnvelopeSignatures(classical, postQuantum)))
  }

  function DecodedEnvelope(encoded: seq<byte>, purpose: HybridPurpose, context: HybridContext)
    : Result<Opened, CodecError>
  {
    if |encoded| > MAX_ENVELOPE_BYTES || !(Magic() <= encoded) then Err(Oversized)
    else
      var entries :- StrictMap(encoded[|Magic()|..]);
      var fields :- OrderedFields(entries, 11);
      var found :- CheckedHeader(fields, purpose);
      DecodedBody(fields, found, context)
  }

  lemma EncodedExact(u: UnsignedEnvelope, s: EnvelopeSignatures, b: seq<byte>)
    ensures EncodedEnvelope(u, s) == Ok(b) <==> Legal(u, s) && b == WrapperBytes(u, s) && |b| <= MAX_ENVELOPE_BYTES
  {
    RequireEachExact(u.disclosures);
  }

  lemma CheckedHeaderExact(fields: seq<Field>, p: HybridPurpose, u: UnsignedEnvelope, s: EnvelopeSignatures)
    requires |fields| == 11 && u.purpose == p
    ensures CheckedHeader(fields, p).Ok? ==> CheckedHeader(fields, p).value == p
    ensures CheckedHeader(fields, p).Ok? <==>
            && fields[0].value == WrapperField(u, s, 0) && fields[1].value == WrapperField(u, s, 1)
            && fields[2].value == WrapperField(u, s, 2) && fields[3].value == WrapperField(u, s, 3)
  {
    if fields[2].value.Str? {
      PurposeTextRoundTrip(p, fields[2].value.text);
    }
  }

  predicate BodyFieldsMatch(fields: seq<Field>, u: UnsignedEnvelope, s: EnvelopeSignatures)
    requires |fields| == 11
  {
    && fields[4].value == Cbor.Bytes(u.payload)
    && fields[5].value == Cbor.Array(BytesArray(u.disclosures))
    && fields[6].value == Cbor.Str(u.classicalKid)
    && fields[7].value == Cbor.Str(u.pqKid)
    && fields[8].value == Cbor.UInt(u.generation)
    && fields[9].value == Cbor.Bytes(s.classical)
    && fields[10].value == Cbor.Bytes(s.postQuantum)
  }

  lemma DecodedBodySound(fields: seq<Field>, p: HybridPurpose, c: HybridContext)
    requires |fields| == 11 && DecodedBody(fields, p, c).Ok?
    ensures
      var (u, s) := DecodedBody(fields, p, c).value;
      Legal(u, s) && u.purpose == p && u.context == c && BodyFieldsMatch(fields, u, s)
  {
    var ds := ByteArrayOf(fields[5].value).value;
    RequireEachExact(ds);
    ByteArrayExact(fields[5].value, ds);
  }

  lemma DecodedBodyComplete(fields: seq<Field>, u: UnsignedEnvelope, s: EnvelopeSignatures)
    requires |fields| == 11 && Legal(u, s) && BodyFieldsMatch(fields, u, s)
    ensures DecodedBody(fields, u.purpose, u.context) == Ok((u, s))
  {
    RequireEachExact(u.disclosures);
    ByteArrayExact(fields[5].value, u.disclosures);
  }

  lemma WrapperFieldsMatch(fields: seq<Field>, u: UnsignedEnvelope, s: EnvelopeSignatures)
    requires |fields| == 11
    ensures (forall i :: 0 <= i < 11 ==> fields[i].value == WrapperField(u, s, i)) <==>
            && BodyFieldsMatch(fields, u, s)
            && fields[0].value == WrapperField(u, s, 0) && fields[1].value == WrapperField(u, s, 1)
            && fields[2].value == WrapperField(u, s, 2) && fields[3].value == WrapperField(u, s, 3)
  {
  }

  /** Numbered fields that carry the wrapper's values come from the wrapper's entries. */
  lemma WrapperEntriesRead(entries: seq<Cbor.Entry>, fields: seq<Field>, u: UnsignedEnvelope, s: EnvelopeSignatures)
    requires ReadsThrough(entries, fields) && |fields| == 11 && NumberedFrom(fields, 1)
    ensures entries == WrapperEntries(u, s) <==> forall i :: 0 <= i < 11 ==> fields[i].value == WrapperField(u, s, i)
  {
    var es := WrapperEntries(u, s);
    forall i | 0 <= i < 11 ensures entries[i] == es[i] <==> fields[i].value == WrapperField(u, s, i) {
      assert entries[i] == Cbor.Entry(Cbor.UInt(fields[i].key), fields[i].value);
      assert es[i] == Pair(i + 1, WrapperField(u, s, i));
    }
    if forall i :: 0 <= i < 11 ==> fields[i].value == WrapperField(u, s, i) {
      assert forall i :: 0 <= i < 11 ==> entries[i] == es[i];
    }
  }

  lemma MagicStripped(encoded: seq<byte>, body: seq<byte>)
    ensures Magic() <= encoded && encoded[|Magic()|..] == body <==> encoded == Magic() + body
  {
    if Magic() <= encoded {
      assert encoded == Magic() + encoded[|Magic()|..];
    }
  }

  /** Whatever the decoder yields, encoding it gives the very bytes that were decoded. */
  lemma DecodedEnvelopeSound(b: seq<byte>, p: HybridPurpose, c: HybridContext)
    requires DecodedEnvelope(b, p, c).Ok?
    ensures
      var (u, s) := DecodedEnvelope(b, p, c).value;
      EncodedEnvelope(u, s) == Ok(b) && u.purpose == p && u.context == c
  {
    var entries := StrictMap(b[|Magic()|..]).value;
    var fields := OrderedFields(entries, 11).value;
    DistinctReadsThrough(entries, {});
    var (u, s) := DecodedEnvelope(b, p, c).value;
    CheckedHeaderExact(fields, p, u.(purpose := p), s);
    DecodedBodySound(fields, p, c);
    WrapperFieldsMatch(fields, u, s);
    WrapperEntriesRead(entries, fields, u, s);
    StrictMapExact(b[|Magic()|..], entries);
    MagicStripped(b, b[|Magic()|..]);
    EncodedExact(u, s, b);
  }

  /** Whatever the encoder writes is decoded, under its purpose and context, to what was encoded. */
  lemma DecodedEnvelopeComplete(u: UnsignedEnvelope, s: EnvelopeSignatures)
    requires EncodedEnvelope(u, s).Ok?
    ensures DecodedEnvelope(EncodedEnvelope(u, s).value, u.purpose, u.context) == Ok((u, s))
  {
    var b := EncodedEnvelope(u, s).value;
    EncodedExact(u, s, b);
    var entries := WrapperEntries(u, s);
    MagicStripped(b, Cbor.Enc(Cbor.Map(entries)));
    StrictMapExact(b[|Magic()|..], entries);
    BothReadingsAgree(entries, 11);
    var fields := OrderedFields(entries, 11).value;
    DistinctReadsThrough(entries, {});
    WrapperEntriesRead(entries, fields, u, s);
    WrapperFieldsMatch(fields, u, s);
    CheckedHeaderExact(fields, u.purpose, u, s);
    DecodedBodyComplete(fields, u, s);
  }

  /** Decoding and encoding are inverse: each wrapper has exactly one accepted spelling. */
  lemma WrapperCodecExact(b: seq<byte>, p: HybridPurpose, c: HybridContext, u: UnsignedEnvelope, s: EnvelopeSignatures)
    ensures DecodedEnvelope(b, p, c) == Ok((u, s))
        <==> EncodedEnvelope(u, s) == Ok(b) && u.purpose == p && u.context == c
  {
    if DecodedEnvelope(b, p, c) == Ok((u, s)) {
      DecodedEnvelopeSound(b, p, c);
    }
    if EncodedEnvelope(u, s) == Ok(b) {
      DecodedEnvelopeComplete(u, s);
    }
  }

  /** Which part stands under which key. */
  lemma WrapperLayout(u: UnsignedEnvelope, s: EnvelopeSignatures, b: seq<byte>)
    requires EncodedEnvelope(u, s) == Ok(b)
    ensures b == Magic() + Cbor.Enc(Cbor.Map([
      Pair(1, Cbor.UInt(VERSION)), Pair(2, Cbor.Str(ProfileText())), Pair(3, Cbor.Str(PurposeText(u.purpose))),
      Pair(4, Cbor.Str(FormatText())), Pair(5, Cbor.Bytes(u.payload)), Pair(6, Cbor.Array(BytesArray(u.disclosures))),
      Pair(7, Cbor.Str(u.classicalKid)), Pair(8, Cbor.Str(u.pqKid)), Pair(9, Cbor.UInt(u.generation)),
      Pair(10, Cbor.Bytes(s.classical)), Pair(11, Cbor.Bytes(s.postQuantum))]))
  {
    hide Cbor.Enc, Magic, ProfileText, FormatText, PurposeText, BytesArray;
    var es: Vec<Cbor.Entry> := [
      Pair(1, Cbor.UInt(VERSION)), Pair(2, Cbor.Str(ProfileText())), Pair(3, Cbor.Str(PurposeText(u.purpose))),
      Pair(4, Cbor.Str(FormatText())), Pair(5, Cbor.Bytes(u.payload)), Pair(6, Cbor.Array(BytesArray(u.disclosures))),
      Pair(7, Cbor.Str(u.classicalKid)), Pair(8, Cbor.Str(u.pqKid)), Pair(9, Cbor.UInt(u.generation)),
      Pair(10, Cbor.Bytes(s.classical)), Pair(11, Cbor.Bytes(s.postQuantum))];
    assert es == WrapperEntries(u, s);
  }

  // ---- The wrapper's encoder and decoder as they run ----

  method Encode(u: UnsignedEnvelope, s: EnvelopeSignatures) returns (r: Result<seq<byte>, CodecError>)
    ensures r == EncodedEnvelope(u, s)
  {
    if |s.classical| != CLASSICAL_SIGNATURE_BYTES || |s.postQuantum| != PQ_SIGNATURE_BYTES {
      return Err(Missing);
    }
    var _ :- RequireNonemptyBounded(u.payload);
    var _ :- CheckDisclosures(u.disclosures);
    var _ :- RequireKid(u.classicalKid);
    var _ :- RequireKid(u.pqKid);
    if u.generation == 0 {
      return Err(GenerationMismatch);
    }
    var encoded := new ByteBuffer();
    encoded.ExtendFromSlice(Magic());
    encoded.ExtendFromSlice(Cbor.Enc(Cbor.Map(WrapperEntries(u, s))));
    if |encoded.data| > MAX_ENVELOPE_BYTES {
      return Err(Oversized);
    }
    return Ok(encoded.data);
  }

  method CheckDisclosures(ds: seq<Vec<byte>>) returns (r: Result<(), CodecError>)
    ensures r == RequireEach(ds)
  {
    for i := 0 to |ds|
      invariant RequireEach(ds) == RequireEach(ds[i..])
    {
      assert ds[i..][0] == ds[i] && ds[i..][1..] == ds[i + 1..];
      var _ :- RequireNonemptyBounded(ds[i]);
    }
    return Ok(());
  }

  method Decode(encoded: seq<byte>, purpose: HybridPurpose, context: HybridContext)
    returns (r: Result<Opened, CodecError>)
    ensures r == DecodedEnvelope(encoded, purpose, context)
  {
    if |encoded| > MAX_ENVELOPE_BYTES || !(Magic() <= encoded) {
      return Err(Oversized);
    }
    var entries :- StrictMap(encoded[|Magic()|..]);
    var fields :- ReadDistinct(entries);
    if |fields| != 11 || !NumberedFrom(fields, 1) {
      return Err(Missing);
    }
    var found :- CheckedHeader(fields, purpose);
    return DecodedBody(fields, found, context);
  }

  // ---- The component containers ----

  /** Entries keyed 1..n carrying the given values. */
  function Numbered(values: seq<Cbor.Value>): (es: Vec<Cbor.Entry>)
    requires |values| < 100
    ensures |es| == |values| && KeyedFrom(es, 1)
  {
    seq(|values|, i requires 0 <= i < |values| => Pair(i + 1, values[i]))
  }

  function EncodedComponent(values: seq<Cbor.Value>): Result<seq<byte>, CodecError>
    requires |values| < 100
  {
    var encoded := Magic() + Cbor.Enc(Cbor.Map(Numbered(values)));
    if |encoded| > MAX_COMPONENT_ENVELOPE_BYTES then Err(Oversized) else Ok(encoded)
  }

  /** The values under keys 1..count of a container that holds exactly those. */
  function DecodedComponent(encoded: seq<byte>, count: nat): (r: Result<seq<Field>, CodecError>)
    ensures r.Ok? ==> |r.value| == count
  {
    if |encoded| > MAX_COMPONENT_ENVELOPE_BYTES then Err(Oversized)
    else if !(Magic() <= encoded) then Err(Malformed)
    else
      var entries :- StrictMap(encoded[|Magic()|..]);
      if |entries| != count then Err(Missing)
      else
        PositionalExact(entries, 0);
        PositionalFields(entries, 0)
  }

  predicate Carries(fields: seq<Field>, values: seq<Cbor.Value>) {
    |fields| == |values| && forall i :: 0 <= i < |values| ==> fields[i].value == values[i]
  }

  lemma ComponentExact(b: seq<byte>, values: seq<Cbor.Value>)
    requires |values| < 100
    ensures EncodedComponent(values) == Ok(b) <==>
            DecodedComponent(b, |values|).Ok? && Carries(DecodedComponent(b, |values|).value, values)
  {
    var es := Numbered(values);
    if EncodedComponent(values) == Ok(b) {
      MagicStripped(b, Cbor.Enc(Cbor.Map(es)));
      StrictMapExact(b[|Magic()|..], es);
      PositionalExact(es, 0);
      var fields := PositionalFields(es, 0).value;
      forall i | 0 <= i < |values| ensures fields[i].value == values[i] {
        assert es[i] == Cbor.Entry(Cbor.UInt(fields[i].key), fields[i].value);
      }
    }
    if DecodedComponent(b, |values|).Ok? && Carries(DecodedComponent(b, |values|).value, values) {
      var entries := StrictMap(b[|Magic()|..]).value;
      var fields := DecodedComponent(b, |values|).value;
      PositionalExact(entries, 0);
      forall i | 0 <= i < |values| ensures entries[i] == es[i] {
        assert entries[i] == Cbor.Entry(Cbor.UInt(fields[i].key), fields[i].value);
        assert fields[i].value == values[i];
      }
      assert entries == es;
      StrictMapExact(b[|Magic()|..], entries);
      MagicStripped(b, b[|Magic()|..]);
    }
  }

  predicate LegalPublic(k: PublicComponents) {
    |k.classical| == 65 && k.classical[0] == 0x04 && |k.postQuantum| == PQ_PUBLIC_KEY_BYTES
  }

  function PublicValues(k: PublicComponents): seq<Cbor.Value> {
    [Cbor.UInt(VERSION), Cbor.UInt(1), Cbor.Str(ProfileText()), Cbor.Bytes(k.classical), Cbor.Bytes(k.postQuantum)]
  }

  function EncodedPublicKey(k: PublicComponents): Result<seq<byte>, CodecError> {
    if !LegalPublic(k) then Err(Malformed) else EncodedComponent(PublicValues(k))
  }

  /** Version, kind and profile, each refused as soon as it is read. */
  function CheckedKind(fields: seq<Field>, kind: u64): Result<(), CodecError>
    requires |fields| >= 3
  {
    var version :- Integer(fields[0].value);
    if version != VERSION then Err(Unsupported)
    else
      var found :- Integer(fields[1].value);
      if found != kind then Err(Unsupported)
      else
        var profile :- TextOf(fields[2].value);
        if profile != ProfileText() then Err(Unsupported) else Ok(())
  }

  function DecodedPublicKey(encoded: seq<byte>): Result<PublicComponents, CodecError> {
    var fields :- DecodedComponent(encoded, 5);
    var _ :- CheckedKind(fields, 1);
    var classical :- BytesOf(fields[3].value);
    var postQuantum :- BytesOf(fields[4].value);
    var k := PublicComponents(classical, postQuantum);
    if !LegalPublic(k) then Err(Malformed) else Ok(k)
  }

  function SignatureValues(p: HybridPurpose, s: EnvelopeSignatures): seq<Cbor.Value> {
    [ Cbor.UInt(VERSION), Cbor.UInt(2), Cbor.Str(ProfileText()), Cbor.Bytes(s.classical),
      Cbor.Bytes(s.postQuantum), Cbor.Str(PurposeText(p)) ]
  }

  predicate LegalSignatures(s: EnvelopeSignatures) {
    |s.classical| == CLASSICAL_SIGNATURE_BYTES && |s.postQuantum| == PQ_SIGNATURE_BYTES
  }

  function EncodedSignatures(p: HybridPurpose, s: EnvelopeSignatures): Result<seq<byte>, CodecError> {
    if !LegalSignatures(s) then Err(Missing) else EncodedComponent(SignatureValues(p, s))
  }

  function DecodedSignatures(encoded: seq<byte>, expected: HybridPurpose): Result<EnvelopeSignatures, CodecError> {
    var fields :- DecodedComponent(encoded, 6);
    var id :- TextOf(fields[5].value);
    var purpose :- PurposeFromText(id);
    var _ :- CheckedKind(fields, 2);
    if purpose != expected then Err(Unsupported)
    else
      var classical :- BytesOf(fields[3].value);
      var postQuantum :- BytesOf(fields[4].value);
      var s := EnvelopeSignatures(classical, postQuantum);
      if !LegalSignatures(s) then Err(Missing) else Ok(s)
  }

  lemma CheckedKindExact(fields: seq<Field>, kind: u64)
    requires |fields| >= 3
    ensures CheckedKind(fields, kind).Ok? <==>
            && fields[0].value == Cbor.UInt(VERSION) && fields[1].value == Cbor.UInt(kind)
            && fields[2].value == Cbor.Str(ProfileText())
  {
  }

  /** The public-key container has one spelling, and reading it back gives what was written. */
  lemma PublicKeyCodecExact(b: seq<byte>, k: PublicComponents)
    ensures DecodedPublicKey(b) == Ok(k) <==> EncodedPublicKey(k) == Ok(b)
  {
    hide DecodedComponent, EncodedComponent;
    var values := PublicValues(k);
    ComponentExact(b, values);
    if DecodedComponent(b, 5).Ok? {
      var fields := DecodedComponent(b, 5).value;
      CheckedKindExact(fields, 1);
      assert Carries(fields, values) <==>
             && fields[0].value == values[0] && fields[1].value == values[1] && fields[2].value == values[2]
             && fields[3].value == values[3] && fields[4].value == values[4];
    }
  }

  lemma CarriesSix(fields: seq<Field>, values: seq<Cbor.Value>)
    requires |fields| == |values| == 6
    ensures Carries(fields, values) <==>
            && fields[0].value == values[0] && fields[1].value == values[1] && fields[2].value == values[2]
            && fields[3].value == values[3] && fields[4].value == values[4] && fields[5].value == values[5]
  {
  }

  /** The signature container has one spelling per purpose, and reading it back gives what was written. */
  lemma SignatureCodecExact(b: seq<byte>, p: HybridPurpose, s: EnvelopeSignatures)
    ensures DecodedSignatures(b, p) == Ok(s) <==> EncodedSignatures(p, s) == Ok(b)
  {
    hide DecodedComponent, EncodedComponent;
    var values := SignatureValues(p, s);
    ComponentExact(b, values);
    if DecodedComponent(b, 6).Ok? {
      var fields := DecodedComponent(b, 6).value;
      CheckedKindExact(fields, 2);
      if fields[5].value.Str? { PurposeTextRoundTrip(p, fields[5].value.text); }
      CarriesSix(fields, values);
    }
  }

  method DecodeComponent(encoded: seq<byte>, count: nat) returns (r: Result<seq<Field>, CodecError>)
    ensures r == DecodedComponent(encoded, count)
  {
    if |encoded| > MAX_COMPONENT_ENVELOPE_BYTES {
      return Err(Oversized);
    }
    if !(Magic() <= encoded) {
      return Err(Malformed);
    }
    var entries :- StrictMap(encoded[|Magic()|..]);
    if |entries| != count {
      return Err(Missing);
    }
    r := ReadPositional(entries);
  }

  // ---- The three containers never overlap ----

  /** How many entries a container's map has, when the bytes are a container at all. */
  function EntryCount(b: seq<byte>): Option<nat> {
    if Magic() <= b && StrictMap(b[|Magic()|..]).Ok? then Some(|StrictMap(b[|Magic()|..]).value|) else None
  }

  /** No byte string is accepted by two of the three decoders, whatever they expect. */
  lemma ContainersDisjoint(b: seq<byte>, p: HybridPurpose, c: HybridContext, q: HybridPurpose)
    ensures DecodedEnvelope(b, p, c).Ok? ==> EntryCount(b) == Some(11)
    ensures DecodedPublicKey(b).Ok? ==> EntryCount(b) == Some(5)
    ensures DecodedSignatures(b, q).Ok? ==> EntryCount(b) == Some(6)
    ensures !(DecodedEnvelope(b, p, c).Ok? && DecodedPublicKey(b).Ok?)
    ensures !(DecodedEnvelope(b, p, c).Ok? && DecodedSignatures(b, q).Ok?)
    ensures !(DecodedPublicKey(b).Ok? && DecodedSignatures(b, q).Ok?)
  {
    if DecodedEnvelope(b, p, c).Ok? {
      DistinctReadsThrough(StrictMap(b[|Magic()|..]).value, {});
    }
  }

  // ---- Sizes ----

  lemma {:induction false} EntriesSize(es: seq<Cbor.Entry>, bound: nat)
    requires forall i :: 0 <= i < |es| ==> |Cbor.EncEntry(es[i])| <= bound
    ensures |Cbor.EncEntries(es)| <= |es| * bound
  {
    if es != [] {
      MultiplyOnce(|es|, bound);
      EntriesSize(es[1..], bound);
    }
  }

  lemma {:induction false} EntriesConcat(es: seq<Cbor.Entry>, fs: seq<Cbor.Entry>)
    ensures Cbor.EncEntries(es + fs) == Cbor.EncEntries(es) + Cbor.EncEntries(fs)
  {
    if es == [] {
      assert es + fs == fs;
    } else {
      assert (es + fs)[1..] == es[1..] + fs;
      EntriesConcat(es[1..], fs);
      ConcatAssociates(Cbor.EncEntry(es[0]), Cbor.EncEntries(es[1..]), Cbor.EncEntries(fs));
    }
  }

  lemma {:induction false} ItemFits(items: seq<Cbor.Value>, i: nat)
    requires i < |items|
    ensures |Cbor.Enc(items[i])| <= |Cbor.EncItems(items)|
  {
    if i > 0 {
      ItemFits(items[1..], i - 1);
    }
  }

  /** The committed payload holds the encodings of the payload and of the disclosures. */
  lemma CommittedPayloadSize(u: UnsignedEnvelope)
    ensures |CommittedPayload(u)| >= |Cbor.Enc(Cbor.Bytes(u.payload))|
        + |Cbor.Enc(Cbor.Array(BytesArray(u.disclosures)))|
    ensures |u.payload| <= |CommittedPayload(u)|
    ensures forall i :: 0 <= i < |u.disclosures| ==> |u.disclosures[i]| <= |CommittedPayload(u)|
  {
    var first, second := Pair(1, Cbor.Bytes(u.payload)), Pair(2, Cbor.Array(BytesArray(u.disclosures)));
    assert [first, second][1..] == [second] && [second][1..] == [];
    assert Cbor.EncEntries([second]) == Cbor.EncEntry(second) + [];
    assert Cbor.EncEntries([first, second]) == Cbor.EncEntry(first) + Cbor.EncEntries([second]);
    forall i | 0 <= i < |u.disclosures| ensures |u.disclosures[i]| <= |CommittedPayload(u)| {
      ItemFits(BytesArray(u.disclosures), i);
      assert BytesArray(u.disclosures)[i] == Cbor.Bytes(u.disclosures[i]);
    }
  }

  lemma WrapperFieldSize(u: UnsignedEnvelope, s: EnvelopeSignatures, i: nat)
    requires i < 11 && LegalSignatures(s) && |u.classicalKid| <= MAX_KEY_ID_BYTES && |u.pqKid| <= MAX_KEY_ID_BYTES
    requires |CommittedPayload(u)| <= MAX_FIELD_BYTES
    ensures |Cbor.EncEntry(Pair(i + 1, WrapperField(u, s, i)))| <= 4200
  {
    CommittedPayloadSize(u);
  }

  /** What can be signed can be wrapped: the wrapper's size limit is never what stops an envelope. */
  lemma SignableFitsWrapper(u: UnsignedEnvelope, s: EnvelopeSignatures)
    requires Tbs(u).Ok? && LegalSignatures(s)
    requires u.payload != [] && forall i :: 0 <= i < |u.disclosures| ==> u.disclosures[i] != []
    requires RequireKid(u.classicalKid).Ok? && RequireKid(u.pqKid).Ok? && u.generation != 0
    ensures EncodedEnvelope(u, s).Ok?
  {
    CommittedPayloadSize(u);
    var es := WrapperEntries(u, s);
    forall i | 0 <= i < 11 ensures |Cbor.EncEntry(es[i])| <= 4200 {
      WrapperFieldSize(u, s, i);
    }
    EntriesSize(es, 4200);
    EncodedExact(u, s, WrapperBytes(u, s));
  }

  lemma ComponentSize(values: seq<Cbor.Value>, small: nat, large: nat)
    requires 4 <= |values| <= 6 && small <= 100 && large <= 3400
    requires forall i :: 0 <= i < |values| ==> |Cbor.EncEntry(Numbered(values)[i])| <= if i < 4 then small else large
    ensures EncodedComponent(values).Ok?
  {
    var es := Numbered(values);
    var front, back := es[..4], es[4..];
    forall i | 0 <= i < 4 ensures |Cbor.EncEntry(front[i])| <= small { assert front[i] == es[i]; }
    forall i | 0 <= i < |back| ensures |Cbor.EncEntry(back[i])| <= large { assert back[i] == es[i + 4]; }
    EntriesSize(front, 100);
    EntriesSize(back, 3400);
    EntriesConcat(front, back);
    assert es == front + back;
  }

  /** Neither component encoder ever reports an oversized container. */
  lemma ComponentsFit(k: PublicComponents, p: HybridPurpose, s: EnvelopeSignatures)
    ensures EncodedPublicKey(k).Ok? <==> LegalPublic(k)
    ensures EncodedSignatures(p, s).Ok? <==> LegalSignatures(s)
  {
    if LegalPublic(k) {
      var values := PublicValues(k);
      assert Numbered(values)[3].value == values[3] && Numbered(values)[4].value == values[4];
      ComponentSize(values, 100, 3400);
    }
    if LegalSignatures(s) {
      var values := SignatureValues(p, s);
      ComponentSize(values, 100, 3400);
    }
  }

  // ---- Verification ----

  /** The two signature schemes, as public key, message and signature. */
  datatype Verifiers = Verifiers(
    classical: (seq<byte>, seq<byte>, seq<byte>) -> bool,
    postQuantum: (seq<byte>, seq<byte>, seq<byte>) -> bool)

  datatype VerificationParameters = VerificationParameters(
    purpose: HybridPurpose,
    context: HybridContext,
    classicalKid: Cbor.Text,
    pqKid: Cbor.Text,
    classicalPublicKey: Vec<byte>,
    pqPublicKey: Vec<byte>,
    generation: u64)

  function Verify(encoded: seq<byte>, p: VerificationParameters, v: Verifiers): Result<(), CodecError> {
    var content :- DecodedEnvelope(encoded, p.purpose, p.context);
    var (u, s) := content;
    if u.generation != p.generation || u.context.keyGeneration != p.generation then Err(GenerationMismatch)
    else if u.classicalKid != p.classicalKid || u.pqKid != p.pqKid then Err(GenerationMismatch)
    else
      var signed :- Tbs(u);
      if !v.classical(p.classicalPublicKey, signed, s.classical) then Err(ClassicalSignature)
      else if !v.postQuantum(p.pqPublicKey, signed, s.postQuantum) then Err(PostQuantumSignature)
      else Ok(())
  }

  /** The envelope is what the verifier expects: purpose, context, both key identifiers and one generation. */
  predicate Expected(u: UnsignedEnvelope, p: VerificationParameters) {
    && u.purpose == p.purpose && u.context == p.context
    && u.classicalKid == p.classicalKid && u.pqKid == p.pqKid
    && u.generation == u.context.keyGeneration == p.generation
  }

  /** Both signatures verify over the envelope's own bytes. */
  predicate BothVerify(u: UnsignedEnvelope, s: EnvelopeSignatures, p: VerificationParameters, v: Verifiers) {
    && Tbs(u).Ok?
    && v.classical(p.classicalPublicKey, Tbs(u).value, s.classical)
    && v.postQuantum(p.pqPublicKey, Tbs(u).value, s.postQuantum)
  }

  /** Bytes verify exactly if they are the encoding of an expected envelope under two signatures that both verify. */
  lemma VerifiesExactly(b: seq<byte>, p: VerificationParameters, v: Verifiers)
    ensures Verify(b, p, v).Ok? <==>
            exists u, s :: EncodedEnvelope(u, s) == Ok(b) && Expected(u, p) && BothVerify(u, s, p, v)
  {
    hide EncodedEnvelope, DecodedEnvelope, Tbs;
    forall u, s | EncodedEnvelope(u, s) == Ok(b) && u.purpose == p.purpose && u.context == p.context
      ensures DecodedEnvelope(b, p.purpose, p.context) == Ok((u, s))
    {
      WrapperCodecExact(b, p.purpose, p.context, u, s);
    }
    if DecodedEnvelope(b, p.purpose, p.context).Ok? {
      var (u, s) := DecodedEnvelope(b, p.purpose, p.context).value;
      WrapperCodecExact(b, p.purpose, p.context, u, s);
    }
  }

  /** For an encoded envelope of the purpose and context asked for: the identifiers and generations are compared first,
      then the classical signature is checked, then the post-quantum one. */
  lemma EncodedVerifiesExactly(u: UnsignedEnvelope, s: EnvelopeSignatures, p: VerificationParameters, v: Verifiers)
    requires EncodedEnvelope(u, s).Ok? && u.purpose == p.purpose && u.context == p.context
    ensures
      var r := Verify(EncodedEnvelope(u, s).value, p, v);
      && (r.Ok? <==> Expected(u, p) && BothVerify(u, s, p, v))
      && (!Expected(u, p) ==> r == Err(GenerationMismatch))
      && (Expected(u, p) && Tbs(u).Ok? ==>
            && (!v.classical(p.classicalPublicKey, Tbs(u).value, s.classical) <==> r == Err(ClassicalSignature))
            && (r == Err(PostQuantumSignature) <==>
                && v.classical(p.classicalPublicKey, Tbs(u).value, s.classical)
                && !v.postQuantum(p.pqPublicKey, Tbs(u).value, s.postQuantum)))
  {
    hide EncodedEnvelope, DecodedEnvelope, Tbs;
    var b := EncodedEnvelope(u, s).value;
    WrapperCodecExact(b, p.purpose, p.context, u, s);
  }

  /** Everything signed under the two keys so far: envelopes, and raw messages under the post-quantum key. */
  datatype Signed = Signed(classical: set<UnsignedEnvelope>, postQuantum: set<UnsignedEnvelope>, raw: set<seq<byte>>)

  /** The two signatures presented were not forged: on the bytes of the envelope presented, each verifies only if its
      key holder signed those bytes. */
  ghost predicate Unforged(v: Verifiers, p: VerificationParameters, u: UnsignedEnvelope, s: EnvelopeSignatures,
                           signed: Signed)
  {
    Tbs(u).Ok? ==>
      var m := Tbs(u).value;
      && (v.classical(p.classicalPublicKey, m, s.classical) ==> exists e | e in signed.classical :: Tbs(e) == Ok(m))
      && (v.postQuantum(p.pqPublicKey, m, s.postQuantum) ==>
            m in signed.raw || exists e | e in signed.postQuantum :: Tbs(e) == Ok(m))
  }

  /** The parts of an envelope that its signatures cover. */
  predicate SameSignedParts(u: UnsignedEnvelope, e: UnsignedEnvelope) {
    u.purpose == e.purpose && u.context == e.context && u.payload == e.payload && u.disclosures == e.disclosures
  }

  ghost predicate SignedAs(u: UnsignedEnvelope, signed: set<UnsignedEnvelope>) {
    exists e | e in signed :: SameSignedParts(u, e)
  }

  lemma SameBytesSameParts(u: UnsignedEnvelope, m: seq<byte>, signed: set<UnsignedEnvelope>)
    requires Tbs(u) == Ok(m) && exists e | e in signed :: Tbs(e) == Ok(m)
    ensures SignedAs(u, signed)
  {
    var e :| e in signed && Tbs(e) == Ok(m);
    TbsInjective(u, e);
    assert SameSignedParts(u, e);
  }

  /** Whatever verifies carries exactly what both keys signed, under one generation throughout, unless the very bytes
      were signed raw under the post-quantum key. */
  lemma VerifiedIsSigned(encoded: seq<byte>, p: VerificationParameters, v: Verifiers, signed: Signed,
                         u: UnsignedEnvelope, s: EnvelopeSignatures)
    requires DecodedEnvelope(encoded, p.purpose, p.context) == Ok((u, s))
    requires Verify(encoded, p, v).Ok? && Unforged(v, p, u, s, signed)
    ensures Expected(u, p)
    ensures EncodedEnvelope(u, s) == Ok(encoded)
    ensures SignedAs(u, signed.classical)
    ensures Tbs(u).Ok? && (SignedAs(u, signed.postQuantum) || Tbs(u).value in signed.raw)
  {
    DecodedEnvelopeSound(encoded, p.purpose, p.context);
    var m := Tbs(u).value;
    assert v.classical(p.classicalPublicKey, m, s.classical) && v.postQuantum(p.pqPublicKey, m, s.postQuantum);
    SameBytesSameParts(u, m, signed.classical);
    if m !in signed.raw {
      SameBytesSameParts(u, m, signed.postQuantum);
    }
  }

  /** The signed bytes are the same exactly if the covered parts are, which leave out the key identifiers and the
      generation that the envelope states. */
  lemma CoveredPartsExactly(u: UnsignedEnvelope, e: UnsignedEnvelope)
    requires Tbs(u).Ok?
    ensures Tbs(u) == Tbs(e) <==> SameSignedParts(u, e)
  {
    if Tbs(u) == Tbs(e) {
      TbsInjective(u, e);
    }
    if SameSignedParts(u, e) {
      assert CommittedPayload(u) == CommittedPayload(e);
    }
  }

  /** So a wrapper that verifies, with other legal key identifiers put in, verifies with the same signatures for whoever
      expects those identifiers and the same keys, and is refused by whoever expects the old ones. */
  lemma RelabelledVerifies(u: UnsignedEnvelope, s: EnvelopeSignatures, p: VerificationParameters, v: Verifiers,
                           classicalKid: Cbor.Text, pqKid: Cbor.Text)
    requires EncodedEnvelope(u, s).Ok? && u.purpose == p.purpose && u.context == p.context
    requires Verify(EncodedEnvelope(u, s).value, p, v).Ok?
    requires RequireKid(classicalKid).Ok? && RequireKid(pqKid).Ok?
    ensures
      var relabelled := u.(classicalKid := classicalKid, pqKid := pqKid);
      && EncodedEnvelope(relabelled, s).Ok?
      && Verify(EncodedEnvelope(relabelled, s).value, p.(classicalKid := classicalKid, pqKid := pqKid), v).Ok?
      && (classicalKid != p.classicalKid || pqKid != p.pqKid ==>
            Verify(EncodedEnvelope(relabelled, s).value, p, v) == Err(GenerationMismatch))
  {
    hide EncodedEnvelope, DecodedEnvelope, Tbs, Verify;
    var b := EncodedEnvelope(u, s).value;
    var relabelled := u.(classicalKid := classicalKid, pqKid := pqKid);
    EncodedVerifiesExactly(u, s, p, v);
    CoveredPartsExactly(u, relabelled);
    EncodedExact(u, s, b);
    SignableFitsWrapper(relabelled, s);
    EncodedVerifiesExactly(relabelled, s, p.(classicalKid := classicalKid, pqKid := pqKid), v);
    EncodedVerifiesExactly(relabelled, s, p, v);
  }
}
