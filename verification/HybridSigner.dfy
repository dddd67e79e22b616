// The logical hybrid signing identity: the encrypted key record, its generations across restarts
// and changes of the classical key, and signing with it.

module HybridSigner {
  import opened Prelude
  import opened HybridTypes
  import opened HybridTbs
  import opened HybridEnvelope
  import Cbor

  const STORE_VERSION: byte := 1
  const NONCE_BYTES := 12
  const WRAPPING_KEY_BYTES := 32
  const TAG_BYTES := 16
  const HEADER_BYTES := 1 + 8 + 32 + 12 + 1952

  datatype SignerError = Storage | Wrapping | PostQuantum | Classical | Envelope

  datatype KeyPair = KeyPair(publicKey: Vec<byte>, secretKey: seq<byte>)

  datatype StoredKey = StoredKey(generation: u64, classicalKidHash: seq<byte>, publicKey: Vec<byte>,
                                 secretKey: seq<byte>)

  /** The classical key held by the platform keychain. */
  datatype ClassicalKey = ClassicalKey(kid: Cbor.Text, publicKey: Vec<byte>, secret: seq<byte>)

  /** The foreign primitives. `encrypt` and `decrypt` take key, nonce and data. */
  datatype Primitives = Primitives(
    encrypt: (seq<byte>, seq<byte>, seq<byte>) -> seq<byte>,
    decrypt: (seq<byte>, seq<byte>, seq<byte>) -> Option<seq<byte>>,
    sha256: seq<byte> -> seq<byte>,
    pqKid: seq<byte> -> Cbor.Text,
    pqPublicOf: seq<byte> -> seq<byte>,
    pqSign: (seq<byte>, seq<byte>) -> Option<Vec<byte>>,
    classicalSign: (seq<byte>, seq<byte>) -> Option<Vec<byte>>)

  /** Decryption undoes encryption, which adds a tag; digests are 32 bytes. */
  ghost predicate Sound(c: Primitives) {
    && (forall k, n, m :: c.decrypt(k, n, c.encrypt(k, n, m)) == Some(m) && |c.encrypt(k, n, m)| == |m| + TAG_BYTES)
    && (forall m :: |c.sha256(m)| == 32)
  }

  // ---- The record ----

  predicate Complete(k: StoredKey) {
    && |k.classicalKidHash| == 32 && |k.publicKey| == PQ_PUBLIC_KEY_BYTES && |k.secretKey| == PQ_SECRET_KEY_BYTES
  }

  function Header(k: StoredKey, nonce: seq<byte>): seq<byte> {
    [STORE_VERSION] + BigEndian(k.generation, 8) + k.classicalKidHash + nonce + k.publicKey
  }

  function Persisted(c: Primitives, wrapping: seq<byte>, nonce: seq<byte>, k: StoredKey)
    : Result<seq<byte>, SignerError>
  {
    if |wrapping| != WRAPPING_KEY_BYTES then Err(Wrapping)
    else Ok(Header(k, nonce) + c.encrypt(wrapping, nonce, k.secretKey))
  }

  function Loaded(c: Primitives, wrapping: seq<byte>, encoded: seq<byte>): Result<StoredKey, SignerError> {
    if |encoded| != HEADER_BYTES + PQ_SECRET_KEY_BYTES + TAG_BYTES || encoded[0] != STORE_VERSION then Err(Storage)
    else if |wrapping| != WRAPPING_KEY_BYTES then Err(Wrapping)
    else
      Pow256Widths();
      var generation := BigEndianValue(encoded[1..9]);
      var secretKey := c.decrypt(wrapping, encoded[41..53], encoded[HEADER_BYTES..]);
      if secretKey.None? then Err(Wrapping)
      else if |secretKey.value| != PQ_SECRET_KEY_BYTES then Err(Storage)
      else Ok(StoredKey(generation, encoded[9..41], encoded[53..HEADER_BYTES], secretKey.value))
  }

  /** Cutting a concatenation at its seams gives back its parts. */
  lemma SixParts(a: seq<byte>, b: seq<byte>, c: seq<byte>, d: seq<byte>, e: seq<byte>, f: seq<byte>)
    requires |a| == 1 && |b| == 8 && |c| == 32 && |d| == NONCE_BYTES && |e| == PQ_PUBLIC_KEY_BYTES
    ensures
      var whole := a + b + c + d + e + f;
      && |whole| == HEADER_BYTES + |f| && whole[..1] == a && whole[1..9] == b && whole[9..41] == c
      && whole[41..53] == d && whole[53..HEADER_BYTES] == e && whole[HEADER_BYTES..] == f
  {
  }

  /** A complete key, once written, is read back exactly. */
  lemma StoredKeyReadsBack(c: Primitives, wrapping: seq<byte>, nonce: seq<byte>, k: StoredKey)
    requires Sound(c) && Complete(k) && |wrapping| == WRAPPING_KEY_BYTES && |nonce| == NONCE_BYTES
    ensures Loaded(c, wrapping, Persisted(c, wrapping, nonce, k).value) == Ok(k)
  {
    var ciphertext := c.encrypt(wrapping, nonce, k.secretKey);
    var b := Persisted(c, wrapping, nonce, k).value;
    SixParts([STORE_VERSION], BigEndian(k.generation, 8), k.classicalKidHash, nonce, k.publicKey, ciphertext);
    assert b[0] == b[..1][0];
    Pow256Widths();
    BigEndianReadsBack(k.generation, 8);
  }

  /** Everything but the sealed secret stands in the record in the clear, in one spelling. */
  lemma LoadedHeader(c: Primitives, wrapping: seq<byte>, b: seq<byte>)
    requires Loaded(c, wrapping, b).Ok?
    ensures Complete(Loaded(c, wrapping, b).value)
    ensures b[..HEADER_BYTES] == Header(Loaded(c, wrapping, b).value, b[41..53])
  {
    BigEndianWritesBack(b[1..9]);
    assert b[..HEADER_BYTES] == b[..1] + b[1..9] + b[9..41] + b[41..53] + b[53..HEADER_BYTES];
  }

  /** The record is the key's header under some nonce, and its rest is the key's secret sealed under that nonce. */
  predicate RecordOf(c: Primitives, wrapping: seq<byte>, b: seq<byte>, k: StoredKey, nonce: seq<byte>) {
    && |nonce| == NONCE_BYTES && Complete(k) && |b| == HEADER_BYTES + PQ_SECRET_KEY_BYTES + TAG_BYTES
    && b[..HEADER_BYTES] == Header(k, nonce) && c.decrypt(wrapping, nonce, b[HEADER_BYTES..]) == Some(k.secretKey)
  }

  /** Records load exactly under a wrapping key that opens them, as the one key that their header names; what does not
      open is the wrapping key's fault only if the record has the right shape. */
  lemma LoadedExactly(c: Primitives, wrapping: seq<byte>, b: seq<byte>, k: StoredKey)
    ensures Loaded(c, wrapping, b) == Ok(k) <==>
            |wrapping| == WRAPPING_KEY_BYTES && exists nonce :: RecordOf(c, wrapping, b, k, nonce)
    ensures Loaded(c, wrapping, b) == Err(Wrapping) <==>
            && |b| == HEADER_BYTES + PQ_SECRET_KEY_BYTES + TAG_BYTES && b[0] == STORE_VERSION
            && (|wrapping| != WRAPPING_KEY_BYTES || c.decrypt(wrapping, b[41..53], b[HEADER_BYTES..]) == None)
  {
    if Loaded(c, wrapping, b) == Ok(k) {
      LoadedHeader(c, wrapping, b);
      assert RecordOf(c, wrapping, b, k, b[41..53]);
    }
    forall nonce | |wrapping| == WRAPPING_KEY_BYTES && RecordOf(c, wrapping, b, k, nonce)
      ensures Loaded(c, wrapping, b) == Ok(k)
    {
      SixParts([STORE_VERSION], BigEndian(k.generation, 8), k.classicalKidHash, nonce, k.publicKey, b[HEADER_BYTES..]);
      var whole := Header(k, nonce) + b[HEADER_BYTES..];
      assert b == whole && b[0] == b[..1][0];
      Pow256Widths();
      BigEndianReadsBack(k.generation, 8);
    }
  }

  // ---- Finding or creating the identity ----

  datatype Signer = Signer(classical: ClassicalKey, pqPublicKey: Vec<byte>, pqKid: Cbor.Text, generation: u64)

  function SignerFor(c: Primitives, classical: ClassicalKey, k: StoredKey): Signer {
    Signer(classical, k.publicKey, c.pqKid(k.publicKey), k.generation)
  }

  /** The key that takes over from `stored` when the classical key hashes to `kidHash`. */
  function Successor(stored: Option<StoredKey>, kidHash: seq<byte>, generated: KeyPair): StoredKey {
    var generation := if stored.Some? then SaturatingAdd(stored.value.generation, 1) else 1;
    StoredKey(generation, kidHash, generated.publicKey, generated.secretKey)
  }

  predicate Current(k: StoredKey, c: Primitives, classical: ClassicalKey) {
    k.classicalKidHash == c.sha256(classical.kid)
  }

  /** The identity found or created, and the record the file then holds. */
  function Identity(c: Primitives, wrapping: seq<byte>, record: Option<seq<byte>>,
                    classical: ClassicalKey, nonce: seq<byte>, generated: Option<KeyPair>)
    : Result<(Signer, seq<byte>), SignerError>
  {
    var stored :- match record
                  case None => Ok(None)
                  case Some(b) => (match Loaded(c, wrapping, b) case Ok(k) => Ok(Some(k)) case Err(e) => Err(e));
    if stored.Some? && Current(stored.value, c, classical) then
      Ok((SignerFor(c, classical, stored.value), record.value))
    else if generated.None? then Err(PostQuantum)
    else
      var k := Successor(stored, c.sha256(classical.kid), generated.value);
      var b :- Persisted(c, wrapping, nonce, k);
      Ok((SignerFor(c, classical, k), b))
  }

  /** A record that cannot be read stops a start, with its error and whatever else is at hand. */
  lemma UnreadableStops(c: Primitives, wrapping: seq<byte>, b: seq<byte>,
                        classical: ClassicalKey, nonce: seq<byte>, generated: Option<KeyPair>)
    requires Loaded(c, wrapping, b).Err?
    ensures Identity(c, wrapping, Some(b), classical, nonce, generated) == Err(Loaded(c, wrapping, b).error)
  {
    hide Loaded;
  }

  /** A start succeeds exactly on a readable record of its own classical key, or else with a new key pair and a wrapping
      key; the signer is of that key, named by its identifier, and what the file holds reads back as it. */
  lemma IdentityExactly(c: Primitives, wrapping: seq<byte>, record: Option<seq<byte>>,
                        classical: ClassicalKey, nonce: seq<byte>, generated: Option<KeyPair>)
    requires record.Some? ==> Loaded(c, wrapping, record.value).Ok?
    ensures
      var r := Identity(c, wrapping, record, classical, nonce, generated);
      if record.Some? && Loaded(c, wrapping, record.value).value.classicalKidHash == c.sha256(classical.kid) then
        && var k := Loaded(c, wrapping, record.value).value;
        && r == Ok((Signer(classical, k.publicKey, c.pqKid(k.publicKey), k.generation), record.value))
      else if generated.None? then r == Err(PostQuantum)
      else if |wrapping| != WRAPPING_KEY_BYTES then r == Err(Wrapping)
      else
        && var g := generated.value;
        && r.Ok? && var (s, b) := r.value;
        && s == Signer(classical, g.publicKey, c.pqKid(g.publicKey), s.generation)
        && s.generation == (if record.None? then 1 else
                            if Loaded(c, wrapping, record.value).value.generation == U64_MAX then U64_MAX
                            else Loaded(c, wrapping, record.value).value.generation + 1)
        && (Sound(c) && |nonce| == NONCE_BYTES && |g.publicKey| == PQ_PUBLIC_KEY_BYTES
            && |g.secretKey| == PQ_SECRET_KEY_BYTES ==>
              Loaded(c, wrapping, b) == Ok(StoredKey(s.generation, c.sha256(classical.kid), g.publicKey, g.secretKey)))
  {
    hide Loaded;
    var stored := if record.Some? then Some(Loaded(c, wrapping, record.value).value) else None;
    if generated.Some? && |wrapping| == WRAPPING_KEY_BYTES {
      var k := Successor(stored, c.sha256(classical.kid), generated.value);
      if Sound(c) && |nonce| == NONCE_BYTES && Complete(k) {
        StoredKeyReadsBack(c, wrapping, nonce, k);
      }
    }
  }

  /** The record file. */
  class KeyFile {
    var record: Option<seq<byte>>

    constructor ()
      ensures record == None
    {
      record := None;
    }

    /** Grows the record in a buffer, then replaces the file by it. */
    method PersistKey(c: Primitives, wrapping: seq<byte>, nonce: seq<byte>, k: StoredKey)
      returns (r: Result<(), SignerError>)
      modifies this
      ensures Persisted(c, wrapping, nonce, k).Err? ==> r == Err(Wrapping) && record == old(record)
      ensures Persisted(c, wrapping, nonce, k).Ok?
          ==> r == Ok(()) && record == Some(Persisted(c, wrapping, nonce, k).value)
    {
      if |wrapping| != WRAPPING_KEY_BYTES {
        return Err(Wrapping);
      }
      var ciphertext := c.encrypt(wrapping, nonce, k.secretKey);
      var encoded := [STORE_VERSION];
      encoded := encoded + BigEndian(k.generation, 8);
      encoded := encoded + k.classicalKidHash;
      encoded := encoded + nonce;
      encoded := encoded + k.publicKey;
      encoded := encoded + ciphertext;
      record := Some(encoded);
      return Ok(());
    }

    method LoadStoredKey(c: Primitives, wrapping: seq<byte>) returns (r: Result<StoredKey, SignerError>)
      ensures r == if record.None? then Err(Storage) else Loaded(c, wrapping, record.value)
    {
      if record.None? {
        return Err(Storage);
      }
      r := Loaded(c, wrapping, record.value);
    }

    method FindOrCreate(c: Primitives, wrapping: seq<byte>, classical: ClassicalKey, nonce: seq<byte>,
                        generated: Option<KeyPair>)
      returns (r: Result<Signer, SignerError>)
      modifies this
      ensures
        var identity := Identity(c, wrapping, old(record), classical, nonce, generated);
        match identity
        case Ok(found) => r == Ok(found.0) && record == Some(found.1)
        case Err(e) => r == Err(e) && record == old(record)
    {
      var stored := None;
      if record.Some? {
        var loaded := LoadStoredKey(c, wrapping);
        if loaded.Err? { return Err(loaded.error); }
        stored := Some(loaded.value);
      }
      if stored.Some? && Current(stored.value, c, classical) {
        return Ok(SignerFor(c, classical, stored.value));
      }
      if generated.None? {
        return Err(PostQuantum);
      }
      var k := Successor(stored, c.sha256(classical.kid), generated.value);
      var _ :- PersistKey(c, wrapping, nonce, k);
      return Ok(SignerFor(c, classical, k));
    }
  }

  // ---- Signing ----

  /** The guard both signing operations apply to the record they are about to use. */
  function GuardedKey(c: Primitives, wrapping: seq<byte>, record: Option<seq<byte>>, s: Signer)
    : Result<StoredKey, SignerError>
  {
    if record.None? then Err(Storage)
    else
      var k :- Loaded(c, wrapping, record.value);
      if k.generation != s.generation || k.publicKey != s.pqPublicKey || !Current(k, c, s.classical) then Err(Storage)
      else Ok(k)
  }

  function SignedRaw(c: Primitives, wrapping: seq<byte>, record: Option<seq<byte>>, s: Signer, message: seq<byte>)
    : Result<Vec<byte>, SignerError>
  {
    var k :- GuardedKey(c, wrapping, record, s);
    match c.pqSign(k.secretKey, message) case Some(sig) => Ok(sig) case None => Err(PostQuantum)
  }

  /** The envelope names the signer's keys and generation. */
  predicate Addressed(s: Signer, u: UnsignedEnvelope) {
    u.classicalKid == s.classical.kid && u.pqKid == s.pqKid && u.generation == s.generation
  }

  function SignedEnvelope(c: Primitives, wrapping: seq<byte>, record: Option<seq<byte>>, s: Signer, u: UnsignedEnvelope)
    : Result<seq<byte>, SignerError>
  {
    if !Addressed(s, u) then Err(Envelope)
    else
      match Tbs(u)
      case Err(_) => Err(Envelope)
      case Ok(signed) =>
        match c.classicalSign(s.classical.secret, signed)
        case None => Err(Classical)
        case Some(classical) =>
          var postQuantum :- SignedRaw(c, wrapping, record, s, signed);
          match EncodedEnvelope(u, EnvelopeSignatures(classical, postQuantum))
          case Err(_) => Err(Envelope)
          case Ok(b) => Ok(b)
  }

  /** The record can be read and holds the key the signer was made from. */
  predicate HoldsKeyOf(c: Primitives, wrapping: seq<byte>, record: Option<seq<byte>>, s: Signer) {
    && record.Some? && Loaded(c, wrapping, record.value).Ok?
    && var k := Loaded(c, wrapping, record.value).value;
    && k.generation == s.generation && k.publicKey == s.pqPublicKey && k.classicalKidHash == c.sha256(s.classical.kid)
  }

  /** The envelope is for the signer's keys and generation, can be signed, and has parts that a wrapper may have. */
  predicate EnvelopeFor(s: Signer, u: UnsignedEnvelope) {
    && u.classicalKid == s.classical.kid && u.pqKid == s.pqKid && u.generation == s.generation > 0 && Tbs(u).Ok?
    && u.payload != [] && (forall i :: 0 <= i < |u.disclosures| ==> u.disclosures[i] != [])
    && 1 <= |u.classicalKid| <= MAX_KEY_ID_BYTES && 1 <= |u.pqKid| <= MAX_KEY_ID_BYTES
  }

  /** Both keys sign the message, with signatures of the schemes' lengths. */
  predicate BothSign(c: Primitives, classical: ClassicalKey, secretKey: seq<byte>, m: seq<byte>) {
    && c.classicalSign(classical.secret, m).Some? && c.pqSign(secretKey, m).Some?
    && |c.classicalSign(classical.secret, m).value| == CLASSICAL_SIGNATURE_BYTES
    && |c.pqSign(secretKey, m).value| == PQ_SIGNATURE_BYTES
  }

  /** An envelope is emitted exactly if it is for the signer, the record holds the signer's key, and both keys sign. */
  lemma SignedEnvelopeExactly(c: Primitives, wrapping: seq<byte>, record: Option<seq<byte>>, s: Signer,
                              u: UnsignedEnvelope)
    ensures
      SignedEnvelope(c, wrapping, record, s, u).Ok? <==>
      && EnvelopeFor(s, u) && HoldsKeyOf(c, wrapping, record, s)
      && BothSign(c, s.classical, Loaded(c, wrapping, record.value).value.secretKey, Tbs(u).value)
  {
    hide Tbs, EncodedEnvelope, Loaded;
    if HoldsKeyOf(c, wrapping, record, s) && Tbs(u).Ok? {
      var k, m := Loaded(c, wrapping, record.value).value, Tbs(u).value;
      if c.classicalSign(s.classical.secret, m).Some? && c.pqSign(k.secretKey, m).Some? {
        var sigs := EnvelopeSignatures(c.classicalSign(s.classical.secret, m).value, c.pqSign(k.secretKey, m).value);
        if EnvelopeFor(s, u) && BothSign(c, s.classical, k.secretKey, m) {
          SignableFitsWrapper(u, sigs);
        }
        if EncodedEnvelope(u, sigs).Ok? {
          EncodedExact(u, sigs, EncodedEnvelope(u, sigs).value);
        }
      }
    }
  }

  /** Signatures by a key verify under its public half; secrets generated here have their public half beside them. */
  ghost predicate SchemesCorrect(c: Primitives, v: Verifiers, classical: ClassicalKey) {
    && (forall m :: c.classicalSign(classical.secret, m).Some? ==>
          v.classical(classical.publicKey, m, c.classicalSign(classical.secret, m).value))
    && (forall sk, m :: c.pqSign(sk, m).Some? ==> v.postQuantum(c.pqPublicOf(sk), m, c.pqSign(sk, m).value))
  }

  function ParametersOf(s: Signer, u: UnsignedEnvelope): VerificationParameters {
    VerificationParameters(u.purpose, u.context, s.classical.kid, s.pqKid, s.classical.publicKey, s.pqPublicKey,
                           s.generation)
  }

  /** What the signer emits verifies for that signer exactly when the signed context names its generation. */
  lemma SignedEnvelopeVerifies(c: Primitives, v: Verifiers, wrapping: seq<byte>, record: Option<seq<byte>>,
                               s: Signer, u: UnsignedEnvelope)
    requires SchemesCorrect(c, v, s.classical)
    requires SignedEnvelope(c, wrapping, record, s, u).Ok?
    requires var k := GuardedKey(c, wrapping, record, s).value; c.pqPublicOf(k.secretKey) == k.publicKey
    ensures Verify(SignedEnvelope(c, wrapping, record, s, u).value, ParametersOf(s, u), v).Ok?
            <==> u.context.keyGeneration == s.generation
  {
    var b := SignedEnvelope(c, wrapping, record, s, u).value;
    var signed := Tbs(u).value;
    var k := GuardedKey(c, wrapping, record, s).value;
    var sigs := EnvelopeSignatures(c.classicalSign(s.classical.secret, signed).value,
                                   c.pqSign(k.secretKey, signed).value);
    DecodedEnvelopeComplete(u, sigs);
    assert DecodedEnvelope(b, u.purpose, u.context) == Ok((u, sigs));
  }
}
