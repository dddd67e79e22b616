// Whole histories of the hybrid signing identity: restarts, changes of the classical key, and
// signer objects that outlive the record they were made from.

module HybridRuns {
  import opened Prelude
  import opened HybridTypes
  import opened HybridTbs
  import opened HybridSigner
  import opened HybridEnvelope

  /** `Start` is a process start. Both signing operations use any signer object ever made, however before. */
  datatype Op =
    | Start(classical: ClassicalKey, nonce: seq<byte>, generated: Option<KeyPair>)
    | SignRaw(which: nat, message: seq<byte>)
    | SignEnvelope(which: nat, envelope: UnsignedEnvelope)

  /** A post-quantum signature, over an envelope or over raw bytes. */
  datatype Emission = Emission(
    signer: Signer, key: StoredKey, message: seq<byte>, signature: Vec<byte>, envelope: Option<UnsignedEnvelope>)

  /** A classical signature over an envelope. */
  datatype Endorsement = Endorsement(signer: Signer, envelope: UnsignedEnvelope, signature: Vec<byte>)

  /** The record file, every signer object made, every record written and every signature made. */
  datatype World = World(
    record: Option<seq<byte>>,
    signers: seq<Signer>,
    written: seq<StoredKey>,
    emitted: seq<Emission>,
    endorsed: seq<Endorsement>)

  const FRESH := World(None, [], [], [], [])

  function Opened(c: Primitives, wrapping: seq<byte>, record: Option<seq<byte>>): Option<StoredKey> {
    if record.Some? && Loaded(c, wrapping, record.value).Ok?
    then Some(Loaded(c, wrapping, record.value).value)
    else None
  }

  function Apply(c: Primitives, wrapping: seq<byte>, w: World, op: Op): World {
    match op
    case Start(classical, nonce, generated) =>
      (match Identity(c, wrapping, w.record, classical, nonce, generated)
       case Err(_) => w
       case Ok((s, b)) =>
         var before := Opened(c, wrapping, w.record);
         var kept := before.Some? && Current(before.value, c, classical);
         w.(record := Some(b), signers := w.signers + [s],
            written := if kept || generated.None? then w.written
                       else w.written + [Successor(before, c.sha256(classical.kid), generated.value)]))
    case SignRaw(which, message) =>
      if which >= |w.signers| then w else Emitted(c, wrapping, w, w.signers[which], message, None)
    case SignEnvelope(which, u) =>
      if which >= |w.signers| || !Addressed(w.signers[which], u) || Tbs(u).Err? then w
      else
        var s, m := w.signers[which], Tbs(u).value;
        match c.classicalSign(s.classical.secret, m)
        case None => w
        case Some(sig) =>
          Emitted(c, wrapping, w.(endorsed := w.endorsed + [Endorsement(s, u, sig)]), s, m, Some(u))
  }

  /** The post-quantum signature, if the record still holds the signer's key. */
  function Emitted(c: Primitives, wrapping: seq<byte>, w: World, s: Signer, m: seq<byte>, u: Option<UnsignedEnvelope>)
    : World
  {
    match SignedRaw(c, wrapping, w.record, s, m)
    case Err(_) => w
    case Ok(sig) =>
      w.(emitted := w.emitted + [Emission(s, GuardedKey(c, wrapping, w.record, s).value, m, sig, u)])
  }

  function Run(c: Primitives, wrapping: seq<byte>, ops: seq<Op>): World {
    if ops == [] then FRESH else Apply(c, wrapping, Run(c, wrapping, ops[..|ops| - 1]), ops[|ops| - 1])
  }

  predicate Generated(c: Primitives, k: KeyPair) {
    |k.publicKey| == PQ_PUBLIC_KEY_BYTES && |k.secretKey| == PQ_SECRET_KEY_BYTES
      && c.pqPublicOf(k.secretKey) == k.publicKey
  }

  /** Key generation and nonces deliver values of the right shape. */
  predicate Possible(c: Primitives, op: Op) {
    op.Start? ==> |op.nonce| == NONCE_BYTES && (op.generated.Some? ==> Generated(c, op.generated.value))
  }

  // ---- What every history keeps ----

  /** Each written key succeeds the one before, for another classical key. */
  predicate Chain(written: seq<StoredKey>) {
    && (written != [] ==> written[0].generation == 1)
    && forall i :: 0 < i < |written| ==>
         && written[i].generation == SaturatingAdd(written[i - 1].generation, 1)
         && written[i].classicalKidHash != written[i - 1].classicalKidHash
  }

  /** The signer names the key's generation, its post-quantum half and that half's identifier, and its own classical
      identifier is the one recorded with the key. */
  predicate MadeFrom(s: Signer, c: Primitives, k: StoredKey) {
    && s.generation == k.generation && s.pqPublicKey == k.publicKey && s.pqKid == c.pqKid(k.publicKey)
    && k.classicalKidHash == c.sha256(s.classical.kid)
  }

  ghost predicate Kept(c: Primitives, wrapping: seq<byte>, w: World) {
    && (w.written == [] <==> w.record.None?)
    && (w.record.Some? ==> Loaded(c, wrapping, w.record.value) == Ok(w.written[|w.written| - 1]))
    && Chain(w.written)
    && (forall k :: k in w.written ==> Complete(k) && c.pqPublicOf(k.secretKey) == k.publicKey)
    && (forall s :: s in w.signers ==> exists k :: k in w.written && MadeFrom(s, c, k))
    && (forall e :: e in w.emitted ==> e.key in w.written && MadeFrom(e.signer, c, e.key))
  }

  lemma ChainGrows(written: seq<StoredKey>, k: StoredKey)
    requires Chain(written)
    requires written == [] ==> k.generation == 1
    requires written != [] ==>
      var last := written[|written| - 1];
      k.generation == SaturatingAdd(last.generation, 1) && k.classicalKidHash != last.classicalKidHash
    ensures Chain(written + [k])
  {
  }

  /** What a start does to a history that is kept so far. */
  lemma StartCases(c: Primitives, wrapping: seq<byte>, w: World, op: Op)
    requires Sound(c) && Kept(c, wrapping, w) && op.Start? && Possible(c, op)
    ensures
      var w' := Apply(c, wrapping, w, op);
      || w' == w
      || (exists s, k :: k in w.written && MadeFrom(s, c, k) && w' == w.(signers := w.signers + [s]))
      || (exists s, k, b :: && Complete(k) && c.pqPublicOf(k.secretKey) == k.publicKey && MadeFrom(s, c, k)
                            && Loaded(c, wrapping, b) == Ok(k) && Chain(w.written + [k])
                            && w' == w.(record := Some(b), signers := w.signers + [s], written := w.written + [k]))
  {
    hide Tbs, SignedRaw, Emitted, Chain;
    var Start(classical, nonce, generated) := op;
    var identity := Identity(c, wrapping, w.record, classical, nonce, generated);
    if identity.Ok? {
      var (s, b) := identity.value;
      var before := Opened(c, wrapping, w.record);
      if before.Some? && Current(before.value, c, classical) {
        assert MadeFrom(s, c, before.value) && before.value in w.written;
        assert Apply(c, wrapping, w, op) == w.(signers := w.signers + [s]);
      } else {
        var k := Successor(before, c.sha256(classical.kid), generated.value);
        StoredKeyReadsBack(c, wrapping, nonce, k);
        ChainGrows(w.written, k);
        assert MadeFrom(s, c, k);
        assert Apply(c, wrapping, w, op)
          == w.(record := Some(b), signers := w.signers + [s], written := w.written + [k]);
      }
    }
  }

  lemma StartKeeps(c: Primitives, wrapping: seq<byte>, w: World, op: Op)
    requires Sound(c) && Kept(c, wrapping, w) && op.Start? && Possible(c, op)
    ensures Kept(c, wrapping, Apply(c, wrapping, w, op))
  {
    hide Apply, Loaded, Chain, Complete, MadeFrom, Sound, Possible;
    StartCases(c, wrapping, w, op);
    var w' := Apply(c, wrapping, w, op);
    forall t | t in w.signers ensures exists l :: l in w'.written && MadeFrom(t, c, l) {
      var l :| l in w.written && MadeFrom(t, c, l);
      assert l in w'.written;
    }
  }

  lemma SignKeeps(c: Primitives, wrapping: seq<byte>, w: World, op: Op)
    requires Kept(c, wrapping, w) && !op.Start?
    ensures Kept(c, wrapping, Apply(c, wrapping, w, op))
  {
    hide Tbs, Identity;
    assert w.written != [] ==> w.written[|w.written| - 1] in w.written;
    if op.which < |w.signers| {
      var s := w.signers[op.which];
      assert s in w.signers;
      var k :| k in w.written && MadeFrom(s, c, k);
      assert s.pqKid == c.pqKid(s.pqPublicKey);
    }
  }

  lemma {:induction false} RunKeeps(c: Primitives, wrapping: seq<byte>, ops: seq<Op>)
    requires Sound(c) && forall op :: op in ops ==> Possible(c, op)
    ensures Kept(c, wrapping, Run(c, wrapping, ops))
  {
    if ops != [] {
      RunKeeps(c, wrapping, ops[..|ops| - 1]);
      var w, op := Run(c, wrapping, ops[..|ops| - 1]), ops[|ops| - 1];
      if op.Start? { StartKeeps(c, wrapping, w, op); } else { SignKeeps(c, wrapping, w, op); }
    }
  }

  // ---- Generations ----

  lemma {:induction false} ChainOrders(written: seq<StoredKey>, i: nat, j: nat)
    requires Chain(written) && i < j < |written|
    ensures written[i].generation <= written[j].generation
    ensures written[j].generation < U64_MAX ==> written[i].generation < written[j].generation
    decreases j
  {
    if i + 1 < j {
      ChainOrders(written, i, j - 1);
    }
  }

  lemma OneKeyPerGeneration(written: seq<StoredKey>, k: StoredKey, l: StoredKey)
    requires Chain(written) && k in written && l in written && k.generation == l.generation < U64_MAX
    ensures k == l
  {
    var i :| 0 <= i < |written| && written[i] == k;
    var j :| 0 <= j < |written| && written[j] == l;
    if i < j { ChainOrders(written, i, j); } else if j < i { ChainOrders(written, j, i); }
  }

  /** In every history generations never fall, rise with every key written below the maximum, and
      below the maximum name one key pair. */
  lemma GenerationsNameKeys(c: Primitives, wrapping: seq<byte>, ops: seq<Op>, i: nat, j: nat)
    requires Sound(c) && forall op :: op in ops ==> Possible(c, op)
    requires i < j < |Run(c, wrapping, ops).written|
    ensures
      var written := Run(c, wrapping, ops).written;
      && written[i].generation <= written[j].generation
      && (written[j].generation < U64_MAX ==> written[i].generation != written[j].generation)
  {
    RunKeeps(c, wrapping, ops);
    ChainOrders(Run(c, wrapping, ops).written, i, j);
  }

  /** Two signer objects of one generation below the maximum have the same post-quantum key, however
      far apart in time they were made. */
  lemma SignersOfOneGeneration(c: Primitives, wrapping: seq<byte>, ops: seq<Op>, s: Signer, t: Signer)
    requires Sound(c) && forall op :: op in ops ==> Possible(c, op)
    requires s in Run(c, wrapping, ops).signers && t in Run(c, wrapping, ops).signers
    requires s.generation == t.generation < U64_MAX
    ensures s.pqPublicKey == t.pqPublicKey && c.sha256(s.classical.kid) == c.sha256(t.classical.kid)
  {
    RunKeeps(c, wrapping, ops);
    var written := Run(c, wrapping, ops).written;
    var k :| k in written && MadeFrom(s, c, k);
    var l :| l in written && MadeFrom(t, c, l);
    OneKeyPerGeneration(written, k, l);
  }

  /** A start succeeded: it added a signer object. */
  predicate Started(c: Primitives, wrapping: seq<byte>, w: World, op: Op) {
    |Apply(c, wrapping, w, op).signers| > |w.signers|
  }

  /** In every history, a start that succeeds on a record of another classical key returns the new key pair, under a
      generation that is higher exactly while there is a higher one; on the record's own key it returns that one. */
  lemma ChangeRaisesGeneration(c: Primitives, wrapping: seq<byte>, ops: seq<Op>, op: Op)
    requires Sound(c) && (forall o :: o in ops ==> Possible(c, o)) && op.Start? && Possible(c, op)
    requires Run(c, wrapping, ops).written != [] && Started(c, wrapping, Run(c, wrapping, ops), op)
    ensures
      var w, w' := Run(c, wrapping, ops), Apply(c, wrapping, Run(c, wrapping, ops), op);
      var k, s := w.written[|w.written| - 1], w'.signers[|w.signers|];
      if Current(k, c, op.classical)
      then s.generation == k.generation && s.pqPublicKey == k.publicKey && w'.written == w.written
      else
        && (s.generation > k.generation <==> k.generation < U64_MAX)
        && op.generated.Some? && s.pqPublicKey == op.generated.value.publicKey
  {
    hide Run, Loaded, Persisted;
    RunKeeps(c, wrapping, ops);
  }

  /** Two classical keys that are told apart, and a key pair for each. */
  ghost predicate Rivals(c: Primitives, a: ClassicalKey, b: ClassicalKey, g: KeyPair, h: KeyPair) {
    c.sha256(a.kid) != c.sha256(b.kid) && Generated(c, g) && Generated(c, h) && g.publicKey != h.publicKey
  }

  /** Start `i` of a history in which two classical keys take turns. */
  function Turn(a: ClassicalKey, b: ClassicalKey, g: KeyPair, h: KeyPair, nonce: seq<byte>, i: nat): Op {
    if i % 2 == 0 then Start(a, nonce, Some(g)) else Start(b, nonce, Some(h))
  }

  function Turns(a: ClassicalKey, b: ClassicalKey, g: KeyPair, h: KeyPair, nonce: seq<byte>, n: nat): (ops: seq<Op>)
    ensures |ops| == n
  {
    if n == 0 then [] else Turns(a, b, g, h, nonce, n - 1) + [Turn(a, b, g, h, nonce, n - 1)]
  }

  /** After `n` turns, `op` the last: the last signer has its pair and generation `n`, or the highest there is. */
  predicate AfterTurns(c: Primitives, wrapping: seq<byte>, w: World, op: Op, n: nat)
    requires op.Start? && op.generated.Some?
  {
    && |w.signers| == n > 0
    && w.signers[n - 1].generation == (if n < U64_MAX then n else U64_MAX)
    && w.signers[n - 1].pqPublicKey == op.generated.value.publicKey
    && var k := Opened(c, wrapping, w.record);
    && k.Some? && k.value.generation == w.signers[n - 1].generation && Current(k.value, c, op.classical)
  }

  /** One more turn, by another classical key than the one before. */
  lemma NextTurn(c: Primitives, wrapping: seq<byte>, w: World, op: Op, n: nat)
    requires Sound(c) && |wrapping| == WRAPPING_KEY_BYTES && op.Start? && op.generated.Some? && Possible(c, op)
    requires |w.signers| == n
    requires n == 0 ==> w.record.None?
    requires
      n > 0 ==>
        var k := Opened(c, wrapping, w.record);
        && k.Some? && k.value.generation == w.signers[n - 1].generation == (if n < U64_MAX then n else U64_MAX)
        && !Current(k.value, c, op.classical)
    ensures AfterTurns(c, wrapping, Apply(c, wrapping, w, op), op, n + 1)
  {
    hide Loaded, Persisted;
    var k := Successor(Opened(c, wrapping, w.record), c.sha256(op.classical.kid), op.generated.value);
    StoredKeyReadsBack(c, wrapping, op.nonce, k);
    PersistsIfWrapped(c, wrapping, op.nonce, k);
  }

  lemma {:induction false} TurnsPossible(c: Primitives, a: ClassicalKey, b: ClassicalKey,
                                         g: KeyPair, h: KeyPair, nonce: seq<byte>, n: nat)
    requires Rivals(c, a, b, g, h) && |nonce| == NONCE_BYTES
    ensures forall op :: op in Turns(a, b, g, h, nonce, n) ==> Possible(c, op)
  {
    if n > 0 {
      TurnsPossible(c, a, b, g, h, nonce, n - 1);
    }
  }

  lemma LastOfRun(c: Primitives, wrapping: seq<byte>, ops: seq<Op>, op: Op)
    ensures Run(c, wrapping, []) == FRESH
    ensures Run(c, wrapping, ops + [op]) == Apply(c, wrapping, Run(c, wrapping, ops), op)
  {
    assert (ops + [op])[..|ops|] == ops;
  }

  lemma {:induction false} TurnsRun(c: Primitives, wrapping: seq<byte>, a: ClassicalKey, b: ClassicalKey,
                                    g: KeyPair, h: KeyPair, nonce: seq<byte>, n: nat)
    requires Sound(c) && Rivals(c, a, b, g, h) && |wrapping| == WRAPPING_KEY_BYTES && |nonce| == NONCE_BYTES && n > 0
    ensures AfterTurns(c, wrapping, Run(c, wrapping, Turns(a, b, g, h, nonce, n)), Turn(a, b, g, h, nonce, n - 1), n)
  {
    hide Run, Apply, Opened, Sound, Generated;
    var ops, op := Turns(a, b, g, h, nonce, n - 1), Turn(a, b, g, h, nonce, n - 1);
    LastOfRun(c, wrapping, ops, op);
    if n > 1 {
      TurnsRun(c, wrapping, a, b, g, h, nonce, n - 1);
    }
    NextTurn(c, wrapping, Run(c, wrapping, ops), op, n - 1);
  }

  lemma PersistsIfWrapped(c: Primitives, wrapping: seq<byte>, nonce: seq<byte>, k: StoredKey)
    ensures Persisted(c, wrapping, nonce, k).Ok? <==> |wrapping| == WRAPPING_KEY_BYTES
  {
  }

  /** In the history `ops`, two signer objects have one generation and different keys. */
  ghost predicate ShareGeneration(c: Primitives, wrapping: seq<byte>, ops: seq<Op>, s: Signer, t: Signer,
                                  generation: u64)
  {
    && (forall op :: op in ops ==> Possible(c, op))
    && s in Run(c, wrapping, ops).signers && t in Run(c, wrapping, ops).signers
    && s.generation == t.generation == generation && s.pqPublicKey != t.pqPublicKey
  }

  /** At the highest generation the name is shared: some history of starts has two signer objects of that generation
      with different keys. */
  lemma SaturatedGenerationIsShared(c: Primitives, wrapping: seq<byte>, a: ClassicalKey, b: ClassicalKey,
                                    g: KeyPair, h: KeyPair, nonce: seq<byte>)
    requires Sound(c) && Rivals(c, a, b, g, h) && |wrapping| == WRAPPING_KEY_BYTES && |nonce| == NONCE_BYTES
    ensures exists ops, s, t :: ShareGeneration(c, wrapping, ops, s, t, U64_MAX)
  {
    SharedAfter(c, wrapping, a, b, g, h, nonce, U64_MAX);
  }

  lemma SharedAfter(c: Primitives, wrapping: seq<byte>, a: ClassicalKey, b: ClassicalKey,
                    g: KeyPair, h: KeyPair, nonce: seq<byte>, n: nat)
    requires Sound(c) && Rivals(c, a, b, g, h) && |wrapping| == WRAPPING_KEY_BYTES && |nonce| == NONCE_BYTES
    requires n == U64_MAX
    ensures exists ops, s, t :: ShareGeneration(c, wrapping, ops, s, t, U64_MAX)
  {
    hide Apply, Opened, Run, Possible, Turns;
    var before, op := Turns(a, b, g, h, nonce, n), Turn(a, b, g, h, nonce, n);
    var ops := Turns(a, b, g, h, nonce, n + 1);
    TurnsRun(c, wrapping, a, b, g, h, nonce, n);
    TurnsRun(c, wrapping, a, b, g, h, nonce, n + 1);
    TurnsPossible(c, a, b, g, h, nonce, n + 1);
    TurnsGrow(a, b, g, h, nonce, n);
    SignersStay(c, wrapping, before, op);
    var all := Run(c, wrapping, ops).signers;
    assert all[n - 1] in all && all[n] in all;
    assert ShareGeneration(c, wrapping, ops, all[n - 1], all[n], U64_MAX);
  }

  lemma TurnsGrow(a: ClassicalKey, b: ClassicalKey, g: KeyPair, h: KeyPair, nonce: seq<byte>, n: nat)
    ensures Turns(a, b, g, h, nonce, n + 1) == Turns(a, b, g, h, nonce, n) + [Turn(a, b, g, h, nonce, n)]
  {
  }

  lemma SignersStay(c: Primitives, wrapping: seq<byte>, ops: seq<Op>, op: Op)
    ensures Run(c, wrapping, ops).signers <= Run(c, wrapping, ops + [op]).signers
  {
    hide Identity, SignedRaw, Tbs;
    assert (ops + [op])[..|ops|] == ops;
  }

  /** So a generation is shared by different keys, in some history, exactly if it is the highest. */
  lemma GenerationSharedExactly(c: Primitives, wrapping: seq<byte>, a: ClassicalKey, b: ClassicalKey,
                                g: KeyPair, h: KeyPair, nonce: seq<byte>, generation: u64)
    requires Sound(c) && Rivals(c, a, b, g, h) && |wrapping| == WRAPPING_KEY_BYTES && |nonce| == NONCE_BYTES
    ensures (exists ops, s, t :: ShareGeneration(c, wrapping, ops, s, t, generation)) <==> generation == U64_MAX
  {
    hide Run;
    if generation == U64_MAX {
      SaturatedGenerationIsShared(c, wrapping, a, b, g, h, nonce);
    }
    forall ops, s, t | ShareGeneration(c, wrapping, ops, s, t, generation)
      ensures generation == U64_MAX
    {
      if generation < U64_MAX {
        SignersOfOneGeneration(c, wrapping, ops, s, t);
      }
    }
  }

  // ---- Stale signers ----

  /** Every signature ever emitted was made with the secret half of the emitting object's own key, out
      of a record of that object's own generation; this includes the maximal generation. */
  lemma EmissionsMatchSigners(c: Primitives, wrapping: seq<byte>, ops: seq<Op>, e: Emission)
    requires Sound(c) && forall op :: op in ops ==> Possible(c, op)
    requires e in Run(c, wrapping, ops).emitted
    ensures e.key.generation == e.signer.generation
    ensures c.pqPublicOf(e.key.secretKey) == e.signer.pqPublicKey
    ensures e.key in Run(c, wrapping, ops).written
  {
    RunKeeps(c, wrapping, ops);
  }

  /** An object signs exactly when the record still holds the key it was made from. */
  lemma StaleSignerIsSilent(c: Primitives, wrapping: seq<byte>, ops: seq<Op>, which: nat, message: seq<byte>)
    requires Sound(c) && forall op :: op in ops ==> Possible(c, op)
    requires which < |Run(c, wrapping, ops).signers|
    ensures
      var w := Run(c, wrapping, ops);
      var s := w.signers[which];
      && w.written != []
      && var k := w.written[|w.written| - 1];
         SignedRaw(c, wrapping, w.record, s, message).Ok? <==> MadeFrom(s, c, k) && c.pqSign(k.secretKey, message).Some?
  {
    hide Run, Loaded, Chain, Complete, Possible;
    RunKeeps(c, wrapping, ops);
    var w := Run(c, wrapping, ops);
    assert w.signers[which] in w.signers;
  }

  /** In every history, a signer object emits an envelope exactly if the envelope is for it, the last key written is its
      own, and both keys sign. */
  lemma EmitsExactly(c: Primitives, wrapping: seq<byte>, ops: seq<Op>, s: Signer, u: UnsignedEnvelope)
    requires Sound(c) && forall op :: op in ops ==> Possible(c, op)
    requires s in Run(c, wrapping, ops).signers
    ensures
      var w := Run(c, wrapping, ops);
      && w.written != []
      && var k := w.written[|w.written| - 1];
         SignedEnvelope(c, wrapping, w.record, s, u).Ok? <==>
         EnvelopeFor(s, u) && MadeFrom(s, c, k) && BothSign(c, s.classical, k.secretKey, Tbs(u).value)
  {
    hide Run, Loaded, Chain, Complete, Possible, SignedEnvelope, EnvelopeFor, BothSign, Tbs;
    RunKeeps(c, wrapping, ops);
    var w := Run(c, wrapping, ops);
    SignedEnvelopeExactly(c, wrapping, w.record, s, u);
    var k :| k in w.written && MadeFrom(s, c, k);
  }

  /** In every history, an envelope that any signer object emits verifies for that object exactly when
      the signed context names the object's generation. */
  lemma EmittedEnvelopesVerify(c: Primitives, v: Verifiers, wrapping: seq<byte>, ops: seq<Op>, s: Signer,
                               u: UnsignedEnvelope)
    requires Sound(c) && forall op :: op in ops ==> Possible(c, op)
    requires s in Run(c, wrapping, ops).signers && SchemesCorrect(c, v, s.classical)
    requires SignedEnvelope(c, wrapping, Run(c, wrapping, ops).record, s, u).Ok?
    ensures Verify(SignedEnvelope(c, wrapping, Run(c, wrapping, ops).record, s, u).value, ParametersOf(s, u), v).Ok?
            <==> u.context.keyGeneration == s.generation
  {
    RunKeeps(c, wrapping, ops);
    var w := Run(c, wrapping, ops);
    assert w.written[|w.written| - 1] in w.written;
    SignedEnvelopeVerifies(c, v, wrapping, w.record, s, u);
  }

  /** What a signer object releases is recorded: both its signatures are in the history when it is encoded. */
  lemma ReleasedIsRecorded(c: Primitives, wrapping: seq<byte>, w: World, which: nat, u: UnsignedEnvelope)
    requires which < |w.signers| && SignedEnvelope(c, wrapping, w.record, w.signers[which], u).Ok?
    ensures
      var s, w' := w.signers[which], Apply(c, wrapping, w, SignEnvelope(which, u));
      && |w'.endorsed| == |w.endorsed| + 1 && |w'.emitted| == |w.emitted| + 1
      && var d, e := w'.endorsed[|w.endorsed|], w'.emitted[|w.emitted|];
      && d.signer == e.signer == s && d.envelope == u && e.envelope == Some(u)
      && SignedEnvelope(c, wrapping, w.record, s, u)
           == Ok(EncodedEnvelope(u, EnvelopeSignatures(d.signature, e.signature)).value)
  {
    hide EncodedEnvelope, Tbs;
  }

  // ---- What verifies, in every history ----

  /** What the holders of the verifier's two keys signed. */
  function SignedIn(w: World, p: VerificationParameters): Signed {
    Signed(
      set e | e in w.endorsed && e.signer.classical.publicKey == p.classicalPublicKey :: e.envelope,
      set e | e in w.emitted && e.key.publicKey == p.pqPublicKey && e.envelope.Some? :: e.envelope.value,
      set e | e in w.emitted && e.key.publicKey == p.pqPublicKey && e.envelope.None? :: e.message)
  }

  /** The raw messages are those of mdocs, as at the one place that asks for them. */
  ghost predicate OnlyMdocs(ops: seq<Op>) {
    forall op :: op in ops && op.SignRaw? ==> exists header, payload :: op.message == SigStructure(header, payload)
  }

  lemma {:induction false} RawAreMdocs(c: Primitives, wrapping: seq<byte>, ops: seq<Op>, e: Emission)
    requires OnlyMdocs(ops) && e in Run(c, wrapping, ops).emitted && e.envelope.None?
    ensures exists header, payload :: e.message == SigStructure(header, payload)
    decreases |ops|
  {
    hide SigStructure, Identity, Tbs;
    var front, last := ops[..|ops| - 1], ops[|ops| - 1];
    if e in Run(c, wrapping, front).emitted {
      RawAreMdocs(c, wrapping, front, e);
    } else {
      assert last in ops;
    }
  }

  /** In every history, whatever verifies carries exactly what the classical key endorsed and the post-quantum key
      signed as an envelope: the mdocs that the latter signs as well never stand in for one. */
  lemma VerifiedInHistory(c: Primitives, wrapping: seq<byte>, ops: seq<Op>, encoded: seq<byte>,
                          p: VerificationParameters, v: Verifiers, u: UnsignedEnvelope, s: EnvelopeSignatures)
    requires OnlyMdocs(ops)
    requires DecodedEnvelope(encoded, p.purpose, p.context) == Ok((u, s))
    requires Verify(encoded, p, v).Ok? && Unforged(v, p, u, s, SignedIn(Run(c, wrapping, ops), p))
    ensures Expected(u, p)
    ensures exists e :: && e in Run(c, wrapping, ops).endorsed && e.signer.classical.publicKey == p.classicalPublicKey
                        && SameSignedParts(u, e.envelope)
    ensures exists e :: && e in Run(c, wrapping, ops).emitted && e.key.publicKey == p.pqPublicKey
                        && e.envelope.Some? && SameSignedParts(u, e.envelope.value)
  {
    hide Run, DecodedEnvelope, Verify, Tbs, SigStructure;
    var w := Run(c, wrapping, ops);
    var signed := SignedIn(w, p);
    VerifiedIsSigned(encoded, p, v, signed, u, s);
    if Tbs(u).value in signed.raw {
      var e :| e in w.emitted && e.envelope.None? && e.message == Tbs(u).value;
      RawAreMdocs(c, wrapping, ops, e);
      var header, payload :| e.message == SigStructure(header, payload);
      SigStructureIsNoTbs(header, payload, u);
    }
    var d :| d in signed.classical && SameSignedParts(u, d);
    var f :| f in signed.postQuantum && SameSignedParts(u, f);
  }
}
