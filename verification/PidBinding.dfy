// Checking a presented PID: the presentation's parts, its signatures, its binding proof and its disclosures.

module PidBinding {
  import opened Prelude
  import opened Text
  import opened SdJwt
  import opened PresentedPid

  datatype BindingError = InvalidProof | ServerError | RequestDenied

  datatype Binding = Binding(subject: nat, jti: string)

  const MAX_PID_VP: nat := 32768
  const MAX_PROOF_JWT: nat := 8192

  // ---- The parts of a presentation ----

  /** The nonempty parts after the first. */
  function Tail(pidVp: string): seq<string> { NonEmpty(Split(pidVp, '~')[1..]) }

  function Presentation(jwt: string, ds: seq<string>, proof: string): string {
    Join([jwt] + ds + [proof], '~')
  }

  lemma PresentationSplits(jwt: string, ds: seq<string>, proof: string)
    requires '~' !in jwt && '~' !in proof && proof != ""
    requires forall k: nat | k < |ds| :: '~' !in ds[k] && ds[k] != ""
    ensures Split(Presentation(jwt, ds, proof), '~') == [jwt] + ds + [proof]
    ensures Tail(Presentation(jwt, ds, proof)) == ds + [proof]
  {
    var parts := [jwt] + ds + [proof];
    SplitUndoesJoin(parts, '~');
    assert parts[1..] == ds + [proof];
    NonEmptyKeepsAll(ds + [proof]);
  }

  // ---- The credential ----

  function Committed(payload: Json): Option<set<string>> {
    var digests := payload.Get("_sd");
    if digests.None? || !digests.value.JArray? then None
    else Some(set k | 0 <= k < |digests.value.items| && digests.value.items[k].JString? :: digests.value.items[k].text)
  }

  /** Type, issuer and validity interval. */
  predicate PidAccepted(payload: Json, issuer: string, now: u64) {
    var vct, iss, nbf, exp := payload.Get("vct"), payload.Get("iss"), payload.Get("nbf"), payload.Get("exp");
    && vct.Some? && vct.value == JString(PID_VCT)
    && iss.Some? && iss.value.JString? && TrimSlashes(iss.value.text) == TrimSlashes(issuer)
    && nbf.Some? && nbf.value.AsU64().Some? && nbf.value.AsU64().value <= now
    && exp.Some? && exp.value.AsU64().Some? && now < exp.value.AsU64().value
  }

  function HolderKey(env: Env, payload: Json): Option<Key> {
    var cnf :- payload.Get("cnf");
    var jwk :- cnf.Get("jwk");
    if !env.isEcJwk(jwk) then None else env.keyOf(jwk)
  }

  /** What the credential commits to and who holds it. */
  function CheckPid(env: Env, jwt: string, key: Key, issuer: string, now: u64): Option<(set<string>, Key)> {
    var payload :- JwsPayload(env, jwt, key);
    if !PidAccepted(payload, issuer, now) then None
    else
      var committed :- Committed(payload);
      var holder :- HolderKey(env, payload);
      Some((committed, holder))
  }

  // ---- The binding proof ----

  function TextField(v: Json, name: string): Option<string> {
    var field :- v.Get(name);
    field.AsText()
  }

  /** The derived reader takes the six claims by name from an object, or in their order from an array of six. */
  function ReadClaims(v: Json): Option<BindingClaims> {
    if v.JArray? && |v.items| == 6 then
      var aud :- v.items[0].AsText();
      var iat :- v.items[1].AsU64();
      var nonce :- v.items[2].AsText();
      var jti :- v.items[3].AsText();
      var hash :- v.items[4].AsText();
      var jkt :- v.items[5].AsText();
      Some(BindingClaims(aud, iat, nonce, jti, hash, jkt))
    else
      var aud :- TextField(v, "aud");
      var iat :- v.Get("iat");
      var at :- iat.AsU64();
      var nonce :- TextField(v, "nonce");
      var jti :- TextField(v, "jti");
      var hash :- TextField(v, "pid_sd_hash");
      var jkt :- TextField(v, "new_holder_jkt");
      Some(BindingClaims(aud, at, nonce, jti, hash, jkt))
  }

  predicate Binds(env: Env, c: BindingClaims, jwt: string, issuer: string, nonce: string, jkt: string, now: u64) {
    && TrimSlashes(c.aud) == TrimSlashes(issuer)
    && c.nonce == nonce && c.newHolderJkt == jkt
    && c.pidSdHash == DigestOf(env, jwt)
    && 0 < ByteLength(c.jti) <= 256
    && c.iat <= SaturatingAdd(now, 5) && SaturatingSub(now, c.iat) <= 300
  }

  function CheckProof(env: Env, proof: string, holder: Key, jwt: string, issuer: string, nonce: string, jkt: string,
                      now: u64)
    : Option<string>
  {
    var payload :- JwsPayload(env, proof, holder);
    var claims :- ReadClaims(payload);
    if Binds(env, claims, jwt, issuer, nonce, jkt, now) then Some(claims.jti) else None
  }

  // ---- The disclosures ----

  /** The disclosure's items, if it is base64 of a JSON array. */
  function ItemsOf(env: Env, encoded: string): Option<seq<Json>> {
    var bytes :- env.decode64(encoded);
    var v :- env.readJson(bytes);
    if v.JArray? then Some(v.items) else None
  }

  predicate Readable(env: Env, committed: set<string>, encoded: string) {
    DigestOf(env, encoded) in committed && ItemsOf(env, encoded).Some?
  }

  /** The disclosure has three items and names the claim `name`. */
  predicate NamesClaim(env: Env, encoded: string, name: string) {
    var items := ItemsOf(env, encoded);
    items.Some? && |items.value| == 3 && items.value[1] == JString(name)
  }

  function ClaimValue(env: Env, encoded: string): Option<string> {
    var items := ItemsOf(env, encoded);
    if items.Some? && |items.value| == 3 then items.value[2].AsText() else None
  }

  /** The value the last disclosure of the claim gives it, if that is a text. */
  function LastValue(env: Env, ds: seq<string>, name: string): Option<string> {
    if ds == [] then None
    else if NamesClaim(env, ds[|ds| - 1], name) then ClaimValue(env, ds[|ds| - 1])
    else LastValue(env, ds[..|ds| - 1], name)
  }

  predicate IsDemoSubject(env: Env, ds: seq<string>) {
    && LastValue(env, ds, "family_name") == Some(FAMILY_NAME)
    && LastValue(env, ds, "given_name") == Some(GIVEN_NAME)
    && LastValue(env, ds, "birthdate") == Some(BIRTHDATE)
  }

  /** The names joined by unit separators. */
  function CanonicalSubject(): string { FAMILY_NAME + "\U{1f}" + GIVEN_NAME + "\U{1f}" + BIRTHDATE }

  // ---- The whole check ----

  /** The credential, the proof, and the disclosures between them. */
  function CheckParts(env: Env, jwt: string, ds: seq<string>, proof: string, key: Key,
                      issuer: string, nonce: string, jkt: string, now: u64): Result<Binding, BindingError>
  {
    var pid := CheckPid(env, jwt, key, issuer, now);
    if pid.None? then Err(InvalidProof)
    else
      var jti := CheckProof(env, proof, pid.value.1, jwt, issuer, nonce, jkt, now);
      if jti.None? then Err(InvalidProof)
      else if exists k: nat :: k < |ds| && !Readable(env, pid.value.0, ds[k]) then Err(InvalidProof)
      else if !IsDemoSubject(env, ds) then Err(RequestDenied)
      else Ok(Binding(env.hash128(CanonicalSubject()), jti.value))
  }

  function VerifyBinding(env: Env, pidVp: string, proofJwt: string, trustedJwk: Json,
                         issuer: string, nonce: string, jkt: string, now: u64): Result<Binding, BindingError>
  {
    var jwt, tail := Split(pidVp, '~')[0], Tail(pidVp);
    if ByteLength(pidVp) > MAX_PID_VP || ByteLength(proofJwt) > MAX_PROOF_JWT then Err(InvalidProof)
    else if jwt == "" || tail == [] || tail[|tail| - 1] != proofJwt then Err(InvalidProof)
    else if !env.isEcJwk(trustedJwk) then Err(ServerError)
    else if env.keyOf(trustedJwk).None? then Err(InvalidProof)
    else CheckParts(env, jwt, tail[..|tail| - 1], proofJwt, env.keyOf(trustedJwk).value, issuer, nonce, jkt, now)
  }

  /** Reads the disclosures one by one, each name overwriting what an earlier one gave it. */
  method ReadDisclosures(env: Env, committed: set<string>, ds: seq<string>)
    returns (readable: bool, familyName: Option<string>, givenName: Option<string>, birthdate: Option<string>)
    ensures readable <==> forall k: nat | k < |ds| :: Readable(env, committed, ds[k])
    ensures readable ==>
      && familyName == LastValue(env, ds, "family_name")
      && givenName == LastValue(env, ds, "given_name")
      && birthdate == LastValue(env, ds, "birthdate")
  {
    hide ItemsOf;
    familyName, givenName, birthdate := None, None, None;
    for i := 0 to |ds|
      invariant forall k: nat | k < i :: Readable(env, committed, ds[k])
      invariant familyName == LastValue(env, ds[..i], "family_name")
      invariant givenName == LastValue(env, ds[..i], "given_name")
      invariant birthdate == LastValue(env, ds[..i], "birthdate")
    {
      assert ds[..i + 1][..i] == ds[..i] && ds[..i + 1][i] == ds[i];
      if DigestOf(env, ds[i]) !in committed {
        return false, None, None, None;
      }
      var items := ItemsOf(env, ds[i]);
      if items.None? {
        return false, None, None, None;
      }
      var values := items.value;
      if |values| != 3 {
        continue;
      }
      if values[1] == JString("family_name") {
        familyName := values[2].AsText();
      } else if values[1] == JString("given_name") {
        givenName := values[2].AsText();
      } else if values[1] == JString("birthdate") {
        birthdate := values[2].AsText();
      }
    }
    assert ds[..|ds|] == ds;
    readable := true;
  }

  method Verify(env: Env, pidVp: string, proofJwt: string, trustedJwk: Json,
                issuer: string, nonce: string, jkt: string, now: u64) returns (r: Result<Binding, BindingError>)
    ensures r == VerifyBinding(env, pidVp, proofJwt, trustedJwk, issuer, nonce, jkt, now)
  {
    hide CheckPid, CheckProof, Readable, LastValue, ItemsOf;
    if ByteLength(pidVp) > MAX_PID_VP || ByteLength(proofJwt) > MAX_PROOF_JWT {
      return Err(InvalidProof);
    }
    var jwt, tail := Split(pidVp, '~')[0], Tail(pidVp);
    if jwt == "" || tail == [] || tail[|tail| - 1] != proofJwt {
      return Err(InvalidProof);
    }
    if !env.isEcJwk(trustedJwk) {
      return Err(ServerError);
    }
    var key := env.keyOf(trustedJwk);
    if key.None? {
      return Err(InvalidProof);
    }
    var pid := CheckPid(env, jwt, key.value, issuer, now);
    if pid.None? {
      return Err(InvalidProof);
    }
    var jti := CheckProof(env, proofJwt, pid.value.1, jwt, issuer, nonce, jkt, now);
    if jti.None? {
      return Err(InvalidProof);
    }
    var readable, familyName, givenName, birthdate := ReadDisclosures(env, pid.value.0, tail[..|tail| - 1]);
    if !readable {
      return Err(InvalidProof);
    }
    if familyName != Some(FAMILY_NAME) || givenName != Some(GIVEN_NAME) || birthdate != Some(BIRTHDATE) {
      return Err(RequestDenied);
    }
    return Ok(Binding(env.hash128(familyName.value + "\U{1f}" + givenName.value + "\U{1f}" + birthdate.value),
                      jti.value));
  }

  // ---- An issued PID is accepted ----

  /** What an issued payload says, and nothing else. */
  lemma PayloadFields(maker: string, vct: string, pidBound: bool, holderJwk: Json, issuedAt: u64, digests: seq<string>)
    ensures
      var payload := Payload(maker, vct, pidBound, holderJwk, issuedAt, digests);
      && payload.Get("iat") == Some(JNumber(issuedAt))
      && payload.Get("cnf") == Some(JObject(map["jwk" := holderJwk]))
      && payload.Get("_sd_alg") == Some(JString("sha-256"))
      && payload.Get("_sd") == Some(TextArray(digests))
      && payload.Get("cryptographically_bound_to") == (if pidBound then Some(JString(PID_VCT)) else None)
      && payload.fields.Keys == {"iss", "iat", "nbf", "exp", "vct", "cnf", "_sd_alg", "_sd"}
                                + if pidBound then {"cryptographically_bound_to"} else {}
    ensures
      var payload := Payload(maker, vct, pidBound, holderJwk, issuedAt, digests);
      && payload.Get("vct") == Some(JString(vct))
      && payload.Get("iss") == Some(JString(TrimSlashes(maker)))
      && payload.Get("nbf") == Some(JNumber(issuedAt))
      && payload.Get("exp") == Some(JNumber(SaturatingAdd(issuedAt, LIFETIME)))
  {
    hide TrimSlashes;
  }

  /** An issued payload is accepted exactly for its type, its issuer and its time. */
  lemma PayloadAcceptedExactly(maker: string, vct: string, pidBound: bool, holderJwk: Json, issuedAt: u64,
                               digests: seq<string>,
                               issuer: string, now: u64)
    ensures PidAccepted(Payload(maker, vct, pidBound, holderJwk, issuedAt, digests), issuer, now) <==>
            vct == PID_VCT && SameUpToSlashes(maker, issuer) && issuedAt <= now < SaturatingAdd(issuedAt, LIFETIME)
  {
    hide Payload;
    TrimsAgree(maker, issuer);
    PayloadFields(maker, vct, pidBound, holderJwk, issuedAt, digests);
    TrimTwice(maker);
  }

  lemma PayloadCommits(maker: string, vct: string, pidBound: bool, holderJwk: Json, issuedAt: u64, digests: seq<string>)
    ensures Committed(Payload(maker, vct, pidBound, holderJwk, issuedAt, digests)) == Some(set d | d in digests)
  {
    var items := TextArray(digests).items;
    assert forall k :: 0 <= k < |items| ==> items[k] == JString(digests[k]);
    var read := set k | 0 <= k < |items| && items[k].JString? :: items[k].text;
    forall d
      ensures d in read <==> d in digests
    {
      if d in digests {
        var k :| 0 <= k < |digests| && digests[k] == d;
        assert items[k].text == d;
      }
    }
    assert read == set d | d in digests;
  }

  lemma IssuedPidChecks(env: Env, kid: string, key: Key, issuer: string, holderJwk: Json, issuedAt: u64,
                        salts: seq<string>,
                        holder: Key, now: u64)
    requires Base64Faithful(env) && JsonFaithful(env) && SignerFaithful(env, key) && |salts| == 5
        && Shallow(holderJwk, 1)
    requires Issued(env, kid, issuer, PidContent(), holderJwk, issuedAt, salts).Some?
    requires env.isEcJwk(holderJwk) && env.keyOf(holderJwk) == Some(holder)
    requires issuedAt <= now < SaturatingAdd(issuedAt, LIFETIME)
    ensures
      var issued := Issued(env, kid, issuer, PidContent(), holderJwk, issuedAt, salts).value;
      CheckPid(env, issued.0, key, issuer, now) == Some(((set d | d in Digests(env, issued.1)), holder))
  {
    hide JwsPayload, PidAccepted, Committed, Shallow;
    var issued := Issued(env, kid, issuer, PidContent(), holderJwk, issuedAt, salts).value;
    var digests := Digests(env, issued.1);
    var payload := Payload(issuer, PID_VCT, false, holderJwk, issuedAt, digests);
    PayloadIsShallow(issuer, PID_VCT, false, holderJwk, issuedAt, digests);
    SignedPayloadReadsBack(env, Header(kid), payload, env.sign(SigningInput(env, Header(kid), payload)).value, key);
    TrimsAgree(issuer, issuer);
    PayloadAcceptedExactly(issuer, PID_VCT, false, holderJwk, issuedAt, digests, issuer, now);
    PayloadCommits(issuer, PID_VCT, false, holderJwk, issuedAt, digests);
  }

  lemma DisclosureReads(env: Env, salt: string, c: Claim)
    requires Base64Faithful(env) && JsonFaithful(env) && Shallow(c.value, 2)
    ensures ItemsOf(env, Disclosure(env, salt, c)) == Some([JString(salt), JString(c.name), c.value])
  {
    assert Shallow(JArray([JString(salt), JString(c.name), c.value]), 3);
  }

  predicate Distinct(claims: seq<Claim>) {
    forall a, b :: 0 <= a < b < |claims| ==> claims[a].name != claims[b].name
  }

  ghost predicate AllShallow(claims: seq<Claim>) {
    forall k :: 0 <= k < |claims| ==> Shallow(claims[k].value, 2)
  }

  /** Of distinctly named claims, each disclosure names its own and gives its value. */
  lemma OwnNames(env: Env, salts: seq<string>, claims: seq<Claim>, j: nat, i: nat)
    requires Base64Faithful(env) && JsonFaithful(env) && |salts| == |claims| && i < |claims| && j < |claims|
    requires AllShallow(claims) && Distinct(claims)
    ensures NamesClaim(env, Disclosures(env, salts, claims)[j], claims[i].name) <==> j == i
    ensures ClaimValue(env, Disclosures(env, salts, claims)[i]) == claims[i].value.AsText()
  {
    hide ItemsOf, Disclosure, Shallow;
    DisclosureReads(env, salts[j], claims[j]);
    DisclosureReads(env, salts[i], claims[i]);
  }

  /** Over disclosures of one list of distinctly named claims, the last value of a claim is its own once there. */
  lemma {:induction false} LastValueOfClaims(env: Env, salts: seq<string>, claims: seq<Claim>, ds: seq<string>, i: nat)
    requires Base64Faithful(env) && JsonFaithful(env) && |salts| == |claims| && i < |claims|
    requires AllShallow(claims) && Distinct(claims)
    requires forall k: nat | k < |ds| :: ds[k] in Disclosures(env, salts, claims)
    ensures
      LastValue(env, ds, claims[i].name) ==
      if Disclosures(env, salts, claims)[i] in ds then claims[i].value.AsText() else None
  {
    if ds != [] {
      hide NamesClaim, ClaimValue, Disclosures, AllShallow, Distinct, Base64Faithful, JsonFaithful;
      var front, last := ds[..|ds| - 1], ds[|ds| - 1];
      var j: nat :| j < |claims| && last == Disclosures(env, salts, claims)[j];
      OwnNames(env, salts, claims, j, i);
      OwnNames(env, salts, claims, i, i);
      assert ds == front + [last];
      if j != i {
        assert last != Disclosures(env, salts, claims)[i];
        LastValueOfClaims(env, salts, claims, front, i);
      }
    }
  }

  lemma PidClaimNames()
    ensures forall a, b :: 0 <= a < b < 5 ==> PidClaims()[a].name != PidClaims()[b].name
  {
    assert "family_name"[0] == 'f' && "given_name"[0] == 'g' && "birthdate"[0] == 'b';
    assert "age_over_18"[0] == 'a' && "issuing_country"[0] == 'i';
  }

  /** The wallet's proof is a text without separators, signed by the holder key over claims that bind this PID. */
  ghost predicate BoundProof(env: Env, proof: string, holder: Key, jwt: string,
                             issuer: string, nonce: string, jkt: string, now: u64, jti: string)
  {
    '~' !in proof && proof != "" && ProvenBy(env, proof, holder, jwt, issuer, nonce, jkt, now, jti)
  }

  /** Disclosures of one PID, the three identity ones among them, are readable and give the subject. */
  lemma OwnDisclosuresRead(env: Env, salts: seq<string>, ds: seq<string>)
    requires Base64Faithful(env) && JsonFaithful(env) && |salts| == 5
    requires
      var own := Disclosures(env, salts, PidClaims());
      (forall k: nat | k < |ds| :: ds[k] in own) && own[0] in ds && own[1] in ds && own[2] in ds
    ensures IsDemoSubject(env, ds)
    ensures forall k: nat | k < |ds| ::
              Readable(env, (set d | d in Digests(env, Disclosures(env, salts, PidClaims()))), ds[k])
  {
    hide LastValue, ItemsOf, Disclosure;
    var own := Disclosures(env, salts, PidClaims());
    PidClaimNames();
    LastValueOfClaims(env, salts, PidClaims(), ds, 0);
    LastValueOfClaims(env, salts, PidClaims(), ds, 1);
    LastValueOfClaims(env, salts, PidClaims(), ds, 2);
    forall k: nat | k < |ds|
      ensures Readable(env, (set d | d in Digests(env, own)), ds[k])
    {
      var j: nat :| j < |own| && ds[k] == own[j];
      assert Digests(env, own)[j] == DigestOf(env, ds[k]);
      DisclosureReads(env, salts[j], PidClaims()[j]);
    }
  }

  /** Issue, then present: within its validity, with any sequence of its disclosures that has the three identity ones
      and a well-bound proof, within the size limits, an issued PID is accepted for its subject. */
  lemma IssuedThenPresented(env: Env, kid: string, trustedJwk: Json, key: Key, issuer: string, holderJwk: Json,
                            holder: Key,
                            issuedAt: u64, salts: seq<string>, ds: seq<string>, proof: string,
                            nonce: string, jkt: string, jti: string, now: u64)
    requires Base64Faithful(env) && JsonFaithful(env) && SignerFaithful(env, key) && |salts| == 5
        && Shallow(holderJwk, 1)
    requires env.isEcJwk(trustedJwk) && env.keyOf(trustedJwk) == Some(key)
    requires env.isEcJwk(holderJwk) && env.keyOf(holderJwk) == Some(holder)
    requires Issued(env, kid, issuer, PidContent(), holderJwk, issuedAt, salts).Some?
    requires issuedAt <= now < SaturatingAdd(issuedAt, LIFETIME)
    requires
      var issued := Issued(env, kid, issuer, PidContent(), holderJwk, issuedAt, salts).value;
      && (forall k: nat | k < |ds| :: ds[k] in issued.1)
      && issued.1[0] in ds && issued.1[1] in ds && issued.1[2] in ds
      && BoundProof(env, proof, holder, issued.0, issuer, nonce, jkt, now, jti)
      && ByteLength(Presentation(issued.0, ds, proof)) <= MAX_PID_VP && ByteLength(proof) <= MAX_PROOF_JWT
    ensures
      var issued := Issued(env, kid, issuer, PidContent(), holderJwk, issuedAt, salts).value;
      && Split(Presentation(issued.0, ds, proof), '~') == [issued.0] + ds + [proof]
      && VerifyBinding(env, Presentation(issued.0, ds, proof), proof, trustedJwk, issuer, nonce, jkt, now)
         == Ok(Binding(env.hash128(CanonicalSubject()), jti))
  {
    hide CheckPid, CheckProof, ProvenBy, Readable, IsDemoSubject, Payload, Disclosures, Digests, Compact, Shallow,
      ByteLength;
    var issued := Issued(env, kid, issuer, PidContent(), holderJwk, issuedAt, salts).value;
    assert issued.1 == Disclosures(env, salts, PidClaims());
    IssuedIsPlain(env, kid, issuer, PidContent(), holderJwk, issuedAt, salts);
    PresentationSplits(issued.0, ds, proof);
    ProofExactly(env, proof, holder, issued.0, issuer, nonce, jkt, now, jti);
    IssuedPidChecks(env, kid, key, issuer, holderJwk, issuedAt, salts, holder, now);
    OwnDisclosuresRead(env, salts, ds);
  }

  // ---- What acceptance means ----

  /** A signed text is read exactly as what its three parts hold under a signature that verifies. */
  lemma JwsExactly(env: Env, text: string, key: Key, v: Json)
    ensures JwsPayload(env, text, key) == Some(v) <==> SignedText(env, text, key, v)
  {
    var parts := Split(text, '.');
    forall header, body, third | SignedParts(env, text, header, body, third, key)
      ensures parts == [header, body, third]
    {
      assert text == header + ['.'] + (body + ['.'] + third);
      SplitFirst(header, '.', body + ['.'] + third);
      SplitFirst(body, '.', third);
      SplitWhole(third, '.');
    }
    if JwsPayload(env, text, key) == Some(v) {
      ThreeParts(text);
      assert SignedParts(env, text, parts[0], parts[1], parts[2], key);
    }
  }

  lemma ThreeParts(text: string)
    requires |Split(text, '.')| == 3
    ensures
      var parts := Split(text, '.');
      text == parts[0] + "." + parts[1] + "." + parts[2] && '.' !in parts[0] && '.' !in parts[1] && '.' !in parts[2]
  {
    var parts := Split(text, '.');
    JoinUndoesSplit(text, '.');
    assert parts[1..] == [parts[1], parts[2]] && parts[1..][1..] == [parts[2]];
    assert Join(parts[1..], '.') == parts[1] + ['.'] + Join(parts[1..][1..], '.');
    assert Join(parts, '.') == parts[0] + ['.'] + (parts[1] + ['.'] + parts[2]);
    PartsHaveNoSeparator(text, '.', 0);
    PartsHaveNoSeparator(text, '.', 1);
    PartsHaveNoSeparator(text, '.', 2);
  }

  lemma PidInTimeExactly(payload: Json, issuer: string, now: u64)
    ensures PidInTime(payload, issuer, now) <==> PidAccepted(payload, issuer, now) && Committed(payload).Some?
  {
    if payload.JObject? && "iss" in payload.fields && payload.fields["iss"].JString? {
      TrimsAgree(payload.fields["iss"].text, issuer);
    }
  }

  lemma ClaimsExactly(v: Json, c: BindingClaims)
    ensures ReadClaims(v) == Some(c) <==> HasClaims(v, c)
  {
    if HasClaims(v, c) && v.JArray? {
      assert |v.items| == 6;
    }
  }

  lemma FitsExactly(env: Env, c: BindingClaims, jwt: string, issuer: string, nonce: string, jkt: string, now: u64)
    ensures Binds(env, c, jwt, issuer, nonce, jkt, now) <==> Fits(env, c, jwt, issuer, nonce, jkt, now)
  {
    TrimsAgree(c.aud, issuer);
  }

  lemma ProofExactly(env: Env, proof: string, holder: Key, jwt: string,
                     issuer: string, nonce: string, jkt: string, now: u64, jti: string)
    ensures CheckProof(env, proof, holder, jwt, issuer, nonce, jkt, now) == Some(jti) <==>
            ProvenBy(env, proof, holder, jwt, issuer, nonce, jkt, now, jti)
  {
    hide JwsPayload, SignedText, ReadClaims, HasClaims, Binds, Fits;
    forall v
      ensures JwsPayload(env, proof, holder) == Some(v) <==> SignedText(env, proof, holder, v)
    {
      JwsExactly(env, proof, holder, v);
    }
    forall v, c
      ensures ReadClaims(v) == Some(c) <==> HasClaims(v, c)
      ensures Binds(env, c, jwt, issuer, nonce, jkt, now) <==> Fits(env, c, jwt, issuer, nonce, jkt, now)
    {
      ClaimsExactly(v, c);
      FitsExactly(env, c, jwt, issuer, nonce, jkt, now);
    }
  }

  /** The credential is accepted exactly with a payload that commits to the digests and names the holder. */
  lemma PidExactly(env: Env, jwt: string, key: Key, issuer: string, now: u64, payload: Json, holder: Key)
    ensures
      SignedText(env, jwt, key, payload) && PidInTime(payload, issuer, now) && HeldBy(env, payload, holder) <==>
      && JwsPayload(env, jwt, key) == Some(payload) && Committed(payload).Some?
      && CheckPid(env, jwt, key, issuer, now) == Some((Committed(payload).value, holder))
  {
    hide JwsPayload, SignedText, PidAccepted, PidInTime, Committed;
    JwsExactly(env, jwt, key, payload);
    PidInTimeExactly(payload, issuer, now);
  }

  lemma ReadableExactly(env: Env, payload: Json, d: string)
    ensures CommittedIn(env, payload, d) <==> Committed(payload).Some? && Readable(env, Committed(payload).value, d)
  {
    if ItemsOf(env, d).Some? {
      assert Reads(env, d, JArray(ItemsOf(env, d).value));
    }
    if Committed(payload).Some? {
      var items := payload.fields["_sd"].items;
      if DigestOf(env, d) in Committed(payload).value {
        var k :| 0 <= k < |items| && items[k].JString? && items[k].text == DigestOf(env, d);
        assert items[k] == JString(DigestOf(env, d));
      }
    }
  }

  /** Three items are a salt, a name and a value. */
  lemma DisclosesExactly(env: Env, d: string, name: string)
    ensures NamesClaim(env, d, name) <==> exists v :: Discloses(env, d, name, v)
    ensures forall v :: Discloses(env, d, name, v) ==> ClaimValue(env, d) == v.AsText()
  {
    if NamesClaim(env, d, name) {
      var items := ItemsOf(env, d).value;
      assert items == [items[0], JString(name), items[2]];
      assert Discloses(env, d, name, items[2]);
    }
  }

  ghost predicate Names(env: Env, d: string, name: string) {
    exists v :: Discloses(env, d, name, v)
  }

  /** A last disclosure that names the claim decides; one that does not changes nothing. */
  lemma LastNamedStep(env: Env, ds: seq<string>, d: string, name: string, value: string)
    ensures LastNamed(env, ds + [d], name, value) <==>
            if Names(env, d, name) then Discloses(env, d, name, JString(value)) else LastNamed(env, ds, name, value)
  {
    hide Discloses;
    var all := ds + [d];
    if LastNamed(env, all, name, value) {
      var k: nat :| k < |all| && Discloses(env, all[k], name, JString(value))
                    && forall j: nat, other | k < j < |all| :: !Discloses(env, all[j], name, other);
      if k < |ds| {
        assert !Names(env, all[|ds|], name);
        assert forall j: nat | k < j < |ds| :: all[j] == ds[j];
      }
    }
    if Discloses(env, d, name, JString(value)) {
      assert Discloses(env, all[|ds|], name, JString(value));
    } else if !Names(env, d, name) && LastNamed(env, ds, name, value) {
      var k: nat :| k < |ds| && Discloses(env, ds[k], name, JString(value))
                    && forall j: nat, other | k < j < |ds| :: !Discloses(env, ds[j], name, other);
      assert Discloses(env, all[k], name, JString(value));
    }
  }

  /** The value read for a claim is the text that the last disclosure naming it gives. */
  lemma {:induction false} LastValueIsLastNamed(env: Env, ds: seq<string>, name: string, value: string)
    ensures LastValue(env, ds, name) == Some(value) <==> LastNamed(env, ds, name, value)
  {
    hide NamesClaim, ClaimValue, Discloses;
    if ds != [] {
      hide LastNamed;
      var front, d := ds[..|ds| - 1], ds[|ds| - 1];
      assert ds == front + [d];
      LastValueIsLastNamed(env, front, name, value);
      LastNamedStep(env, front, d, name, value);
      DisclosesExactly(env, d, name);
    }
  }

  /** The disclosures are readable as committed in the payload, and name the demonstration subject. */
  ghost predicate Disclosed(env: Env, payload: Json, ds: seq<string>) {
    && (forall d :: d in ds ==> CommittedIn(env, payload, d))
    && LastNamed(env, ds, "family_name", FAMILY_NAME)
    && LastNamed(env, ds, "given_name", GIVEN_NAME)
    && LastNamed(env, ds, "birthdate", BIRTHDATE)
  }

  lemma DisclosedExactly(env: Env, payload: Json, ds: seq<string>)
    requires Committed(payload).Some?
    ensures Disclosed(env, payload, ds) <==>
            IsDemoSubject(env, ds) && forall k: nat | k < |ds| :: Readable(env, Committed(payload).value, ds[k])
  {
    hide Readable, LastValue, LastNamed, Committed, CommittedIn;
    LastValueIsLastNamed(env, ds, "family_name", FAMILY_NAME);
    LastValueIsLastNamed(env, ds, "given_name", GIVEN_NAME);
    LastValueIsLastNamed(env, ds, "birthdate", BIRTHDATE);
    forall d
      ensures CommittedIn(env, payload, d) <==> Readable(env, Committed(payload).value, d)
    {
      ReadableExactly(env, payload, d);
    }
  }

  lemma PartsExactly(env: Env, jwt: string, ds: seq<string>, proof: string, key: Key,
                     issuer: string, nonce: string, jkt: string, now: u64, b: Binding)
    ensures
      CheckParts(env, jwt, ds, proof, key, issuer, nonce, jkt, now) == Ok(b) <==>
      b.subject == env.hash128(CanonicalSubject()) && Genuine(env, jwt, ds, proof, key, issuer, nonce, jkt, now, b.jti)
  {
    hide CheckProof, Readable, IsDemoSubject, CanonicalSubject, SignedText, PidInTime, HeldBy, JwsPayload, PidAccepted,
      HolderKey, Committed, ProvenBy, Disclosed;
    if CheckParts(env, jwt, ds, proof, key, issuer, nonce, jkt, now) == Ok(b) {
      var payload, holder := JwsPayload(env, jwt, key).value, CheckPid(env, jwt, key, issuer, now).value.1;
      PidExactly(env, jwt, key, issuer, now, payload, holder);
      ProofExactly(env, proof, holder, jwt, issuer, nonce, jkt, now, b.jti);
      DisclosedExactly(env, payload, ds);
      Assembled(env, jwt, ds, proof, key, payload, holder, issuer, nonce, jkt, now, b.jti);
    }
    if Genuine(env, jwt, ds, proof, key, issuer, nonce, jkt, now, b.jti) {
      var payload, holder :| HangTogether(env, jwt, ds, proof, key, payload, holder, issuer, nonce, jkt, now, b.jti);
      Assembled(env, jwt, ds, proof, key, payload, holder, issuer, nonce, jkt, now, b.jti);
      PidExactly(env, jwt, key, issuer, now, payload, holder);
      ProofExactly(env, proof, holder, jwt, issuer, nonce, jkt, now, b.jti);
      DisclosedExactly(env, payload, ds);
    }
  }

  lemma Assembled(env: Env, jwt: string, ds: seq<string>, proof: string, key: Key, payload: Json, holder: Key,
                  issuer: string, nonce: string, jkt: string, now: u64, jti: string)
    ensures HangTogether(env, jwt, ds, proof, key, payload, holder, issuer, nonce, jkt, now, jti) <==>
            && SignedText(env, jwt, key, payload) && PidInTime(payload, issuer, now) && HeldBy(env, payload, holder)
            && ProvenBy(env, proof, holder, jwt, issuer, nonce, jkt, now, jti) && Disclosed(env, payload, ds)
  {
  }

  lemma SplitsExactly(text: string, parts: seq<string>)
    ensures Split(text, '~') == parts <==> SplitsInto(text, parts)
  {
    JoinUndoesSplit(text, '~');
    forall k: nat | k < |Split(text, '~')|
      ensures '~' !in Split(text, '~')[k]
    {
      PartsHaveNoSeparator(text, '~', k);
    }
    if SplitsInto(text, parts) {
      SplitUndoesJoin(parts, '~');
    }
  }

  /** A presentation is accepted exactly if, within the sizes, its nonempty parts are a credential signed by the trusted
      key, disclosures each committed in `_sd`, and the supplied proof signed by the credential's own holder. */
  lemma AcceptedExactly(env: Env, pidVp: string, proof: string, trustedJwk: Json,
                        issuer: string, nonce: string, jkt: string, now: u64, b: Binding)
    ensures
      VerifyBinding(env, pidVp, proof, trustedJwk, issuer, nonce, jkt, now) == Ok(b) <==>
      && ByteLength(pidVp) <= MAX_PID_VP && ByteLength(proof) <= MAX_PROOF_JWT
      && env.isEcJwk(trustedJwk) && env.keyOf(trustedJwk).Some?
      && b.subject == env.hash128(CanonicalSubject())
      && Presents(env, pidVp, proof, env.keyOf(trustedJwk).value, issuer, nonce, jkt, now, b.jti)
  {
    hide CheckParts, Genuine, CanonicalSubject, Split, NonEmpty, Join;
    var parts, tail := Split(pidVp, '~'), Tail(pidVp);
    if env.keyOf(trustedJwk).Some? {
      var key := env.keyOf(trustedJwk).value;
      SplitsExactly(pidVp, parts);
      forall other | SplitsInto(pidVp, other)
        ensures other == parts
      {
        SplitsExactly(pidVp, other);
      }
      if tail != [] {
        var ds := tail[..|tail| - 1];
        PartsExactly(env, parts[0], ds, proof, key, issuer, nonce, jkt, now, b);
        assert tail == ds + [tail[|tail| - 1]];
        forall other | tail == other + [proof]
          ensures other == ds && tail[|tail| - 1] == proof
        {
          assert other == (other + [proof])[..|tail| - 1];
        }
      }
    }
  }

  /** All hangs together but the identity: another person's PID, or too little of it disclosed. */
  ghost predicate OtherIdentity(env: Env, jwt: string, ds: seq<string>, proof: string, key: Key,
                                issuer: string, nonce: string, jkt: string, now: u64)
  {
    exists payload, holder, jti ::
      && SignedText(env, jwt, key, payload) && PidInTime(payload, issuer, now) && HeldBy(env, payload, holder)
      && ProvenBy(env, proof, holder, jwt, issuer, nonce, jkt, now, jti)
      && (forall d :: d in ds ==> CommittedIn(env, payload, d))
      && !Disclosed(env, payload, ds)
  }

  lemma PartsDeniedExactly(env: Env, jwt: string, ds: seq<string>, proof: string, key: Key,
                           issuer: string, nonce: string, jkt: string, now: u64)
    ensures CheckParts(env, jwt, ds, proof, key, issuer, nonce, jkt, now) == Err(RequestDenied) <==>
            OtherIdentity(env, jwt, ds, proof, key, issuer, nonce, jkt, now)
    ensures CheckParts(env, jwt, ds, proof, key, issuer, nonce, jkt, now) != Err(ServerError)
  {
    hide CheckProof, Readable, IsDemoSubject, CanonicalSubject, SignedText, PidInTime, HeldBy, JwsPayload, PidAccepted,
      HolderKey, Committed, ProvenBy, Disclosed, CommittedIn;
    forall payload, d
      ensures CommittedIn(env, payload, d) <==> Committed(payload).Some? && Readable(env, Committed(payload).value, d)
    {
      ReadableExactly(env, payload, d);
    }
    if CheckParts(env, jwt, ds, proof, key, issuer, nonce, jkt, now) == Err(RequestDenied) {
      var payload, holder := JwsPayload(env, jwt, key).value, CheckPid(env, jwt, key, issuer, now).value.1;
      var jti := CheckProof(env, proof, holder, jwt, issuer, nonce, jkt, now).value;
      PidExactly(env, jwt, key, issuer, now, payload, holder);
      ProofExactly(env, proof, holder, jwt, issuer, nonce, jkt, now, jti);
      DisclosedExactly(env, payload, ds);
    }
    if OtherIdentity(env, jwt, ds, proof, key, issuer, nonce, jkt, now) {
      var payload, holder, jti :|
        && SignedText(env, jwt, key, payload) && PidInTime(payload, issuer, now) && HeldBy(env, payload, holder)
        && ProvenBy(env, proof, holder, jwt, issuer, nonce, jkt, now, jti)
        && (forall d :: d in ds ==> CommittedIn(env, payload, d))
        && !Disclosed(env, payload, ds);
      PidExactly(env, jwt, key, issuer, now, payload, holder);
      ProofExactly(env, proof, holder, jwt, issuer, nonce, jkt, now, jti);
      DisclosedExactly(env, payload, ds);
    }
  }

  /** Within the sizes, the nonempty parts after the credential end in the proof. */
  ghost predicate WellParted(pidVp: string, proof: string) {
    && ByteLength(pidVp) <= MAX_PID_VP && ByteLength(proof) <= MAX_PROOF_JWT
    && exists parts, ds :: SplitsInto(pidVp, parts) && parts[0] != "" && NonEmpty(parts[1..]) == ds + [proof]
  }

  /** Which refusal is given: the identity's only if all else holds, the server's only for its own key. */
  lemma RefusedExactly(env: Env, pidVp: string, proof: string, trustedJwk: Json,
                       issuer: string, nonce: string, jkt: string, now: u64)
    ensures
      var r := VerifyBinding(env, pidVp, proof, trustedJwk, issuer, nonce, jkt, now);
      && (r == Err(ServerError) <==> WellParted(pidVp, proof) && !env.isEcJwk(trustedJwk))
      && (r == Err(RequestDenied) <==>
          && WellParted(pidVp, proof) && env.isEcJwk(trustedJwk) && env.keyOf(trustedJwk).Some?
          && forall parts, ds :: SplitsInto(pidVp, parts) && NonEmpty(parts[1..]) == ds + [proof] ==>
               OtherIdentity(env, parts[0], ds, proof, env.keyOf(trustedJwk).value, issuer, nonce, jkt, now))
  {
    hide CheckParts, OtherIdentity, Split, NonEmpty, Join;
    var parts, tail := Split(pidVp, '~'), Tail(pidVp);
    SplitsExactly(pidVp, parts);
    forall other | SplitsInto(pidVp, other)
      ensures other == parts
    {
      SplitsExactly(pidVp, other);
    }
    if tail != [] {
      var ds := tail[..|tail| - 1];
      assert tail == ds + [tail[|tail| - 1]];
      forall other | tail == other + [proof]
        ensures other == ds && tail[|tail| - 1] == proof
      {
        assert other == (other + [proof])[..|tail| - 1];
      }
      if env.keyOf(trustedJwk).Some? {
        PartsDeniedExactly(env, parts[0], ds, proof, env.keyOf(trustedJwk).value, issuer, nonce, jkt, now);
      }
    }
  }

  // ---- Acceptance and issuance ----

  /** One run of the issuing loop, as it was asked for. */
  datatype Issuance = Issuance(kid: string, issuer: string, content: Content, holderJwk: Json, issuedAt: u64,
                               salts: seq<string>)

  /** As many salts as claims, and nothing nested deeper than the service nests it. */
  ghost predicate WellFormed(i: Issuance) {
    && |i.salts| == |i.content.claims| && Shallow(i.holderJwk, 1)
    && forall k :: 0 <= k < |i.content.claims| ==> Shallow(i.content.claims[k].value, 2)
  }

  function DisclosuresOf(env: Env, i: Issuance): seq<string>
    requires |i.salts| == |i.content.claims|
  {
    Disclosures(env, i.salts, i.content.claims)
  }

  function PayloadOf(env: Env, i: Issuance): Json
    requires |i.salts| == |i.content.claims|
  {
    Payload(i.issuer, i.content.vct, i.content.pidBound, i.holderJwk, i.issuedAt, Digests(env, DisclosuresOf(env, i)))
  }

  /** The bytes the issuance has signed. */
  function InputOf(env: Env, i: Issuance): string
    requires |i.salts| == |i.content.claims|
  {
    SigningInput(env, Header(i.kid), PayloadOf(env, i))
  }

  /** The credential's signature was not forged: it verifies under the key only if an issuance had that text signed. */
  ghost predicate SignedByIssuance(env: Env, jwt: string, key: Key, issued: set<Issuance>)
  {
    forall header, body, third :: SignedParts(env, jwt, header, body, third, key) ==>
      exists i | i in issued :: WellFormed(i) && header + "." + body == InputOf(env, i)
  }

  /** No presented disclosure shares its digest with another disclosure of an issuance. */
  ghost predicate NoCollision(env: Env, ds: seq<string>, issued: set<Issuance>)
  {
    forall d, i, e :: d in ds && i in issued && WellFormed(i) && e in DisclosuresOf(env, i) ==>
      env.sha256(d) == env.sha256(e) ==> d == e
  }

  /** The text is the issuance's header and payload, under a signature that verifies. */
  ghost predicate SignedFor(env: Env, jwt: string, key: Key, i: Issuance)
    requires WellFormed(i)
  {
    exists third :: SignedParts(env, jwt, Encoded(env, Header(i.kid)), Encoded(env, PayloadOf(env, i)), third, key)
  }

  /** A credential that reads under the key has the payload of an issuance. */
  lemma ReadsAsIssued(env: Env, jwt: string, key: Key, payload: Json, issued: set<Issuance>) returns (i: Issuance)
    requires Base64Faithful(env) && JsonFaithful(env) && (forall i :: i in issued ==> WellFormed(i))
    requires SignedByIssuance(env, jwt, key, issued) && SignedText(env, jwt, key, payload)
    ensures i in issued && payload == PayloadOf(env, i) && SignedFor(env, jwt, key, i)
  {
    hide Header, Payload, Disclosures;
    var header, body, third :| SignedParts(env, jwt, header, body, third, key) && Reads(env, body, payload);
    i :| i in issued && header + "." + body == InputOf(env, i);
    TwoPartsDetermine(header, body, Encoded(env, Header(i.kid)), Encoded(env, PayloadOf(env, i)), '.');
    PayloadIsShallow(i.issuer, i.content.vct, i.content.pidBound, i.holderJwk, i.issuedAt,
                     Digests(env, DisclosuresOf(env, i)));
  }

  /** A committed disclosure is the issuance's own. */
  lemma CommittedIsOwn(env: Env, d: string, ds: seq<string>, i: Issuance, issued: set<Issuance>)
    requires Base64Faithful(env) && i in issued && WellFormed(i)
    requires NoCollision(env, ds, issued) && d in ds && DigestOf(env, d) in Digests(env, DisclosuresOf(env, i))
    ensures d in DisclosuresOf(env, i)
  {
    var own := DisclosuresOf(env, i);
    var k :| 0 <= k < |own| && Digests(env, own)[k] == DigestOf(env, d);
    assert env.decode64(env.encode64(env.sha256(d))) == env.decode64(env.encode64(env.sha256(own[k])));
  }

  lemma OwnDiscloses(env: Env, salt: string, c: Claim, name: string, value: Json)
    requires Base64Faithful(env) && JsonFaithful(env) && Shallow(c.value, 2)
    requires Discloses(env, Disclosure(env, salt, c), name, value)
    ensures c == Claim(name, value)
  {
    DisclosureReads(env, salt, c);
  }

  /** What the issuance's own disclosures say of a claim, its content says. */
  lemma NamedIsContent(env: Env, ds: seq<string>, i: Issuance, name: string, value: string)
    requires Base64Faithful(env) && JsonFaithful(env) && WellFormed(i)
    requires (forall d :: d in ds ==> d in DisclosuresOf(env, i)) && LastNamed(env, ds, name, value)
    ensures Claim(name, JString(value)) in i.content.claims
  {
    hide Disclosure, Shallow, Discloses;
    var k: nat :| k < |ds| && Discloses(env, ds[k], name, JString(value));
    assert ds[k] in DisclosuresOf(env, i);
    var j: nat :| j < |i.content.claims| && ds[k] == DisclosuresOf(env, i)[j];
    DisclosureReads(env, i.salts[j], i.content.claims[j]);
    OwnDiscloses(env, i.salts[j], i.content.claims[j], name, JString(value));
    assert i.content.claims[j] == Claim(name, JString(value));
  }

  /** The presentation is an issued PID: signed for the issuance, in its time and by its issuer, with disclosures all
      its own, the required identity among its claims, and the proof by the holder it was issued to. */
  ghost predicate PresentsIssuance(env: Env, jwt: string, ds: seq<string>, proof: string, key: Key, i: Issuance,
                                   issuer: string, nonce: string, jkt: string, now: u64, jti: string)
    requires WellFormed(i)
  {
    && SignedFor(env, jwt, key, i)
    && i.content.vct == PID_VCT && SameUpToSlashes(i.issuer, issuer)
    && i.issuedAt <= now < SaturatingAdd(i.issuedAt, LIFETIME)
    && (forall d :: d in ds ==> d in DisclosuresOf(env, i))
    && Claim("family_name", JString(FAMILY_NAME)) in i.content.claims
    && Claim("given_name", JString(GIVEN_NAME)) in i.content.claims
    && Claim("birthdate", JString(BIRTHDATE)) in i.content.claims
    && env.keyOf(i.holderJwk).Some?
    && ProvenBy(env, proof, env.keyOf(i.holderJwk).value, jwt, issuer, nonce, jkt, now, jti)
  }

  lemma GenuineIsIssued(env: Env, jwt: string, ds: seq<string>, proof: string, key: Key,
                        issuer: string, nonce: string, jkt: string, now: u64, jti: string, issued: set<Issuance>)
    requires Base64Faithful(env) && JsonFaithful(env) && (forall i :: i in issued ==> WellFormed(i))
    requires SignedByIssuance(env, jwt, key, issued) && NoCollision(env, ds, issued)
    requires Genuine(env, jwt, ds, proof, key, issuer, nonce, jkt, now, jti)
    ensures exists i | i in issued ::
        WellFormed(i) && PresentsIssuance(env, jwt, ds, proof, key, i, issuer, nonce, jkt, now, jti)
  {
    hide PidAccepted, Committed, Payload, LastNamed, Disclosures, Header, Shallow, SignedText, SignedFor, ProvenBy,
      SignedByIssuance, PidInTime, SameUpToSlashes;
    var payload, holder :| HangTogether(env, jwt, ds, proof, key, payload, holder, issuer, nonce, jkt, now, jti);
    var i := ReadsAsIssued(env, jwt, key, payload, issued);
    var digests := Digests(env, DisclosuresOf(env, i));
    PidInTimeExactly(payload, issuer, now);
    PayloadAcceptedExactly(i.issuer, i.content.vct, i.content.pidBound, i.holderJwk, i.issuedAt, digests, issuer, now);
    PayloadCommits(i.issuer, i.content.vct, i.content.pidBound, i.holderJwk, i.issuedAt, digests);
    PayloadHolds(env, i, holder);
    forall d | d in ds
      ensures d in DisclosuresOf(env, i)
    {
      ReadableExactly(env, payload, d);
      CommittedIsOwn(env, d, ds, i, issued);
    }
    NamedIsContent(env, ds, i, "family_name", FAMILY_NAME);
    NamedIsContent(env, ds, i, "given_name", GIVEN_NAME);
    NamedIsContent(env, ds, i, "birthdate", BIRTHDATE);
    assert PresentsIssuance(env, jwt, ds, proof, key, i, issuer, nonce, jkt, now, jti);
  }

  lemma PayloadHolds(env: Env, i: Issuance, holder: Key)
    requires |i.salts| == |i.content.claims| && HeldBy(env, PayloadOf(env, i), holder)
    ensures env.keyOf(i.holderJwk) == Some(holder)
  {
  }

  /** With a signature that was not forged and digests that do not collide, what is accepted is some earlier issuance,
      presented with a sequence of its own disclosures. */
  lemma AcceptedWasIssued(env: Env, pidVp: string, proof: string, trustedJwk: Json, key: Key,
                          issuer: string, nonce: string, jkt: string, now: u64, b: Binding, issued: set<Issuance>)
    requires Base64Faithful(env) && JsonFaithful(env) && (forall i :: i in issued ==> WellFormed(i))
    requires env.keyOf(trustedJwk) == Some(key)
    requires VerifyBinding(env, pidVp, proof, trustedJwk, issuer, nonce, jkt, now) == Ok(b)
    requires forall parts :: SplitsInto(pidVp, parts) ==> SignedByIssuance(env, parts[0], key, issued)
    requires forall parts, ds ::
        SplitsInto(pidVp, parts) && NonEmpty(parts[1..]) == ds + [proof] ==> NoCollision(env, ds, issued)
    ensures exists parts, ds, i | i in issued ::
      && SplitsInto(pidVp, parts) && NonEmpty(parts[1..]) == ds + [proof] && WellFormed(i)
      && PresentsIssuance(env, parts[0], ds, proof, key, i, issuer, nonce, jkt, now, b.jti)
  {
    hide VerifyBinding, Genuine, PresentsIssuance, SignedByIssuance, NoCollision, NonEmpty;
    AcceptedExactly(env, pidVp, proof, trustedJwk, issuer, nonce, jkt, now, b);
    var parts, ds :| SplitsInto(pidVp, parts) && parts != [] && NonEmpty(parts[1..]) == ds + [proof]
                     && Genuine(env, parts[0], ds, proof, key, issuer, nonce, jkt, now, b.jti);
    GenuineIsIssued(env, parts[0], ds, proof, key, issuer, nonce, jkt, now, b.jti, issued);
  }
}
