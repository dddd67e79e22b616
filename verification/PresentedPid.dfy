// What an acceptable presentation of a PID is, said of its texts, values and signatures alone, without the check's own
// functions.

module PresentedPid {
  import opened Prelude
  import opened Text
  import opened SdJwt

  datatype BindingClaims = BindingClaims(
    aud: string, iat: u64, nonce: string, jti: string, pidSdHash: string, newHolderJkt: string)

  // ---- Signed texts ----

  /** The text is three parts, the last a signature over the first two that verifies, the second the payload. */
  predicate SignedParts(env: Env, text: string, header: string, body: string, third: string, key: Key) {
    && text == header + "." + body + "." + third && '.' !in header && '.' !in body && '.' !in third
    && env.decode64(third).Some? && env.verifies(key, header + "." + body, env.decode64(third).value)
  }

  predicate Reads(env: Env, text: string, v: Json) {
    env.decode64(text).Some? && env.readJson(env.decode64(text).value) == Some(v)
  }

  ghost predicate SignedText(env: Env, text: string, key: Key, payload: Json) {
    exists header, body, third :: SignedParts(env, text, header, body, third, key) && Reads(env, body, payload)
  }

  // ---- The credential ----

  /** The texts differ in slashes at their ends at most. */
  ghost predicate SameUpToSlashes(a: string, b: string) {
    exists stem, i: nat, j: nat :: a == stem + Slashes(i) && b == stem + Slashes(j)
  }

  /** Type, issuer and validity, and a list of digests. */
  ghost predicate PidInTime(payload: Json, issuer: string, now: u64) {
    && payload.JObject?
    && var f := payload.fields;
    && "vct" in f && f["vct"] == JString(PID_VCT)
    && "iss" in f && f["iss"].JString? && SameUpToSlashes(f["iss"].text, issuer)
    && "nbf" in f && f["nbf"].JNumber? && 0 <= f["nbf"].number <= now
    && "exp" in f && f["exp"].JNumber? && now < f["exp"].number
    && "_sd" in f && f["_sd"].JArray?
  }

  /** The payload's `cnf.jwk` is the key `holder`. */
  predicate HeldBy(env: Env, payload: Json, holder: Key) {
    && payload.JObject? && "cnf" in payload.fields
    && var cnf := payload.fields["cnf"];
    && cnf.JObject? && "jwk" in cnf.fields
    && env.isEcJwk(cnf.fields["jwk"]) && env.keyOf(cnf.fields["jwk"]) == Some(holder)
  }

  // ---- The binding proof ----

  /** The claims as an object's fields, or as an array in their order. */
  predicate HasClaims(v: Json, c: BindingClaims) {
    || v == JArray([JString(c.aud), JNumber(c.iat), JString(c.nonce), JString(c.jti),
                    JString(c.pidSdHash), JString(c.newHolderJkt)])
    || (&& v.JObject?
        && "aud" in v.fields && v.fields["aud"] == JString(c.aud)
        && "iat" in v.fields && v.fields["iat"] == JNumber(c.iat)
        && "nonce" in v.fields && v.fields["nonce"] == JString(c.nonce)
        && "jti" in v.fields && v.fields["jti"] == JString(c.jti)
        && "pid_sd_hash" in v.fields && v.fields["pid_sd_hash"] == JString(c.pidSdHash)
        && "new_holder_jkt" in v.fields && v.fields["new_holder_jkt"] == JString(c.newHolderJkt))
  }

  /** The claims name this issuer, nonce, new holder and credential, at most 300 seconds ago. */
  ghost predicate Fits(env: Env, c: BindingClaims, jwt: string, issuer: string, nonce: string, jkt: string, now: u64) {
    && SameUpToSlashes(c.aud, issuer)
    && c.nonce == nonce && c.newHolderJkt == jkt
    && c.pidSdHash == env.encode64(env.sha256(jwt))
    && 1 <= ByteLength(c.jti) <= 256
    && now - 300 <= c.iat <= now + 5
  }

  /** The holder signed such claims, with the identifier `jti`. */
  ghost predicate ProvenBy(env: Env, proof: string, holder: Key, jwt: string,
                           issuer: string, nonce: string, jkt: string, now: u64, jti: string)
  {
    exists v, c ::
      SignedText(env, proof, holder, v) && HasClaims(v, c) && c.jti == jti && Fits(env, c, jwt, issuer, nonce, jkt, now)
  }

  // ---- The disclosures ----

  /** The digest of the disclosure is listed in `_sd`, and it is base64 of a JSON array. */
  ghost predicate CommittedIn(env: Env, payload: Json, d: string) {
    && payload.JObject? && "_sd" in payload.fields && payload.fields["_sd"].JArray?
    && JString(env.encode64(env.sha256(d))) in payload.fields["_sd"].items
    && exists items :: Reads(env, d, JArray(items))
  }

  /** The disclosure says of the claim `name` that it is `value`. */
  ghost predicate Discloses(env: Env, d: string, name: string, value: Json) {
    exists salt :: Reads(env, d, JArray([salt, JString(name), value]))
  }

  /** The last disclosure that names the claim gives it the text `value`. */
  ghost predicate LastNamed(env: Env, ds: seq<string>, name: string, value: string) {
    exists k: nat ::
      && k < |ds| && Discloses(env, ds[k], name, JString(value))
      && forall j: nat, other | k < j < |ds| :: !Discloses(env, ds[j], name, other)
  }

  // ---- The presentation ----

  /** The credential `jwt` with payload `payload` of `holder`, the disclosures and the proof hang together. */
  ghost predicate HangTogether(env: Env, jwt: string, ds: seq<string>, proof: string, key: Key,
                               payload: Json, holder: Key,
                               issuer: string, nonce: string, jkt: string, now: u64, jti: string)
  {
    && SignedText(env, jwt, key, payload) && PidInTime(payload, issuer, now) && HeldBy(env, payload, holder)
    && ProvenBy(env, proof, holder, jwt, issuer, nonce, jkt, now, jti)
    && (forall d :: d in ds ==> CommittedIn(env, payload, d))
    && LastNamed(env, ds, "family_name", FAMILY_NAME)
    && LastNamed(env, ds, "given_name", GIVEN_NAME)
    && LastNamed(env, ds, "birthdate", BIRTHDATE)
  }

  ghost predicate Genuine(env: Env, jwt: string, ds: seq<string>, proof: string, key: Key,
                          issuer: string, nonce: string, jkt: string, now: u64, jti: string)
  {
    exists payload, holder ::
      HangTogether(env, jwt, ds, proof, key, payload, holder, issuer, nonce, jkt, now, jti)
  }

  /** The parts between the tildes. */
  ghost predicate SplitsInto(text: string, parts: seq<string>) {
    |parts| > 0 && text == Join(parts, '~') && forall p :: p in parts ==> '~' !in p
  }

  /** The presentation is a credential, disclosures and the proof, joined by tildes with any number of empty parts after
      the credential, and these hang together. */
  ghost predicate Presents(env: Env, pidVp: string, proof: string, key: Key,
                           issuer: string, nonce: string, jkt: string, now: u64, jti: string)
  {
    exists parts, ds ::
      && SplitsInto(pidVp, parts) && parts[0] != ""
      && NonEmpty(parts[1..]) == ds + [proof]
      && Genuine(env, parts[0], ds, proof, key, issuer, nonce, jkt, now, jti)
  }
}
