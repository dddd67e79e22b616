// Selective-disclosure credentials: text split on a separator, JSON, compact signatures, issuance of the PID.

module Text {
  import opened Prelude

  /** `str::split`: always at least one part. */
  function Split(s: string, sep: char): (parts: seq<string>)
    ensures |parts| > 0
  {
    if s == "" then [""]
    else
      var rest := Split(s[1..], sep);
      if s[0] == sep then [""] + rest else [[s[0]] + rest[0]] + rest[1..]
  }

  function Join(parts: seq<string>, sep: char): string {
    if parts == [] then ""
    else if |parts| == 1 then parts[0]
    else parts[0] + [sep] + Join(parts[1..], sep)
  }

  lemma {:induction false} SplitWhole(p: string, sep: char)
    requires sep !in p
    ensures Split(p, sep) == [p]
  {
    if p != "" {
      SplitWhole(p[1..], sep);
      assert [p[0]] + p[1..] == p;
    }
  }

  lemma {:induction false} SplitFirst(p: string, sep: char, rest: string)
    requires sep !in p
    ensures Split(p + [sep] + rest, sep) == [p] + Split(rest, sep)
  {
    var s := p + [sep] + rest;
    if p == "" {
      assert s == [sep] + rest;
      assert s[1..] == rest;
    } else {
      SplitFirst(p[1..], sep, rest);
      assert s[1..] == p[1..] + [sep] + rest;
      assert [p[0]] + p[1..] == p;
    }
  }

  /** Parts without the separator come back from their join. */
  lemma {:induction false} SplitUndoesJoin(parts: seq<string>, sep: char)
    requires |parts| > 0 && forall k: nat | k < |parts| :: sep !in parts[k]
    ensures Split(Join(parts, sep), sep) == parts
  {
    if |parts| == 1 {
      SplitWhole(parts[0], sep);
    } else {
      SplitUndoesJoin(parts[1..], sep);
      SplitFirst(parts[0], sep, Join(parts[1..], sep));
    }
  }

  /** And a text comes back from its parts, so splitting loses nothing. */
  lemma {:induction false} JoinUndoesSplit(s: string, sep: char)
    ensures Join(Split(s, sep), sep) == s
  {
    if s != "" {
      JoinUndoesSplit(s[1..], sep);
      var rest := Split(s[1..], sep);
      if s[0] == sep {
        assert ([""] + rest)[1..] == rest;
      } else {
        assert ([[s[0]] + rest[0]] + rest[1..])[1..] == rest[1..];
      }
    }
  }

  lemma {:induction false} PartsHaveNoSeparator(s: string, sep: char, k: nat)
    requires k < |Split(s, sep)|
    ensures sep !in Split(s, sep)[k]
  {
    if s != "" {
      var rest := Split(s[1..], sep);
      if s[0] == sep {
        if k > 0 {
          PartsHaveNoSeparator(s[1..], sep, k - 1);
        }
      } else {
        PartsHaveNoSeparator(s[1..], sep, k);
      }
    }
  }

  /** Two parts joined by the separator determine it and each other. */
  lemma TwoPartsDetermine(a: string, b: string, c: string, d: string, sep: char)
    requires sep !in a && sep !in b && sep !in c && sep !in d && a + [sep] + b == c + [sep] + d
    ensures a == c && b == d
  {
    SplitFirst(a, sep, b);
    SplitFirst(c, sep, d);
    SplitWhole(b, sep);
    SplitWhole(d, sep);
    assert [a] + [b] == [c] + [d];
    assert ([a] + [b])[0] == a && ([a] + [b])[1] == b && ([c] + [d])[0] == c && ([c] + [d])[1] == d;
  }

  function NonEmpty(parts: seq<string>): seq<string> {
    if parts == [] then []
    else NonEmpty(parts[..|parts| - 1]) + (if parts[|parts| - 1] == "" then [] else [parts[|parts| - 1]])
  }

  lemma {:induction false} NonEmptyKeepsAll(parts: seq<string>)
    requires forall k: nat | k < |parts| :: parts[k] != ""
    ensures NonEmpty(parts) == parts
  {
    if parts != [] {
      NonEmptyKeepsAll(parts[..|parts| - 1]);
    }
  }

  lemma {:induction false} NonEmptyMembers(parts: seq<string>, p: string)
    ensures p in NonEmpty(parts) <==> p in parts && p != ""
  {
    if parts != [] {
      NonEmptyMembers(parts[..|parts| - 1], p);
      assert parts == parts[..|parts| - 1] + [parts[|parts| - 1]];
    }
  }

  /** Exactly the nonempty parts are kept, in their order. */
  lemma {:induction false} NonEmptyIsFilter(a: seq<string>, b: seq<string>)
    ensures NonEmpty(a + b) == NonEmpty(a) + NonEmpty(b)
    ensures |a| == 1 ==> NonEmpty(a) == if a[0] == "" then [] else a
  {
    if b != [] {
      NonEmptyIsFilter(a, b[..|b| - 1]);
      assert (a + b)[..|a + b| - 1] == a + b[..|b| - 1];
    } else {
      assert a + b == a;
    }
  }

  /** `trim_end_matches('/')`. */
  function TrimSlashes(s: string): string {
    if s != "" && s[|s| - 1] == '/' then TrimSlashes(s[..|s| - 1]) else s
  }

  lemma {:induction false} TrimTwice(s: string)
    ensures TrimSlashes(TrimSlashes(s)) == TrimSlashes(s)
  {
    if s != "" && s[|s| - 1] == '/' {
      TrimTwice(s[..|s| - 1]);
    }
  }

  function Slashes(n: nat): string { seq(n, _ => '/') }

  /** A text is what is left of it and slashes. */
  lemma {:induction false} TrimLeaves(s: string) returns (n: nat)
    ensures s == TrimSlashes(s) + Slashes(n)
  {
    if s != "" && s[|s| - 1] == '/' {
      n := TrimLeaves(s[..|s| - 1]);
      n := n + 1;
      assert Slashes(n) == Slashes(n - 1) + ['/'];
    } else {
      n := 0;
    }
  }

  /** The trimmed texts agree exactly if the texts differ in slashes at their ends at most. */
  lemma TrimsAgree(a: string, b: string)
    ensures TrimSlashes(a) == TrimSlashes(b) <==>
            exists stem, i: nat, j: nat :: a == stem + Slashes(i) && b == stem + Slashes(j)
  {
    var m := TrimLeaves(a);
    var n := TrimLeaves(b);
    forall stem, i: nat, j: nat | a == stem + Slashes(i) && b == stem + Slashes(j)
      ensures TrimSlashes(a) == TrimSlashes(b)
    {
      TrimIgnores(stem, i);
      TrimIgnores(stem, j);
    }
  }

  lemma {:induction false} TrimIgnores(s: string, n: nat)
    ensures TrimSlashes(s + Slashes(n)) == TrimSlashes(s)
  {
    if n > 0 {
      TrimIgnores(s, n - 1);
      assert (s + Slashes(n))[..|s| + n - 1] == s + Slashes(n - 1);
    } else {
      assert s + Slashes(0) == s;
    }
  }

}

module SdJwt {
  import opened Prelude
  import opened Text
  import opened Profiles

  /** The integers that JSON numbers are read as. */
  type JsonInt = x: int | -0x8000_0000_0000_0000 <= x < 0x1_0000_0000_0000_0000

  /** Numbers with a fraction or an exponent, or beyond `JsonInt`, are read as floats, here by their bits. */
  datatype Json =
    | JNull
    | JBool(value: bool)
    | JNumber(number: JsonInt)
    | JFloat(bits: nat)
    | JString(text: string)
    | JArray(items: seq<Json>)
    | JObject(fields: map<string, Json>)
  {
    function Get(name: string): Option<Json> {
      if JObject? && name in fields then Some(fields[name]) else None
    }

    function AsText(): Option<string> { if JString? then Some(text) else None }

    function AsU64(): Option<u64> { if JNumber? && 0 <= number then Some(number) else None }
  }

  type Key = seq<byte>

  /** The libraries: base64 without padding, JSON, SHA-256, the PID signer's key, signature checks, and keys
      from their JSON form. */
  datatype Env = Env(
    encode64: seq<byte> -> string,
    decode64: string -> Option<seq<byte>>,
    writeJson: Json -> seq<byte>,
    readJson: seq<byte> -> Option<Json>,
    sha256: string -> seq<byte>,
    hash128: string -> nat,
    sign: string -> Option<seq<byte>>,
    verifies: (Key, string, seq<byte>) -> bool,
    isEcJwk: Json -> bool,
    keyOf: Json -> Option<Key>)

  /** Base64 reads back and stays clear of the separators. */
  ghost predicate Base64Faithful(env: Env) {
    forall b :: && env.decode64(env.encode64(b)) == Some(b)
                && '~' !in env.encode64(b) && '.' !in env.encode64(b) && (b != [] ==> env.encode64(b) != "")
  }

  /** Arrays and objects are nested at most `depth` deep, and there are no floats, which need not read back exactly. */
  ghost predicate Shallow(v: Json, depth: nat) {
    match v
    case JArray(items) => depth > 0 && forall i :: 0 <= i < |items| ==> Shallow(items[i], depth - 1)
    case JObject(fields) => depth > 0 && forall name :: name in fields ==> Shallow(fields[name], depth - 1)
    case JFloat(_) => false
    case _ => true
  }

  /** What is written is read back, down to the depth of what is issued, and is never empty. */
  ghost predicate JsonFaithful(env: Env) {
    && (forall v :: env.writeJson(v) != [])
    && (forall v :: Shallow(v, 3) ==> env.readJson(env.writeJson(v)) == Some(v))
  }

  /** What the signer signs verifies under the key. */
  ghost predicate SignerFaithful(env: Env, key: Key) {
    forall input :: env.sign(input).Some? ==> env.verifies(key, input, env.sign(input).value)
  }

  // ---- Compact signatures ----

  function Encoded(env: Env, v: Json): string { env.encode64(env.writeJson(v)) }

  function SigningInput(env: Env, header: Json, payload: Json): string {
    Encoded(env, header) + "." + Encoded(env, payload)
  }

  function Compact(env: Env, header: Json, payload: Json, signature: seq<byte>): string {
    SigningInput(env, header, payload) + "." + env.encode64(signature)
  }

  /** The payload of a compact signature that verifies under `key`. */
  function JwsPayload(env: Env, compact: string, key: Key): Option<Json> {
    var parts := Split(compact, '.');
    if |parts| != 3 then None
    else
      var signature :- env.decode64(parts[2]);
      if !env.verifies(key, parts[0] + "." + parts[1], signature) then None
      else
        var bytes :- env.decode64(parts[1]);
        env.readJson(bytes)
  }

  lemma CompactSplits(env: Env, header: Json, payload: Json, signature: seq<byte>)
    requires Base64Faithful(env)
    ensures Split(Compact(env, header, payload, signature), '.')
            == [Encoded(env, header), Encoded(env, payload), env.encode64(signature)]
  {
    var h, p, s := Encoded(env, header), Encoded(env, payload), env.encode64(signature);
    assert Compact(env, header, payload, signature) == h + ['.'] + (p + ['.'] + s);
    SplitFirst(h, '.', p + ['.'] + s);
    SplitFirst(p, '.', s);
    SplitWhole(s, '.');
  }

  /** A compact signature gives its payload under exactly the keys that its signature verifies under. */
  lemma SignedPayloadReadsBack(env: Env, header: Json, payload: Json, signature: seq<byte>, key: Key)
    requires Base64Faithful(env) && JsonFaithful(env) && Shallow(payload, 3)
    ensures JwsPayload(env, Compact(env, header, payload, signature), key) ==
            if env.verifies(key, SigningInput(env, header, payload), signature) then Some(payload) else None
  {
    CompactSplits(env, header, payload, signature);
  }

  lemma CompactIsPlain(env: Env, header: Json, payload: Json, signature: seq<byte>)
    requires Base64Faithful(env) && JsonFaithful(env)
    ensures '~' !in Compact(env, header, payload, signature) && Compact(env, header, payload, signature) != ""
  {
  }

  // ---- Disclosures ----

  datatype Claim = Claim(name: string, value: Json)

  function Disclosure(env: Env, salt: string, c: Claim): string {
    Encoded(env, JArray([JString(salt), JString(c.name), c.value]))
  }

  function DigestOf(env: Env, encoded: string): string { env.encode64(env.sha256(encoded)) }

  function Disclosures(env: Env, salts: seq<string>, claims: seq<Claim>): (ds: seq<string>)
    requires |salts| == |claims|
    ensures |ds| == |claims|
  {
    seq(|claims|, i requires 0 <= i < |claims| => Disclosure(env, salts[i], claims[i]))
  }

  function Digests(env: Env, ds: seq<string>): (digests: seq<string>)
    ensures |digests| == |ds|
  {
    seq(|ds|, i requires 0 <= i < |ds| => DigestOf(env, ds[i]))
  }

  function TextArray(texts: seq<string>): Json {
    JArray(seq(|texts|, i requires 0 <= i < |texts| => JString(texts[i])))
  }

  // ---- Credentials ----

  const PID_VCT: string := "eu.europa.ec.eudi.pid.1"
  const LIFETIME: u64 := 3600

  /** The demonstration subject. */
  const FAMILY_NAME: string := "Mustermann"
  const GIVEN_NAME: string := "Erika"
  const BIRTHDATE: string := "1990-01-01"

  function PidClaims(): (claims: seq<Claim>)
    ensures |claims| == 5
  {
    [Claim("family_name", JString(FAMILY_NAME)),
     Claim("given_name", JString(GIVEN_NAME)),
     Claim("birthdate", JString(BIRTHDATE)),
     Claim("age_over_18", JBool(true)),
     Claim("issuing_country", JString("DE"))]
  }

  /** The signed claims of a credential of type `vct`; `pidBound` adds the type it is bound to. */
  function Payload(issuer: string, vct: string, pidBound: bool, holderJwk: Json, now: u64, digests: seq<string>): Json {
    var fields := map[
      "iss" := JString(TrimSlashes(issuer)),
      "iat" := JNumber(now),
      "nbf" := JNumber(now),
      "exp" := JNumber(SaturatingAdd(now, LIFETIME)),
      "vct" := JString(vct),
      "cnf" := JObject(map["jwk" := holderJwk]),
      "_sd_alg" := JString("sha-256"),
      "_sd" := TextArray(digests)];
    JObject(if pidBound then fields["cryptographically_bound_to" := JString(PID_VCT)] else fields)
  }

  lemma PayloadIsShallow(issuer: string, vct: string, pidBound: bool, holderJwk: Json, now: u64, digests: seq<string>)
    requires Shallow(holderJwk, 1)
    ensures Shallow(Payload(issuer, vct, pidBound, holderJwk, now, digests), 3)
  {
    var payload := Payload(issuer, vct, pidBound, holderJwk, now, digests);
    var cnf := JObject(map["jwk" := holderJwk]);
    assert Shallow(cnf, 2);
    assert Shallow(TextArray(digests), 2);
    forall name | name in payload.fields
      ensures Shallow(payload.fields[name], 2)
    {
      var v := payload.fields[name];
      assert v == cnf || v == TextArray(digests) || v.JString? || v.JNumber?;
    }
  }

  function Header(kid: string): Json {
    JObject(map["alg" := JString("ES256"), "typ" := JString("dc+sd-jwt"), "kid" := JString(kid)])
  }

  /** What is issued: type, claims, and whether it is bound to a PID. */
  datatype Content = Content(vct: string, claims: seq<Claim>, pidBound: bool)

  function PidContent(): Content { Content(PID_VCT, PidClaims(), false) }

  /** The identity that a chip read established. */
  datatype ReadIdentity = ReadIdentity(
    familyName: string, givenName: string, birthdate: string, ageOver18: bool, nationality: string,
    issuingCountry: string, portrait: Option<string>)

  datatype NotaryEvidence = NotaryEvidence(sessionId: string, issuedAt: u64, verifierOutput: Json)

  const LEARNING_VCT: string := "urn:eu.europa.ec.eudi:learning:credential:1"
  const TLSN_EVIDENCE_VCT: string := "dev.advatar.tlsn.evidence.1"

  /** What the SD-JWT encoder issues for a configuration; none for those it is never called on. */
  function ContentOf(p: Profile, evidence: NotaryEvidence, identity: ReadIdentity): Option<Content> {
    match p
    case PidSdJwt | DevSvipePidSdJwt => Some(PidContent())
    case PidFromEmrtdSdJwt =>
      var claims := [
        Claim("family_name", JString(identity.familyName)),
        Claim("given_name", JString(identity.givenName)),
        Claim("birthdate", JString(identity.birthdate)),
        Claim("age_over_18", JBool(identity.ageOver18)),
        Claim("nationality", JString(identity.nationality)),
        Claim("issuing_country", JString(identity.issuingCountry))];
      var portrait := if identity.portrait.Some? then [Claim("portrait", JString(identity.portrait.value))] else [];
      Some(Content(PID_VCT, claims + portrait, false))
    case QeaaSdJwt | QeaaPidBoundSdJwt =>
      var claims := [
        Claim("credential_name", JString("Hochschulabschluss")),
        Claim("awarding_body", JString("German Development University")),
        Claim("qualification", JString("Master of Science")),
        Claim("issuing_country", JString("DE"))];
      Some(Content(LEARNING_VCT, claims, p.QeaaPidBoundSdJwt?))
    case TlsnEvidenceSdJwt =>
      var claims := [
        Claim("tlsn_session_id", JString(evidence.sessionId)),
        Claim("tlsn_issued_at", JNumber(evidence.issuedAt)),
        Claim("tlsn_verifier_output", evidence.verifierOutput),
        Claim("assurance", JString("tlsnotary-development-evidence"))];
      Some(Content(TLSN_EVIDENCE_VCT, claims, false))
    case _ => None
  }

  /** Exactly the PID-bound attestation says it is bound, to the PID type, and exactly the PIDs are of that type. */
  lemma BoundExactly(p: Profile, evidence: NotaryEvidence, identity: ReadIdentity,
                     issuer: string, holderJwk: Json, now: u64, digests: seq<string>)
    requires ContentOf(p, evidence, identity).Some?
    ensures
      var c := ContentOf(p, evidence, identity).value;
      var payload := Payload(issuer, c.vct, c.pidBound, holderJwk, now, digests);
      && payload.Get("cryptographically_bound_to") == (if p.QeaaPidBoundSdJwt? then Some(JString(PID_VCT)) else None)
      && (payload.Get("vct") == Some(JString(PID_VCT)) <==>
          p.PidSdJwt? || p.DevSvipePidSdJwt? || p.PidFromEmrtdSdJwt?)
  {
    hide TrimSlashes;
    assert PID_VCT[0] == 'e' && LEARNING_VCT[0] == 'u' && TLSN_EVIDENCE_VCT[0] == 'd';
  }

  /** The signed part of a credential and its disclosures, unless signing fails. */
  function Issued(env: Env, kid: string, issuer: string, c: Content, holderJwk: Json, now: u64, salts: seq<string>)
    : Option<(string, seq<string>)>
    requires |salts| == |c.claims|
  {
    var ds := Disclosures(env, salts, c.claims);
    var payload := Payload(issuer, c.vct, c.pidBound, holderJwk, now, Digests(env, ds));
    var signature :- env.sign(SigningInput(env, Header(kid), payload));
    Some((Compact(env, Header(kid), payload, signature), ds))
  }

  function CredentialText(jwt: string, ds: seq<string>): string {
    jwt + "~" + Join(ds, '~') + "~"
  }

  /** Draws one salt a claim, and grows the disclosures and their digests together. */
  method IssueSdJwt(env: Env, kid: string, issuer: string, c: Content, holderJwk: Json, now: u64, salts: seq<string>)
    returns (r: Option<string>)
    requires |salts| == |c.claims|
    ensures
      match Issued(env, kid, issuer, c, holderJwk, now, salts)
      case None => r == None
      case Some(issued) => r == Some(CredentialText(issued.0, issued.1))
  {
    var disclosures: seq<string>, digests: seq<string> := [], [];
    for i := 0 to |c.claims|
      invariant disclosures == Disclosures(env, salts, c.claims)[..i]
      invariant digests == Digests(env, Disclosures(env, salts, c.claims))[..i]
    {
      var disclosure := Encoded(env, JArray([JString(salts[i]), JString(c.claims[i].name), c.claims[i].value]));
      digests := digests + [DigestOf(env, disclosure)];
      disclosures := disclosures + [disclosure];
    }
    assert disclosures == Disclosures(env, salts, c.claims);
    assert digests == Digests(env, disclosures);
    var payload := Payload(issuer, c.vct, c.pidBound, holderJwk, now, digests);
    var input := SigningInput(env, Header(kid), payload);
    var signature := env.sign(input);
    if signature.None? {
      return None;
    }
    return Some(CredentialText(input + "." + env.encode64(signature.value), disclosures));
  }

  lemma DisclosuresArePlain(env: Env, salts: seq<string>, claims: seq<Claim>)
    requires Base64Faithful(env) && JsonFaithful(env) && |salts| == |claims|
    ensures forall k: nat | k < |claims| ::
        '~' !in Disclosures(env, salts, claims)[k] && Disclosures(env, salts, claims)[k] != ""
  {
  }

  /** The text of a credential with claims splits into the signed part, the disclosures in order, and the empty end. */
  lemma IssuedTextSplits(env: Env, kid: string, issuer: string, c: Content, holderJwk: Json, now: u64,
                         salts: seq<string>)
    requires Base64Faithful(env) && JsonFaithful(env) && |salts| == |c.claims| > 0
    requires Issued(env, kid, issuer, c, holderJwk, now, salts).Some?
    ensures
      var issued := Issued(env, kid, issuer, c, holderJwk, now, salts).value;
      Split(CredentialText(issued.0, issued.1), '~') == [issued.0] + issued.1 + [""]
  {
    hide Compact, Payload, Disclosure;
    var issued := Issued(env, kid, issuer, c, holderJwk, now, salts).value;
    IssuedIsPlain(env, kid, issuer, c, holderJwk, now, salts);
    TextSplits(issued.0, issued.1);
  }

  lemma IssuedIsPlain(env: Env, kid: string, issuer: string, c: Content, holderJwk: Json, now: u64, salts: seq<string>)
    requires Base64Faithful(env) && JsonFaithful(env) && |salts| == |c.claims|
    requires Issued(env, kid, issuer, c, holderJwk, now, salts).Some?
    ensures
      var issued := Issued(env, kid, issuer, c, holderJwk, now, salts).value;
      && '~' !in issued.0 && issued.0 != ""
      && (forall k: nat | k < |issued.1| :: '~' !in issued.1[k] && issued.1[k] != "")
  {
    hide Compact, Payload;
    var ds := Disclosures(env, salts, c.claims);
    var payload := Payload(issuer, c.vct, c.pidBound, holderJwk, now, Digests(env, ds));
    CompactIsPlain(env, Header(kid), payload, env.sign(SigningInput(env, Header(kid), payload)).value);
    DisclosuresArePlain(env, salts, c.claims);
  }

  lemma TextSplits(jwt: string, ds: seq<string>)
    requires '~' !in jwt && ds != [] && forall k: nat | k < |ds| :: '~' !in ds[k]
    ensures Split(CredentialText(jwt, ds), '~') == [jwt] + ds + [""]
  {
    assert CredentialText(jwt, ds) == jwt + ['~'] + (Join(ds, '~') + "~");
    SplitFirst(jwt, '~', Join(ds, '~') + "~");
    JoinAppend(ds, '~');
    SplitUndoesJoin(ds + [""], '~');
    assert [jwt] + (ds + [""]) == [jwt] + ds + [""];
  }

  lemma {:induction false} JoinAppend(parts: seq<string>, sep: char)
    requires parts != []
    ensures Join(parts + [""], sep) == Join(parts, sep) + [sep]
  {
    if |parts| > 1 {
      JoinAppend(parts[1..], sep);
      assert (parts + [""])[1..] == parts[1..] + [""];
    }
  }
}
