// The issuance service: its shared volatile state and what each lock region does to it.

module Scopes {

  predicate IsAsciiSpace(c: char) { c in {' ', '\t', '\n', '\r', '\U{000C}'} }

  /** Length of the run of non-space characters at the front of `s`. */
  function WordLength(s: string): (n: nat)
    ensures n <= |s| && (s != "" && !IsAsciiSpace(s[0]) ==> n > 0)
    ensures forall i :: 0 <= i < n ==> !IsAsciiSpace(s[i])
  {
    if s == "" || IsAsciiSpace(s[0]) then 0 else 1 + WordLength(s[1..])
  }

  /** `split_ascii_whitespace`. */
  function Words(s: string): seq<string> {
    if s == "" then []
    else if IsAsciiSpace(s[0]) then Words(s[1..])
    else [s[..WordLength(s)]] + Words(s[WordLength(s)..])
  }

  lemma {:induction false} WordsHaveNoSpace(s: string, w: string)
    requires w in Words(s)
    ensures w != "" && forall i :: 0 <= i < |w| ==> !IsAsciiSpace(w[i])
    decreases |s|
  {
    if IsAsciiSpace(s[0]) {
      WordsHaveNoSpace(s[1..], w);
    } else if w != s[..WordLength(s)] {
      WordsHaveNoSpace(s[WordLength(s)..], w);
    }
  }

  lemma {:induction false} WordEnds(w: string, rest: string)
    requires (forall i :: 0 <= i < |w| ==> !IsAsciiSpace(w[i])) && (rest != "" ==> IsAsciiSpace(rest[0]))
    ensures WordLength(w + rest) == |w|
  {
    if w != "" {
      WordEnds(w[1..], rest);
      assert (w + rest)[1..] == w[1..] + rest;
    } else {
      assert w + rest == rest;
    }
  }

  /** The words are what stands between spaces, in order, without the empty ones. */
  lemma WordsExactly(w: string, space: char, rest: string)
    requires (forall i :: 0 <= i < |w| ==> !IsAsciiSpace(w[i])) && space in " \t\n\r\U{000C}"
    ensures Words(w) == if w == "" then [] else [w]
    ensures Words(w + [space] + rest) == (if w == "" then [] else [w]) + Words(rest)
  {
    WordEnds(w, "");
    WordEnds(w, [space] + rest);
    assert w + "" == w && w[..|w|] == w && w[|w|..] == "";
    var whole := w + ([space] + rest);
    assert w + [space] + rest == whole && whole[..|w|] == w && whole[|w|..] == [space] + rest;
    assert ([space] + rest)[1..] == rest;
    assert Words([space] + rest) == Words(rest);
  }
}

module Service {
  import opened Prelude
  import opened Scopes
  import opened Profiles
  import opened Adapter
  import Kernel

  // ---- Configuration ----

  /** `classify` is the table of configuration identifiers, `tlsnName` the identifier it gives the
      TLSNotary configuration; `s256` is the PKCE transform of a verifier. */
  datatype Config = Config(
    classify: string -> Profile,
    tlsnName: string,
    s256: string -> string,
    digests: Digests,
    hybridPqEnabled: bool,
    readerConfigured: bool,
    iproovConfigured: bool)

  predicate Allowed(cfg: Config, word: string) {
    match cfg.classify(word)
    case PidSdJwt | PidFromEmrtdSdJwt | PidMdoc | EaaMdoc | QeaaSdJwt | QeaaPidBoundSdJwt => true
    case DevSvipePidSdJwt | TlsnEvidenceSdJwt | MandateSdJwt => true
    case HybridPqSdJwt => cfg.hybridPqEnabled
    case PidFromEmrtdMdoc | Unlisted(_) => false
  }

  predicate ValidScope(cfg: Config, scope: string) {
    Words(scope) != [] && forall w :: w in Words(scope) ==> Allowed(cfg, w)
  }

  method CheckScope(cfg: Config, scope: string) returns (valid: bool)
    ensures valid == ValidScope(cfg, scope)
  {
    var words := Words(scope);
    var count := 0;
    for i := 0 to |words|
      invariant count == i
      invariant forall k :: 0 <= k < i ==> Allowed(cfg, words[k])
    {
      count := count + 1;
      if !Allowed(cfg, words[i]) {
        return false;
      }
    }
    return count > 0;
  }

  // ---- Records ----

  datatype TlsnEvidence = TlsnEvidence(sessionId: string, issuedAt: u64, verifierOutput: string)

  datatype TlsnArtifact = TlsnArtifact(evidence: TlsnEvidence, wellFormed: bool, signed: bool)

  datatype PushedAuthorization = PushedAuthorization(
    clientId: string, redirectUri: string, scope: string, codeChallenge: string, tlsnEvidence: Option<TlsnEvidence>)

  datatype AuthorizationCode = AuthorizationCode(
    clientId: string, redirectUri: string, scope: string, codeChallenge: string, consumed: bool,
    tlsnEvidence: Option<TlsnEvidence>)

  datatype AccessToken = AccessToken(scope: string, dpopJkt: string, tlsnEvidence: Option<TlsnEvidence>)

  datatype CredentialOffer = CredentialOffer(
    profile: string, issuerState: string, expiresAt: u64, tlsnEvidence: Option<TlsnEvidence>)

  datatype CaptureStatus = AwaitingEvidence | Issued | Failed

  /** A credential minted from a chip read, with the evidence it was minted on. */
  datatype Minted = Minted(
    profile: Profile, holderJwk: string, holderJkt: string, chip: VerifiedChipLiveness, iproovMatch: bool,
      readerMatch: bool)

  datatype CaptureSession = CaptureSession(
    holderJkt: string,
    holderJwk: string,
    nonce: string,
    iproovToken: Option<string>,
    status: CaptureStatus,
    credential: Option<Minted>,
    credentialMdoc: Option<Minted>,
    expiresAt: u64)

  // ---- Requests, as parsed and with their signatures already checked ----

  datatype ParRequest = ParRequest(
    clientId: string, redirectUri: string, responseType: string, scope: string, codeChallenge: string,
    codeChallengeMethod: string, issuerState: Option<string>)

  datatype TokenRequest = TokenRequest(
    grantType: string, code: string, redirectUri: string, clientId: string, codeVerifier: string)

  datatype VerifiedDpop = VerifiedDpop(jkt: string, jti: string)

  datatype VerifiedProof = VerifiedProof(holderJkt: string, holderJwk: string, nonce: string)

  datatype VerifiedPidBinding = VerifiedPidBinding(subject: Kernel.u128, jti: string)

  /** Evidence a request may carry, and what checking it found. */
  datatype Supplied<T> = Absent | Refused | Verified(value: T)

  /** `proof` is absent unless the request holds exactly one credential proof and it verifies. */
  datatype CredentialRequest = CredentialRequest(
    token: string,
    configurationId: string,
    proof: Option<VerifiedProof>,
    pidBinding: Supplied<VerifiedPidBinding>,
    emrtdEvidence: Supplied<VerifiedChipLiveness>)

  datatype ServiceError =
    | InvalidRequest
    | InvalidScope
    | InvalidRequestUri
    | UnsupportedGrantType
    | InvalidDpopProof
    | InvalidGrant
    | InvalidToken
    | CredentialRequestDenied
    | InvalidProof
    | InvalidEvidence
    | UnknownCredentialConfiguration
    | Conflict
    | NotFound
    | Gone
    | ServerError

  // ---- The shared state ----

  datatype Volatile = Volatile(
    pushed: map<string, PushedAuthorization>,
    codes: map<string, AuthorizationCode>,
    tokens: map<string, AccessToken>,
    nonces: map<string, bool>,
    dpopJtis: set<string>,
    bindingJtis: set<string>,
    offers: map<string, CredentialOffer>,
    tlsnSessions: set<string>,
    captures: map<string, CaptureSession>)

  datatype Endpoint = TokenEndpoint | CredentialEndpoint

  datatype BindingUse = PidBinding | EmrtdEvidence | Capture

  /** What happened, in the order it happened. */
  datatype Event =
    | EvPushed(uri: string, pushed: PushedAuthorization)
    | EvCode(uri: string, code: string, pushed: PushedAuthorization)
    | EvToken(code: string, token: string, request: TokenRequest, access: AccessToken)
    | EvNonce(nonce: string)
    | EvDpop(endpoint: Endpoint, jti: string)
    | EvBinding(use: BindingUse, jti: string)
    | EvGranted(grant: Granted)
    | EvIssued(grant: Granted)
    | EvMinted(session: string, credential: Minted)

  /** A credential request that passed every check and used up its nonce, with the evidence it rests on and the
      mandate that the kernel granted, if any. */
  datatype Granted = Granted(
    configurationId: string, holderJkt: string, holderJwk: string, nonce: string, token: string,
    pid: Option<VerifiedPidBinding>, chip: Option<VerifiedChipLiveness>, mandate: Option<MandateGrant>)

  /** The state after a lock region, what it adds to the history, and its answer. */
  datatype Outcome<T> = Outcome(state: Volatile, log: seq<Event>, result: Result<T, ServiceError>)

  // ---- Pushed authorization, in two regions ----

  /** `which` is the offer a scan for `state` stops at, if it stops. */
  predicate ScanStops(offers: map<string, CredentialOffer>, state: string, which: Option<string>) {
    match which
    case Some(id) => id in offers && offers[id].issuerState == state
    case None => forall id :: id in offers ==> offers[id].issuerState != state
  }

  function ParCheck(cfg: Config, v: Volatile, r: ParRequest, which: Option<string>, now: u64)
    : Result<Option<TlsnEvidence>, ServiceError>
  {
    if r.responseType != "code" || r.codeChallengeMethod != "S256" then Err(InvalidRequest)
    else if !ValidScope(cfg, r.scope) then Err(InvalidScope)
    else if r.issuerState.None? then Ok(None)
    else if which.None? || which.value !in v.offers then Err(InvalidRequest)
    else
      var offer := v.offers[which.value];
      if offer.expiresAt < now || offer.profile !in Words(r.scope) then Err(InvalidRequest) else Ok(offer.tlsnEvidence)
  }

  function PushedFrom(r: ParRequest, evidence: Option<TlsnEvidence>): PushedAuthorization {
    PushedAuthorization(r.clientId, r.redirectUri, r.scope, r.codeChallenge, evidence)
  }

  function ParStore(v: Volatile, uri: string, p: PushedAuthorization): Outcome<()> {
    Outcome(v.(pushed := v.pushed[uri := p]), [EvPushed(uri, p)], Ok(()))
  }

  // ---- Offers ----

  function CreateOffer(cfg: Config, v: Volatile, configurationId: string, id: string, issuerState: string, now: u64)
    : Outcome<()>
  {
    if cfg.classify(configurationId).TlsnEvidenceSdJwt? then Outcome(v, [], Err(InvalidRequest))
    else if !ValidScope(cfg, configurationId) || ' ' in configurationId then Outcome(v, [], Err(InvalidRequest))
    else
      var offer := CredentialOffer(configurationId, issuerState, SaturatingAdd(now, 300), None);
      Outcome(v.(offers := v.offers[id := offer]), [], Ok(()))
  }

  function VerifiedArtifact(a: TlsnArtifact, now: u64): Result<TlsnEvidence, ServiceError> {
    if !a.wellFormed then Err(InvalidEvidence)
    else if a.evidence.sessionId == "" || ByteLength(a.evidence.sessionId) > 256
            || a.evidence.issuedAt > SaturatingAdd(now, 5) || SaturatingSub(now, a.evidence.issuedAt) > 300
    then Err(InvalidEvidence)
    else if !a.signed then Err(InvalidEvidence)
    else Ok(a.evidence)
  }

  function TlsnOffer(cfg: Config, v: Volatile, a: TlsnArtifact, id: string, issuerState: string, now: u64)
    : Outcome<()>
  {
    match VerifiedArtifact(a, now)
    case Err(e) => Outcome(v, [], Err(e))
    case Ok(evidence) =>
      if evidence.sessionId in v.tlsnSessions then Outcome(v, [], Err(Conflict))
      else
        var offer := CredentialOffer(cfg.tlsnName, issuerState, SaturatingAdd(now, 300), Some(evidence));
        Outcome(v.(tlsnSessions := v.tlsnSessions + {evidence.sessionId}, offers := v.offers[id := offer]), [], Ok(()))
  }

  // ---- Authorization, in two regions ----

  function TakePushed(v: Volatile, clientId: string, uri: string): Outcome<PushedAuthorization> {
    if uri !in v.pushed then Outcome(v, [], Err(InvalidRequestUri))
    else
      var p := v.pushed[uri];
      var taken := v.(pushed := v.pushed - {uri});
      Outcome(taken, [], if p.clientId != clientId then Err(InvalidRequest) else Ok(p))
  }

  function CodeFor(p: PushedAuthorization, consumed: bool): AuthorizationCode {
    AuthorizationCode(p.clientId, p.redirectUri, p.scope, p.codeChallenge, consumed, p.tlsnEvidence)
  }

  function StoreCode(v: Volatile, code: string, uri: string, p: PushedAuthorization): Outcome<()> {
    Outcome(v.(codes := v.codes[code := CodeFor(p, false)]), [EvCode(uri, code, p)], Ok(()))
  }

  // ---- Token ----

  predicate CodeMatches(cfg: Config, c: AuthorizationCode, r: TokenRequest) {
    !c.consumed && c.clientId == r.clientId && c.redirectUri == r.redirectUri
      && cfg.s256(r.codeVerifier) == c.codeChallenge
  }

  function RedeemCode(cfg: Config, v: Volatile, r: TokenRequest, dpop: VerifiedDpop, token: string): Outcome<string> {
    if r.grantType != "authorization_code" then Outcome(v, [], Err(UnsupportedGrantType))
    else if dpop.jti in v.dpopJtis then Outcome(v, [], Err(InvalidDpopProof))
    else
      var w := v.(dpopJtis := v.dpopJtis + {dpop.jti});
      var seen := [EvDpop(TokenEndpoint, dpop.jti)];
      if r.code !in w.codes || !CodeMatches(cfg, w.codes[r.code], r) then Outcome(w, seen, Err(InvalidGrant))
      else
        var c := w.codes[r.code];
        var access := AccessToken(c.scope, dpop.jkt, c.tlsnEvidence);
        Outcome(w.(codes := w.codes[r.code := c.(consumed := true)], tokens := w.tokens[token := access]),
                seen + [EvToken(r.code, token, r, access)],
                Ok(token))
  }

  // ---- Nonce ----

  function IssueNonce(v: Volatile, nonce: string): Outcome<()> {
    Outcome(v.(nonces := v.nonces[nonce := false]), [EvNonce(nonce)], Ok(()))
  }

  // ---- Credential ----

  /** The checks that only look: token, key, scope, proof, nonce, TLSNotary evidence. */
  function AccessChecked(cfg: Config, v: Volatile, r: CredentialRequest, dpop: VerifiedDpop)
    : Result<VerifiedProof, ServiceError>
  {
    if r.token !in v.tokens then Err(InvalidToken)
    else
      var access := v.tokens[r.token];
      if access.dpopJkt != dpop.jkt then Err(InvalidToken)
      else if r.configurationId !in Words(access.scope) then Err(CredentialRequestDenied)
      else if r.proof.None? then Err(InvalidProof)
      else
        var proof := r.proof.value;
        if access.dpopJkt != proof.holderJkt then Err(InvalidProof)
        else if proof.nonce !in v.nonces || v.nonces[proof.nonce] then Err(InvalidProof)
        else if cfg.classify(r.configurationId).TlsnEvidenceSdJwt? && access.tlsnEvidence.None?
          then Err(CredentialRequestDenied)
        else Ok(proof)
  }

  /** Presented-PID evidence: required by two profiles, used up once, refused by the others. */
  function PidStage(v: Volatile, p: Profile, supplied: Supplied<VerifiedPidBinding>)
    : Outcome<Option<VerifiedPidBinding>>
  {
    if !NeedsPid(p) then Outcome(v, [], if supplied.Absent? then Ok(None) else Err(InvalidRequest))
    else if !supplied.Verified? then Outcome(v, [], Err(InvalidProof))
    else if supplied.value.jti in v.bindingJtis then Outcome(v, [], Err(InvalidProof))
    else
      Outcome(v.(bindingJtis := v.bindingJtis + {supplied.value.jti}),
              [EvBinding(PidBinding, supplied.value.jti)], Ok(Some(supplied.value)))
  }

  /** Chip-read evidence: required by one profile, used up once, refused by the others. */
  function ChipStage(cfg: Config, v: Volatile, p: Profile, supplied: Supplied<VerifiedChipLiveness>)
    : Outcome<Option<VerifiedChipLiveness>>
  {
    if !p.PidFromEmrtdSdJwt? then Outcome(v, [], if supplied.Absent? then Ok(None) else Err(InvalidRequest))
    else if supplied.Absent? then Outcome(v, [], Err(InvalidProof))
    else if !cfg.readerConfigured then Outcome(v, [], Err(CredentialRequestDenied))
    else if !supplied.Verified? then Outcome(v, [], Err(InvalidProof))
    else if supplied.value.jti in v.bindingJtis then Outcome(v, [], Err(InvalidProof))
    else
      Outcome(v.(bindingJtis := v.bindingJtis + {supplied.value.jti}),
              [EvBinding(EmrtdEvidence, supplied.value.jti)], Ok(Some(supplied.value)))
  }

  function GrantFor(r: CredentialRequest, proof: VerifiedProof,
                    pid: Option<VerifiedPidBinding>, chip: Option<VerifiedChipLiveness>,
                    mandate: Option<MandateGrant>): Granted
  {
    Granted(r.configurationId, proof.holderJkt, proof.holderJwk, proof.nonce, r.token, pid, chip, mandate)
  }

  function SubjectFrom(pid: Option<VerifiedPidBinding>): Option<Kernel.u128> {
    match pid case None => None case Some(binding) => Some(binding.subject)
  }

  /** Both evidence stages, the kernel, and the nonce that passing it uses up. */
  function GrantStages(cfg: Config, v: Volatile, r: CredentialRequest, proof: VerifiedProof, now: u64)
    : Outcome<Granted>
  {
    var p := cfg.classify(r.configurationId);
    var pid := PidStage(v, p, r.pidBinding);
    if pid.result.Err? then Outcome(pid.state, pid.log, Err(pid.result.error))
    else
      var chip := ChipStage(cfg, pid.state, p, r.emrtdEvidence);
      if chip.result.Err? then Outcome(chip.state, pid.log + chip.log, Err(chip.result.error))
      else
        match AuthorizeKernel(cfg.digests, p, proof.holderJkt, proof.nonce, SubjectFrom(pid.result.value),
                              chip.result.value, now)
        case Err(_) => Outcome(chip.state, pid.log + chip.log, Err(CredentialRequestDenied))
        case Ok(mandate) =>
          var g := GrantFor(r, proof, pid.result.value, chip.result.value, mandate);
          Outcome(chip.state.(nonces := chip.state.nonces[proof.nonce := true]), pid.log + chip.log + [EvGranted(g)],
                  Ok(g))
  }

  function CheckCredential(cfg: Config, v: Volatile, r: CredentialRequest, dpop: VerifiedDpop, now: u64)
    : Outcome<Granted>
  {
    if dpop.jti in v.dpopJtis then Outcome(v, [], Err(InvalidDpopProof))
    else
      var w := v.(dpopJtis := v.dpopJtis + {dpop.jti});
      var seen := [EvDpop(CredentialEndpoint, dpop.jti)];
      match AccessChecked(cfg, w, r, dpop)
      case Err(e) => Outcome(w, seen, Err(e))
      case Ok(proof) =>
        var o := GrantStages(cfg, w, r, proof, now);
        Outcome(o.state, seen + o.log, o.result)
  }

  /** Configurations that the endpoint has an encoder for. */
  predicate HasEncoder(cfg: Config, p: Profile) {
    match p
    case PidSdJwt | PidFromEmrtdSdJwt | QeaaSdJwt | QeaaPidBoundSdJwt | TlsnEvidenceSdJwt => true
    case PidMdoc | EaaMdoc | MandateSdJwt => true
    case HybridPqSdJwt => cfg.hybridPqEnabled
    case PidFromEmrtdMdoc | DevSvipePidSdJwt | Unlisted(_) => false
  }

  /** After the lock: encode and sign, if there is an encoder and signing works. */
  function IssueGranted(cfg: Config, v: Volatile, g: Granted, signs: bool): Outcome<()> {
    var p := cfg.classify(g.configurationId);
    if !HasEncoder(cfg, p) then
      Outcome(v, [], Err(if p.HybridPqSdJwt? then CredentialRequestDenied else UnknownCredentialConfiguration))
    else if !signs then Outcome(v, [], Err(ServerError))
    else Outcome(v, [EvIssued(g)], Ok(()))
  }

  // ---- Capture sessions ----

  /** What a submission remembers of its session across the liveness call. */
  datatype Snapshot = Snapshot(holderJkt: string, holderJwk: string, nonce: string, iproovToken: Option<string>)

  function OpenCapture(v: Volatile, id: string, holderJkt: string, holderJwk: string, nonce: string,
                       iproovToken: Option<string>, now: u64): Outcome<()> {
    var s := CaptureSession(holderJkt, holderJwk, nonce, iproovToken, AwaitingEvidence, None, None,
                            SaturatingAdd(now, 900));
    Outcome(v.(captures := v.captures[id := s]), [], Ok(()))
  }

  function BeginEvidence(v: Volatile, id: string, now: u64): Result<Snapshot, ServiceError> {
    if id !in v.captures then Err(NotFound)
    else
      var s := v.captures[id];
      if s.expiresAt < now then Err(Gone)
      else if s.status != AwaitingEvidence then Err(Conflict)
      else Ok(Snapshot(s.holderJkt, s.holderJwk, s.nonce, s.iproovToken))
  }

  /** The issuer's own liveness verdict and the reader's portrait match must both hold. */
  function PortraitMatchedLiveness(iproovLivenessOk: bool, readerAttestedPortraitMatch: bool): bool {
    iproovLivenessOk && readerAttestedPortraitMatch
  }

  function MarkFailed(v: Volatile, id: string): Volatile {
    if id in v.captures then v.(captures := v.captures[id := v.captures[id].(status := Failed)]) else v
  }

  function MarkIssued(v: Volatile, id: string, sdJwt: Minted, mdoc: Minted): Volatile {
    if id in v.captures then
      var s := v.captures[id].(status := Issued, credential := Some(sdJwt), credentialMdoc := Some(mdoc),
                               iproovToken := None);
      v.(captures := v.captures[id := s])
    else v
  }

  /** What the liveness provider answered, and what checking the chip attestation found. */
  datatype Evidence = Evidence(liveness: Option<bool>, chip: Option<VerifiedChipLiveness>, signsSdJwt: bool,
                               signsMdoc: bool)

  /** The issuer's verdict; none at all if the provider could not be asked. */
  function IssuerLiveness(cfg: Config, snapshot: Snapshot, e: Evidence): Option<bool> {
    if cfg.iproovConfigured && snapshot.iproovToken.Some? then e.liveness else Some(false)
  }

  function Mint(p: Profile, snapshot: Snapshot, chip: VerifiedChipLiveness, iproov: bool, reader: bool): Minted {
    Minted(p, snapshot.holderJwk, snapshot.holderJkt, chip, iproov, reader)
  }

  /** With the attestation used up: the kernel and the signer in each format, then the session. */
  function DecideCapture(cfg: Config, w: Volatile, id: string, snapshot: Snapshot, e: Evidence,
                         chip: VerifiedChipLiveness, iproov: bool, reader: bool, now: u64): Outcome<()>
  {
    if AuthorizeKernel(cfg.digests, PidFromEmrtdSdJwt, snapshot.holderJkt, snapshot.nonce, None, Some(chip),
                       now).Err? then
      Outcome(MarkFailed(w, id), [], Err(CredentialRequestDenied))
    else if !e.signsSdJwt then Outcome(w, [], Err(ServerError))
    else if AuthorizeKernel(cfg.digests, PidFromEmrtdMdoc, snapshot.holderJkt, snapshot.nonce, None, Some(chip),
                            now).Err? then
      Outcome(MarkFailed(w, id), [], Err(CredentialRequestDenied))
    else if !e.signsMdoc then Outcome(w, [], Err(ServerError))
    else
      var sdJwt := Mint(PidFromEmrtdSdJwt, snapshot, chip, iproov, reader);
      var mdoc := Mint(PidFromEmrtdMdoc, snapshot, chip, iproov, reader);
      Outcome(MarkIssued(w, id, sdJwt, mdoc), [EvMinted(id, sdJwt)], Ok(()))
  }

  /** The chip read, its portrait match joined with the issuer's own verdict. */
  function Joined(chip: VerifiedChipLiveness, iproov: bool): VerifiedChipLiveness {
    chip.(livenessMatched := PortraitMatchedLiveness(iproov, chip.livenessMatched))
  }

  function ResolveEvidence(cfg: Config, v: Volatile, id: string, snapshot: Snapshot, e: Evidence, now: u64)
    : Outcome<()>
  {
    var liveness := IssuerLiveness(cfg, snapshot, e);
    if liveness.None? then Outcome(v, [], Err(ServerError))
    else if !cfg.readerConfigured then Outcome(v, [], Err(CredentialRequestDenied))
    else if e.chip.None? then Outcome(v, [], Err(InvalidProof))
    else
      var chip := Joined(e.chip.value, liveness.value);
      if chip.jti in v.bindingJtis then Outcome(v, [], Err(InvalidProof))
      else
        var w := v.(bindingJtis := v.bindingJtis + {chip.jti});
        var o := DecideCapture(cfg, w, id, snapshot, e, chip, liveness.value, e.chip.value.livenessMatched, now);
        Outcome(o.state, [EvBinding(Capture, chip.jti)] + o.log, o.result)
  }

  // ---- The lock regions as they run ----

  /** The state behind the service's lock. `history` records what happened under it. */
  class VolatileState {
    var pushed: map<string, PushedAuthorization>
    var codes: map<string, AuthorizationCode>
    var tokens: map<string, AccessToken>
    var nonces: map<string, bool>
    var dpopJtis: set<string>
    var bindingJtis: set<string>
    var offers: map<string, CredentialOffer>
    var tlsnSessions: set<string>
    var captures: map<string, CaptureSession>
    ghost var history: seq<Event>

    function Now(): Volatile
      reads this
    {
      Volatile(pushed, codes, tokens, nonces, dpopJtis, bindingJtis, offers, tlsnSessions, captures)
    }

    constructor ()
      ensures Now() == Volatile(map[], map[], map[], map[], {}, {}, map[], {}, map[])
      ensures history == []
    {
      pushed, codes, tokens, nonces := map[], map[], map[], map[];
      dpopJtis, bindingJtis, offers, tlsnSessions, captures := {}, {}, map[], {}, map[];
      history := [];
    }

    /** Looks for the offer with an issuer state, in whatever order the table is walked. */
    method FindOffer(state: string) returns (which: Option<string>)
      ensures ScanStops(offers, state, which)
    {
      var left := offers.Keys;
      while left != {}
        invariant left <= offers.Keys
        invariant forall id :: id in offers && id !in left ==> offers[id].issuerState != state
        decreases left
      {
        var id :| id in left;
        if offers[id].issuerState == state {
          return Some(id);
        }
        left := left - {id};
      }
      return None;
    }

    method ParLookup(cfg: Config, r: ParRequest, now: u64)
      returns (which: Option<string>, evidence: Result<Option<TlsnEvidence>, ServiceError>)
      ensures r.issuerState.Some? && which.Some? ==> ScanStops(offers, r.issuerState.value, which)
      ensures evidence == ParCheck(cfg, Now(), r, which, now)
    {
      which := None;
      if r.responseType != "code" || r.codeChallengeMethod != "S256" {
        return which, Err(InvalidRequest);
      }
      var valid := CheckScope(cfg, r.scope);
      if !valid {
        return which, Err(InvalidScope);
      }
      if r.issuerState.None? {
        return which, Ok(None);
      }
      which := FindOffer(r.issuerState.value);
      if which.None? {
        return which, Err(InvalidRequest);
      }
      var offer := offers[which.value];
      if offer.expiresAt < now || offer.profile !in Words(r.scope) {
        return which, Err(InvalidRequest);
      }
      return which, Ok(offer.tlsnEvidence);
    }

    method ParInsert(uri: string, p: PushedAuthorization)
      modifies this
      ensures var o := ParStore(old(Now()), uri, p); Now() == o.state && history == old(history) + o.log
    {
      pushed := pushed[uri := p];
      history := history + [EvPushed(uri, p)];
    }

    method InsertOffer(cfg: Config, configurationId: string, id: string, issuerState: string, now: u64)
      returns (r: Result<(), ServiceError>)
      modifies this
      ensures
        var o := CreateOffer(cfg, old(Now()), configurationId, id, issuerState, now);
        Now() == o.state && history == old(history) && r == o.result
    {
      if cfg.classify(configurationId).TlsnEvidenceSdJwt? {
        return Err(InvalidRequest);
      }
      var valid := CheckScope(cfg, configurationId);
      if !valid || ' ' in configurationId {
        return Err(InvalidRequest);
      }
      offers := offers[id := CredentialOffer(configurationId, issuerState, SaturatingAdd(now, 300), None)];
      return Ok(());
    }

    method BuildTlsnOffer(cfg: Config, a: TlsnArtifact, id: string, issuerState: string, now: u64)
      returns (r: Result<(), ServiceError>)
      modifies this
      ensures
        var o := TlsnOffer(cfg, old(Now()), a, id, issuerState, now);
        Now() == o.state && history == old(history) && r == o.result
    {
      var evidence := VerifiedArtifact(a, now);
      if evidence.Err? {
        return Err(evidence.error);
      }
      if evidence.value.sessionId in tlsnSessions {
        return Err(Conflict);
      }
      tlsnSessions := tlsnSessions + {evidence.value.sessionId};
      offers := offers[id := CredentialOffer(cfg.tlsnName, issuerState, SaturatingAdd(now, 300), Some(evidence.value))];
      return Ok(());
    }

    method RemovePushed(clientId: string, uri: string) returns (r: Result<PushedAuthorization, ServiceError>)
      modifies this
      ensures
        var o := TakePushed(old(Now()), clientId, uri);
        Now() == o.state && history == old(history) && r == o.result
    {
      if uri !in pushed {
        return Err(InvalidRequestUri);
      }
      var p := pushed[uri];
      pushed := pushed - {uri};
      if p.clientId != clientId {
        return Err(InvalidRequest);
      }
      return Ok(p);
    }

    method InsertCode(code: string, uri: string, p: PushedAuthorization)
      modifies this
      ensures var o := StoreCode(old(Now()), code, uri, p); Now() == o.state && history == old(history) + o.log
    {
      codes := codes[code := AuthorizationCode(p.clientId, p.redirectUri, p.scope, p.codeChallenge, false,
                                               p.tlsnEvidence)];
      history := history + [EvCode(uri, code, p)];
    }

    method Redeem(cfg: Config, r: TokenRequest, dpop: VerifiedDpop, token: string)
      returns (answer: Result<string, ServiceError>)
      modifies this
      ensures
        var o := RedeemCode(cfg, old(Now()), r, dpop, token);
        Now() == o.state && history == old(history) + o.log && answer == o.result
    {
      if r.grantType != "authorization_code" {
        return Err(UnsupportedGrantType);
      }
      if dpop.jti in dpopJtis {
        return Err(InvalidDpopProof);
      }
      dpopJtis := dpopJtis + {dpop.jti};
      history := history + [EvDpop(TokenEndpoint, dpop.jti)];
      if r.code !in codes || !CodeMatches(cfg, codes[r.code], r) {
        return Err(InvalidGrant);
      }
      var c := codes[r.code];
      codes := codes[r.code := c.(consumed := true)];
      var access := AccessToken(c.scope, dpop.jkt, c.tlsnEvidence);
      tokens := tokens[token := access];
      history := history + [EvToken(r.code, token, r, access)];
      return Ok(token);
    }

    method InsertNonce(nonce: string)
      modifies this
      ensures var o := IssueNonce(old(Now()), nonce); Now() == o.state && history == old(history) + o.log
    {
      nonces := nonces[nonce := false];
      history := history + [EvNonce(nonce)];
    }

    method UsePidBinding(p: Profile, supplied: Supplied<VerifiedPidBinding>)
      returns (r: Result<Option<VerifiedPidBinding>, ServiceError>)
      modifies this
      ensures
        var o := PidStage(old(Now()), p, supplied);
        Now() == o.state && history == old(history) + o.log && r == o.result
    {
      if !NeedsPid(p) {
        return if supplied.Absent? then Ok(None) else Err(InvalidRequest);
      }
      if !supplied.Verified? || supplied.value.jti in bindingJtis {
        return Err(InvalidProof);
      }
      bindingJtis := bindingJtis + {supplied.value.jti};
      history := history + [EvBinding(PidBinding, supplied.value.jti)];
      return Ok(Some(supplied.value));
    }

    method UseChipEvidence(cfg: Config, p: Profile, supplied: Supplied<VerifiedChipLiveness>)
      returns (r: Result<Option<VerifiedChipLiveness>, ServiceError>)
      modifies this
      ensures
        var o := ChipStage(cfg, old(Now()), p, supplied);
        Now() == o.state && history == old(history) + o.log && r == o.result
    {
      if !p.PidFromEmrtdSdJwt? {
        return if supplied.Absent? then Ok(None) else Err(InvalidRequest);
      }
      if supplied.Absent? {
        return Err(InvalidProof);
      }
      if !cfg.readerConfigured {
        return Err(CredentialRequestDenied);
      }
      if !supplied.Verified? || supplied.value.jti in bindingJtis {
        return Err(InvalidProof);
      }
      bindingJtis := bindingJtis + {supplied.value.jti};
      history := history + [EvBinding(EmrtdEvidence, supplied.value.jti)];
      return Ok(Some(supplied.value));
    }

    /** The evidence stages, the kernel's decision and, once it is granted, the nonce. */
    method Grant(cfg: Config, r: CredentialRequest, proof: VerifiedProof, now: u64)
      returns (answer: Result<Granted, ServiceError>)
      modifies this
      ensures
        var o := GrantStages(cfg, old(Now()), r, proof, now);
        Now() == o.state && history == old(history) + o.log && answer == o.result
    {
      hide AuthorizeKernel;
      var p := cfg.classify(r.configurationId);
      var pid := UsePidBinding(p, r.pidBinding);
      if pid.Err? {
        return Err(pid.error);
      }
      var chip := UseChipEvidence(cfg, p, r.emrtdEvidence);
      if chip.Err? {
        return Err(chip.error);
      }
      var decision := AuthorizeKernel(cfg.digests, p, proof.holderJkt, proof.nonce, SubjectFrom(pid.value),
                                      chip.value, now);
      if decision.Err? {
        return Err(CredentialRequestDenied);
      }
      nonces := nonces[proof.nonce := true];
      var g := GrantFor(r, proof, pid.value, chip.value, decision.value);
      history := history + [EvGranted(g)];
      return Ok(g);
    }

    method GrantCredential(cfg: Config, r: CredentialRequest, dpop: VerifiedDpop, now: u64)
      returns (answer: Result<Granted, ServiceError>)
      modifies this
      ensures
        var o := CheckCredential(cfg, old(Now()), r, dpop, now);
        Now() == o.state && history == old(history) + o.log && answer == o.result
    {
      hide GrantStages, AccessChecked;
      if dpop.jti in dpopJtis {
        return Err(InvalidDpopProof);
      }
      dpopJtis := dpopJtis + {dpop.jti};
      history := history + [EvDpop(CredentialEndpoint, dpop.jti)];
      var checked := AccessChecked(cfg, Now(), r, dpop);
      if checked.Err? {
        return Err(checked.error);
      }
      answer := Grant(cfg, r, checked.value, now);
    }

    method InsertCapture(id: string, holderJkt: string, holderJwk: string, nonce: string, iproovToken: Option<string>,
                         now: u64)
      modifies this
      ensures
        Now() == OpenCapture(old(Now()), id, holderJkt, holderJwk, nonce, iproovToken, now).state
          && history == old(history)
    {
      captures := captures[id := CaptureSession(holderJkt, holderJwk, nonce, iproovToken, AwaitingEvidence, None, None,
                                                SaturatingAdd(now, 900))];
    }

    method SnapshotCapture(id: string, now: u64) returns (r: Result<Snapshot, ServiceError>)
      ensures r == BeginEvidence(Now(), id, now)
    {
      if id !in captures {
        return Err(NotFound);
      }
      var s := captures[id];
      if s.expiresAt < now {
        return Err(Gone);
      }
      if s.status != AwaitingEvidence {
        return Err(Conflict);
      }
      return Ok(Snapshot(s.holderJkt, s.holderJwk, s.nonce, s.iproovToken));
    }

    method Decide(cfg: Config, id: string, snapshot: Snapshot, e: Evidence,
                  chip: VerifiedChipLiveness, iproov: bool, reader: bool, now: u64)
      returns (r: Result<(), ServiceError>)
      modifies this
      ensures
        var o := DecideCapture(cfg, old(Now()), id, snapshot, e, chip, iproov, reader, now);
        Now() == o.state && history == old(history) + o.log && r == o.result
    {
      hide AuthorizeKernel;
      if AuthorizeKernel(cfg.digests, PidFromEmrtdSdJwt, snapshot.holderJkt, snapshot.nonce, None, Some(chip),
                         now).Err? {
        Fail(id);
        return Err(CredentialRequestDenied);
      }
      if !e.signsSdJwt {
        return Err(ServerError);
      }
      if AuthorizeKernel(cfg.digests, PidFromEmrtdMdoc, snapshot.holderJkt, snapshot.nonce, None, Some(chip),
                         now).Err? {
        Fail(id);
        return Err(CredentialRequestDenied);
      }
      if !e.signsMdoc {
        return Err(ServerError);
      }
      var sdJwt := Mint(PidFromEmrtdSdJwt, snapshot, chip, iproov, reader);
      var mdoc := Mint(PidFromEmrtdMdoc, snapshot, chip, iproov, reader);
      if id in captures {
        captures := captures[id := captures[id].(status := Issued, credential := Some(sdJwt),
                                                 credentialMdoc := Some(mdoc),
                                                 iproovToken := None)];
      }
      history := history + [EvMinted(id, sdJwt)];
      return Ok(());
    }

    method Resolve(cfg: Config, id: string, snapshot: Snapshot, e: Evidence, now: u64)
      returns (r: Result<(), ServiceError>)
      modifies this
      ensures
        var o := ResolveEvidence(cfg, old(Now()), id, snapshot, e, now);
        Now() == o.state && history == old(history) + o.log && r == o.result
    {
      hide DecideCapture;
      var liveness := IssuerLiveness(cfg, snapshot, e);
      if liveness.None? {
        return Err(ServerError);
      }
      if !cfg.readerConfigured {
        return Err(CredentialRequestDenied);
      }
      if e.chip.None? {
        return Err(InvalidProof);
      }
      var chip := Joined(e.chip.value, liveness.value);
      if chip.jti in bindingJtis {
        return Err(InvalidProof);
      }
      bindingJtis := bindingJtis + {chip.jti};
      history := history + [EvBinding(Capture, chip.jti)];
      r := Decide(cfg, id, snapshot, e, chip, liveness.value, e.chip.value.livenessMatched, now);
    }

    method Fail(id: string)
      modifies this
      ensures Now() == MarkFailed(old(Now()), id) && history == old(history)
    {
      if id in captures {
        captures := captures[id := captures[id].(status := Failed)];
      }
    }
  }
}
