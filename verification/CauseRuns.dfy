// The steps of a run behind what it holds: each offer, held request, session and event comes of a step that met, in the
// state before it, every condition the service sets.

module CauseRuns {
  import opened Prelude
  import opened Scopes
  import opened Service
  import opened ServiceRuns
  import Profiles
  import opened Adapter
  import TlsnRuns
  import CaptureRuns
  import EvidenceRuns
  import Powers
  import IssuanceRuns

  // ---- What a step must have met ----

  predicate ScopeAllowed(cfg: Config, scope: string) {
    Words(scope) != [] && forall w :: w in Words(scope) ==> IssuanceRuns.Listed(cfg, w)
  }

  /** The artifact is signed, its session identifier has 1 to 256 bytes, and it is from the last 300 seconds. */
  predicate ArtifactFits(a: TlsnArtifact, now: u64) {
    && a.wellFormed && a.signed && 1 <= ByteLength(a.evidence.sessionId) <= 256
    && now - 300 <= a.evidence.issuedAt <= now + 5
  }

  /** The expiry is `seconds` from `now`, as far as the clock goes. */
  predicate ExpiresIn(expiresAt: u64, now: u64, seconds: nat) {
    expiresAt == if now + seconds <= U64_MAX then now + seconds else U64_MAX
  }

  /** The offer is one the service makes for the asking, or one on a notary's artifact. */
  predicate OfferCause(cfg: Config, a: Action, id: string, offer: CredentialOffer) {
    match a
    case Offer(name, id', issuerState, now) =>
      && id == id' && offer == CredentialOffer(name, issuerState, offer.expiresAt, None)
      && ExpiresIn(offer.expiresAt, now, 300)
      && !cfg.classify(name).TlsnEvidenceSdJwt? && ScopeAllowed(cfg, name) && ' ' !in name
    case OfferTlsn(artifact, id', issuerState, now) =>
      && id == id' && offer == CredentialOffer(cfg.tlsnName, issuerState, offer.expiresAt, Some(artifact.evidence))
      && ExpiresIn(offer.expiresAt, now, 300)
      && ArtifactFits(artifact, now)
    case _ => false
  }

  /** The offer that a pushed request names is known, not expired, and for a configuration in its scope. */
  predicate OfferAnswers(v: Volatile, id: string, issuerState: string, scope: string, now: u64,
                         evidence: Option<TlsnEvidence>)
  {
    && id in v.offers && v.offers[id].issuerState == issuerState && now <= v.offers[id].expiresAt
    && v.offers[id].profile in Words(scope) && v.offers[id].tlsnEvidence == evidence
  }

  ghost predicate ParCause(cfg: Config, v: Volatile, a: Action, p: PushedAuthorization) {
    && a.BeginPar?
    && var r := a.request;
    && r.responseType == "code" && r.codeChallengeMethod == "S256" && ScopeAllowed(cfg, r.scope)
    && p == PushedAuthorization(r.clientId, r.redirectUri, r.scope, r.codeChallenge, p.tlsnEvidence)
    && if r.issuerState.None? then p.tlsnEvidence == None
       else exists id :: OfferAnswers(v, id, r.issuerState.value, r.scope, a.now, p.tlsnEvidence)
  }

  /** An unused code, asked for by the client, redirect and verifier it was made for, with an unused DPoP proof. */
  predicate TokenCause(cfg: Config, v: Volatile, a: Action, code: string, token: string, r: TokenRequest,
                       access: AccessToken)
  {
    && a.Token? && a.token == token && a.tokenRequest == r && r.code == code
    && r.grantType == "authorization_code" && a.dpop.jti !in v.dpopJtis && code in v.codes
    && var c := v.codes[code];
    && !c.consumed && c.clientId == r.clientId && c.redirectUri == r.redirectUri
    && c.codeChallenge == cfg.s256(r.codeVerifier)
    && access == AccessToken(c.scope, a.dpop.jkt, c.tlsnEvidence)
  }

  /** A request with a proof of the token's key over an unused nonce, and the evidence its configuration needs. */
  predicate CredentialCause(cfg: Config, v: Volatile, a: Action, g: Granted) {
    && a.BeginCredential? && RequestAnswered(v, a.credentialRequest, a.dpop, g) && GrantChecks(cfg, v, g)
  }

  predicate SessionCause(a: Action, id: string, c: CaptureSession) {
    && a.OpenSession? && a.id == id && c.holderJkt == a.holderJkt && c.holderJwk == a.holderJwk && c.nonce == a.nonce
    && ExpiresIn(c.expiresAt, a.now, 900)
  }

  /** The session was waiting and not past its expiry, and the snapshot is of it. */
  predicate SubmissionCause(v: Volatile, a: Action, id: string, snapshot: Snapshot, now: u64) {
    && a.BeginSubmission? && a.session == id && a.now == now && id in v.captures
    && var c := v.captures[id];
    && c.status == AwaitingEvidence && now <= c.expiresAt
    && snapshot == Snapshot(c.holderJkt, c.holderJwk, c.nonce, c.iproovToken)
  }

  /** The submission ended with both verdicts true, a chip read proven in all parts, and two signatures. */
  predicate MintCause(cfg: Config, s: System, a: Action, id: string, m: Minted, snapshot: Snapshot, now: u64) {
    && a.EndSubmission? && a.task in s.tasks && s.tasks[a.task] == EvidenceHeld(id, snapshot, now)
    && cfg.readerConfigured && cfg.iproovConfigured && snapshot.iproovToken.Some? && now < U64_MAX
    && a.evidence.liveness == Some(true) && a.evidence.signsSdJwt && a.evidence.signsMdoc
    && a.evidence.chip == Some(m.chip) && m.chip.jti !in s.v.bindingJtis
    && m.chip.sodPassiveAuth && m.chip.chipAuthentic && m.chip.livenessMatched
    && m == Minted(Profiles.PidFromEmrtdSdJwt, snapshot.holderJwk, snapshot.holderJkt, m.chip, true, true)
  }

  // ---- Over runs ----

  function At(cfg: Config, actions: seq<Action>, k: nat): System
    requires k <= |actions|
  {
    Run(cfg, START, actions[..k])
  }

  ghost predicate OfferCaused(cfg: Config, actions: seq<Action>, id: string, offer: CredentialOffer) {
    exists a :: a in actions && OfferCause(cfg, a, id, offer)
  }

  ghost predicate SessionCaused(actions: seq<Action>, id: string, c: CaptureSession) {
    exists a :: a in actions && SessionCause(a, id, c)
  }

  ghost predicate PushCaused(cfg: Config, actions: seq<Action>, p: PushedAuthorization) {
    exists k: nat :: k < |actions| && ParCause(cfg, At(cfg, actions, k).v, actions[k], p)
  }

  ghost predicate TokenCaused(cfg: Config, actions: seq<Action>, code: string, token: string, r: TokenRequest,
                              access: AccessToken)
  {
    exists k: nat :: k < |actions| && TokenCause(cfg, At(cfg, actions, k).v, actions[k], code, token, r, access)
  }

  ghost predicate GrantCaused(cfg: Config, actions: seq<Action>, g: Granted) {
    exists k: nat :: k < |actions| && CredentialCause(cfg, At(cfg, actions, k).v, actions[k], g)
  }

  ghost predicate SubmissionCaused(cfg: Config, actions: seq<Action>, id: string, snapshot: Snapshot, now: u64) {
    exists k: nat :: k < |actions| && SubmissionCause(At(cfg, actions, k).v, actions[k], id, snapshot, now)
  }

  ghost predicate MintCaused(cfg: Config, actions: seq<Action>, id: string, m: Minted) {
    exists k: nat, snapshot, now ::
      && k < |actions| && MintCause(cfg, At(cfg, actions, k), actions[k], id, m, snapshot, now)
      && SubmissionCaused(cfg, actions[..k], id, snapshot, now)
  }

  ghost predicate HeldCaused(cfg: Config, actions: seq<Action>, t: Task) {
    match t
    case ParHeld(p) => PushCaused(cfg, actions, p)
    case EvidenceHeld(id, snapshot, now) => SubmissionCaused(cfg, actions, id, snapshot, now)
    case _ => true
  }

  ghost predicate EventCaused(cfg: Config, actions: seq<Action>, e: Event) {
    match e
    case EvPushed(_, p) => PushCaused(cfg, actions, p)
    case EvToken(code, token, r, access) => TokenCaused(cfg, actions, code, token, r, access)
    case EvGranted(g) => GrantCaused(cfg, actions, g)
    case EvMinted(id, m) => MintCaused(cfg, actions, id, m)
    case _ => true
  }

  ghost predicate AllCaused(cfg: Config, actions: seq<Action>, s: System) {
    && (forall id :: id in s.v.offers ==> OfferCaused(cfg, actions, id, s.v.offers[id]))
    && (forall id :: id in s.v.captures ==> SessionCaused(actions, id, s.v.captures[id]))
    && (forall t :: t in s.tasks ==> HeldCaused(cfg, actions, s.tasks[t]))
    && (forall e :: e in s.history ==> EventCaused(cfg, actions, e))
  }

  // ---- Causes stay ----

  lemma SameThen(cfg: Config, actions: seq<Action>, a: Action, k: nat)
    requires k < |actions|
    ensures (actions + [a])[k] == actions[k] && (actions + [a])[..k] == actions[..k]
    ensures At(cfg, actions + [a], k) == At(cfg, actions, k)
  {
  }

  lemma HeldStays(cfg: Config, actions: seq<Action>, a: Action, t: Task)
    requires HeldCaused(cfg, actions, t)
    ensures HeldCaused(cfg, actions + [a], t)
  {
    hide At, ParCause, SubmissionCause;
    match t
    case ParHeld(p) =>
      var k: nat :| k < |actions| && ParCause(cfg, At(cfg, actions, k).v, actions[k], p);
      SameThen(cfg, actions, a, k);
    case EvidenceHeld(id, snapshot, now) =>
      var k: nat :| k < |actions| && SubmissionCause(At(cfg, actions, k).v, actions[k], id, snapshot, now);
      SameThen(cfg, actions, a, k);
    case _ =>
  }

  lemma EventStays(cfg: Config, actions: seq<Action>, a: Action, e: Event)
    requires EventCaused(cfg, actions, e)
    ensures EventCaused(cfg, actions + [a], e)
  {
    hide At, PushCaused, TokenCause, CredentialCause, MintCause, SubmissionCaused;
    match e
    case EvPushed(_, p) =>
      HeldStays(cfg, actions, a, ParHeld(p));
    case EvToken(code, token, r, access) =>
      var k: nat :| k < |actions| && TokenCause(cfg, At(cfg, actions, k).v, actions[k], code, token, r, access);
      SameThen(cfg, actions, a, k);
    case EvGranted(g) =>
      var k: nat :| k < |actions| && CredentialCause(cfg, At(cfg, actions, k).v, actions[k], g);
      SameThen(cfg, actions, a, k);
    case EvMinted(id, m) =>
      var k: nat, snapshot, now :| k < |actions|
        && MintCause(cfg, At(cfg, actions, k), actions[k], id, m, snapshot, now)
        && SubmissionCaused(cfg, actions[..k], id, snapshot, now);
      SameThen(cfg, actions, a, k);
    case _ =>
  }

  // ---- Step by step ----

  /** The notary's evidence becomes an offer exactly if the artifact fits and its session is not reserved yet. */
  lemma TlsnOfferExactly(cfg: Config, v: Volatile, a: TlsnArtifact, id: string, issuerState: string, now: u64)
    ensures
      var o := TlsnOffer(cfg, v, a, id, issuerState, now);
      && (o.result.Ok? <==> ArtifactFits(a, now) && a.evidence.sessionId !in v.tlsnSessions)
      && (o.result.Err? ==> o.state == v)
      && (o.result.Ok? ==>
            exists offer :: && OfferCause(cfg, OfferTlsn(a, id, issuerState, now), id, offer)
                            && o.state == v.(tlsnSessions := v.tlsnSessions + {a.evidence.sessionId},
                                             offers := v.offers[id := offer]))
  {
    var o := TlsnOffer(cfg, v, a, id, issuerState, now);
    if o.result.Ok? {
      var offer := o.state.offers[id];
      assert OfferCause(cfg, OfferTlsn(a, id, issuerState, now), id, offer);
    }
  }

  /** Without evidence, an offer is made exactly for allowed words other than the TLSNotary configuration. */
  lemma CreateOfferExactly(cfg: Config, v: Volatile, name: string, id: string, issuerState: string, now: u64)
    ensures
      var o := CreateOffer(cfg, v, name, id, issuerState, now);
      && (o.result.Ok? <==> !cfg.classify(name).TlsnEvidenceSdJwt? && ScopeAllowed(cfg, name) && ' ' !in name)
      && (o.result.Err? ==> o.state == v)
      && (o.result.Ok? ==>
            exists offer :: && OfferCause(cfg, Offer(name, id, issuerState, now), id, offer)
                            && o.state == v.(offers := v.offers[id := offer]))
  {
    var o := CreateOffer(cfg, v, name, id, issuerState, now);
    if o.result.Ok? {
      var offer := o.state.offers[id];
      assert OfferCause(cfg, Offer(name, id, issuerState, now), id, offer);
    }
  }

  lemma OfferStep(cfg: Config, s: System, a: Action, id: string)
    requires id in EffectOf(cfg, s, a).v.offers
    ensures
      var offer := EffectOf(cfg, s, a).v.offers[id];
      (id in s.v.offers && s.v.offers[id] == offer) || OfferCause(cfg, a, id, offer)
  {
    hide TlsnOffer, CreateOffer, CheckCredential, ResolveEvidence, RedeemCode, ParCheck;
    match a
    case Offer(name, id', issuerState, now) =>
      CreateOfferExactly(cfg, s.v, name, id', issuerState, now);
    case OfferTlsn(artifact, id', issuerState, now) =>
      TlsnOfferExactly(cfg, s.v, artifact, id', issuerState, now);
    case _ =>
      TlsnRuns.OffersKept(cfg, s, a);
  }

  lemma SessionStep(cfg: Config, s: System, a: Action, id: string)
    requires CaptureRuns.CapturesSound(s) && Legal(s, a) && id in EffectOf(cfg, s, a).v.captures
    ensures
      var c := EffectOf(cfg, s, a).v.captures[id];
      || (id in s.v.captures && CaptureRuns.SessionAdvances(s.v.captures[id], c))
      || SessionCause(a, id, c)
  {
    hide EffectOf, CaptureRuns.CapturesSound;
    CaptureRuns.StepSessions(cfg, s, a);
    if id !in s.v.captures {
      NewSession(cfg, s, a, id);
    }
  }

  lemma NewSession(cfg: Config, s: System, a: Action, id: string)
    requires id !in s.v.captures && id in EffectOf(cfg, s, a).v.captures
    ensures SessionCause(a, id, EffectOf(cfg, s, a).v.captures[id])
  {
    hide ResolveEvidence, CheckCredential, RedeemCode, ParCheck;
    if a.EndSubmission? && a.task in s.tasks && s.tasks[a.task].EvidenceHeld? {
      CaptureRuns.SubmissionCases(cfg, s.v, s.tasks[a.task].session, s.tasks[a.task].snapshot, a.evidence,
                                  s.tasks[a.task].now);
    } else if !a.OpenSession? {
      CaptureRuns.CapturesKept(cfg, s, a);
    }
  }

  ghost predicate TaskCause(cfg: Config, s: System, a: Action, t: Task) {
    match t
    case ParHeld(p) => ParCause(cfg, s.v, a, p)
    case EvidenceHeld(id, snapshot, now) => SubmissionCause(s.v, a, id, snapshot, now)
    case _ => true
  }

  /** A pushed request passes its first region exactly under the conditions stated. */
  lemma ParExactly(cfg: Config, v: Volatile, r: ParRequest, which: Option<string>, now: u64)
    requires r.issuerState.Some? ==> ScanStops(v.offers, r.issuerState.value, which)
    ensures
      var e := ParCheck(cfg, v, r, which, now);
      && (e.Ok? ==> forall task :: ParCause(cfg, v, BeginPar(task, r, which, now), PushedFrom(r, e.value)))
      && (e.Ok? <==> && r.responseType == "code" && r.codeChallengeMethod == "S256" && ScopeAllowed(cfg, r.scope)
                     && (r.issuerState.Some? ==>
                           && which.Some? && now <= v.offers[which.value].expiresAt
                           && v.offers[which.value].profile in Words(r.scope)))
  {
    var e := ParCheck(cfg, v, r, which, now);
    if e.Ok? && r.issuerState.Some? {
      assert OfferAnswers(v, which.value, r.issuerState.value, r.scope, now, e.value);
    }
  }

  lemma TaskStep(cfg: Config, s: System, a: Action, task: nat)
    requires Legal(s, a) && task in EffectOf(cfg, s, a).tasks
    ensures
      var t := EffectOf(cfg, s, a).tasks[task];
      (task in s.tasks && s.tasks[task] == t) || TaskCause(cfg, s, a, t)
  {
    hide ParCheck, CheckCredential, ResolveEvidence, RedeemCode, ParCause;
    if a.BeginPar? {
      ParExactly(cfg, s.v, a.request, a.which, a.now);
    }
  }

  ghost predicate EventCause(cfg: Config, s: System, a: Action, e: Event) {
    match e
    case EvPushed(_, p) => exists task :: task in s.tasks && s.tasks[task] == ParHeld(p)
    case EvToken(code, token, r, access) => TokenCause(cfg, s.v, a, code, token, r, access)
    case EvGranted(g) => CredentialCause(cfg, s.v, a, g)
    case EvMinted(id, m) =>
      exists snapshot, now :: HeldFor(s, id, snapshot, now) && MintCause(cfg, s, a, id, m, snapshot, now)
    case _ => true
  }

  ghost predicate HeldFor(s: System, id: string, snapshot: Snapshot, now: u64) {
    exists task :: task in s.tasks && s.tasks[task] == EvidenceHeld(id, snapshot, now)
  }

  lemma MintStep(cfg: Config, s: System, a: Action, id: string, m: Minted)
    requires a.EndSubmission? && EvMinted(id, m) in EffectOf(cfg, s, a).log
    ensures EventCause(cfg, s, a, EvMinted(id, m))
  {
    hide AuthorizeKernel;
    var held, e := s.tasks[a.task], a.evidence;
    var chip := Joined(e.chip.value, IssuerLiveness(cfg, held.snapshot, e).value);
    CaptureRuns.KernelOnChip(cfg.digests, held.snapshot.holderJkt, held.snapshot.nonce, chip, held.now);
    assert HeldFor(s, id, held.snapshot, held.now);
    assert MintCause(cfg, s, a, id, m, held.snapshot, held.now);
  }

  lemma EventStep(cfg: Config, s: System, a: Action, e: Event)
    requires e in EffectOf(cfg, s, a).log
    ensures EventCause(cfg, s, a, e)
  {
    hide CheckCredential, ResolveEvidence, MintCause, CredentialCause, CredentialEffect, ParCheck, CodeMatches,
      TokenCause, RedeemCode;
    match a
    case Token(r, dpop, token) =>
      TokenStep(cfg, s.v, a, e);
    case BeginCredential(_, r, dpop, now) =>
      CredentialStep(cfg, s, a, e);
    case EndSubmission(task, evidence) =>
      if e.EvMinted? {
        MintStep(cfg, s, a, e.session, e.credential);
      } else if task in s.tasks && s.tasks[task].EvidenceHeld? {
        SubmissionRegion(cfg, s.v, s.tasks[task].session, s.tasks[task].snapshot, evidence, s.tasks[task].now);
      }
    case _ =>
  }

  lemma TokenStep(cfg: Config, v: Volatile, a: Action, e: Event)
    requires a.Token? && e in RedeemCode(cfg, v, a.tokenRequest, a.dpop, a.token).log
    ensures e.EvDpop? || (e.EvToken? && TokenCause(cfg, v, a, e.code, e.token, e.request, e.access))
  {
  }

  lemma CredentialStep(cfg: Config, s: System, a: Action, e: Event)
    requires a.BeginCredential? && e in CheckCredential(cfg, s.v, a.credentialRequest, a.dpop, a.now).log
    ensures EventCause(cfg, s, a, e)
  {
    hide CheckCredential, MintCause, CredentialCause, CredentialEffect;
    var o := CheckCredential(cfg, s.v, a.credentialRequest, a.dpop, a.now);
    CredentialRegion(cfg, s.v, a.credentialRequest, a.dpop, a.now);
    var k: nat :| k < |o.log| && o.log[k] == e;
    CredentialEvents(s.v, o, k);
    if e.EvGranted? {
      GrantCause(cfg, s.v, a, o);
    }
  }

  lemma GrantCause(cfg: Config, v: Volatile, a: Action, o: Outcome<Granted>)
    requires a.BeginCredential? && o == CheckCredential(cfg, v, a.credentialRequest, a.dpop, a.now) && o.result.Ok?
    ensures CredentialCause(cfg, v, a, o.result.value)
  {
    hide CheckCredential, CredentialEffect;
    CredentialRegion(cfg, v, a.credentialRequest, a.dpop, a.now);
  }

  // ---- Run by run ----

  lemma EventNow(cfg: Config, actions: seq<Action>, a: Action, e: Event)
    requires EventCause(cfg, Run(cfg, START, actions), a, e)
    requires
      var s := Run(cfg, START, actions);
      forall t :: t in s.tasks ==> HeldCaused(cfg, actions, s.tasks[t])
    ensures EventCaused(cfg, actions + [a], e)
  {
    hide Run, ParCause, TokenCause, CredentialCause, SubmissionCause, MintCause;
    var more, n := actions + [a], |actions|;
    assert more[..n] == actions && more[n] == a && At(cfg, more, n) == Run(cfg, START, actions);
    match e
    case EvPushed(_, p) =>
      var task :| task in Run(cfg, START, actions).tasks && Run(cfg, START, actions).tasks[task] == ParHeld(p);
      HeldStays(cfg, actions, a, ParHeld(p));
    case EvMinted(id, m) =>
      var s := Run(cfg, START, actions);
      var snapshot, now :| HeldFor(s, id, snapshot, now) && MintCause(cfg, s, a, id, m, snapshot, now);
      var task :| task in s.tasks && s.tasks[task] == EvidenceHeld(id, snapshot, now);
      assert HeldCaused(cfg, actions, EvidenceHeld(id, snapshot, now));
    case _ =>
  }

  lemma TaskNow(cfg: Config, actions: seq<Action>, a: Action, t: Task)
    requires TaskCause(cfg, Run(cfg, START, actions), a, t)
    ensures HeldCaused(cfg, actions + [a], t)
  {
    hide Run, ParCause, SubmissionCause;
    var more, n := actions + [a], |actions|;
    assert more[..n] == actions && more[n] == a && At(cfg, more, n) == Run(cfg, START, actions);
  }

  lemma StepCaused(cfg: Config, actions: seq<Action>, a: Action)
    requires LegalRun(cfg, START, actions) && Legal(Run(cfg, START, actions), a)
    requires AllCaused(cfg, actions, Run(cfg, START, actions))
    ensures AllCaused(cfg, actions + [a], Apply(cfg, Run(cfg, START, actions), a))
  {
    hide Run, LegalRun, Legal, EffectOf, CaptureRuns.CapturesSound, OfferCause, SessionCause, HeldCaused, EventCaused,
      TaskCause, EventCause;
    var s, more := Run(cfg, START, actions), actions + [a];
    var w := EffectOf(cfg, s, a);
    CaptureRuns.RunCapturesSound(cfg, actions);
    assert a in more;
    forall id | id in w.v.offers
      ensures OfferCaused(cfg, more, id, w.v.offers[id])
    {
      OfferStep(cfg, s, a, id);
    }
    forall id | id in w.v.captures
      ensures SessionCaused(more, id, w.v.captures[id])
    {
      SessionStep(cfg, s, a, id);
      if id in s.v.captures && CaptureRuns.SessionAdvances(s.v.captures[id], w.v.captures[id]) {
        SessionKeepsCause(more, id, s.v.captures[id], w.v.captures[id]);
      }
    }
    forall t | t in w.tasks
      ensures HeldCaused(cfg, more, w.tasks[t])
    {
      TaskStep(cfg, s, a, t);
      if TaskCause(cfg, s, a, w.tasks[t]) {
        TaskNow(cfg, actions, a, w.tasks[t]);
      } else {
        HeldStays(cfg, actions, a, w.tasks[t]);
      }
    }
    forall e | e in s.history + w.log
      ensures EventCaused(cfg, more, e)
    {
      if e in w.log {
        EventStep(cfg, s, a, e);
        EventNow(cfg, actions, a, e);
      } else {
        EventStays(cfg, actions, a, e);
      }
    }
  }

  lemma SessionKeepsCause(actions: seq<Action>, id: string, c: CaptureSession, d: CaptureSession)
    requires SessionCaused(actions, id, c) && CaptureRuns.SessionAdvances(c, d)
    ensures SessionCaused(actions, id, d)
  {
    var a :| a in actions && SessionCause(a, id, c);
    assert SessionCause(a, id, d);
  }

  /** In every legal run each offer, session, held request and event comes of a step that met the service's conditions
      in the state before it. */
  lemma {:induction false} RunCaused(cfg: Config, actions: seq<Action>)
    requires LegalRun(cfg, START, actions)
    ensures AllCaused(cfg, actions, Run(cfg, START, actions))
    decreases |actions|
  {
    hide Apply, Legal, AllCaused;
    if actions != [] {
      var shorter, a := actions[..|actions| - 1], actions[|actions| - 1];
      RunCaused(cfg, shorter);
      StepCaused(cfg, shorter, a);
      assert shorter + [a] == actions;
    } else {
      NothingCaused(cfg);
    }
  }

  lemma NothingCaused(cfg: Config)
    ensures AllCaused(cfg, [], START)
  {
  }

  // ---- When the composite regions agree ----

  /** A redemption succeeds exactly for an unused code asked for as it was made, under an unused DPoP proof. */
  lemma RedeemExactly(cfg: Config, v: Volatile, r: TokenRequest, dpop: VerifiedDpop, token: string)
    ensures RedeemCode(cfg, v, r, dpop, token).result.Ok? <==>
            && r.grantType == "authorization_code" && dpop.jti !in v.dpopJtis && r.code in v.codes
            && var c := v.codes[r.code];
            && !c.consumed && c.clientId == r.clientId && c.redirectUri == r.redirectUri
            && c.codeChallenge == cfg.s256(r.codeVerifier)
  {
  }

  /** The evidence a request must supply for its configuration, and what it must not. */
  predicate EvidenceSupplied(cfg: Config, v: Volatile, r: CredentialRequest) {
    var p := cfg.classify(r.configurationId);
    && (if p.QeaaPidBoundSdJwt? || p.MandateSdJwt?
        then r.pidBinding.Verified? && r.pidBinding.value.jti !in v.bindingJtis
        else r.pidBinding.Absent?)
    && (if p.PidFromEmrtdSdJwt?
        then && cfg.readerConfigured && r.emrtdEvidence.Verified? && r.emrtdEvidence.value.jti !in v.bindingJtis
             && r.emrtdEvidence.value.sodPassiveAuth && r.emrtdEvidence.value.chipAuthentic
             && r.emrtdEvidence.value.livenessMatched
        else r.emrtdEvidence.Absent?)
  }

  /** The request is by the token's key, in the token's scope, and proves that key over an unused nonce. */
  predicate AccessFits(cfg: Config, v: Volatile, r: CredentialRequest, dpop: VerifiedDpop) {
    && dpop.jti !in v.dpopJtis && r.token in v.tokens
    && var t := v.tokens[r.token];
    && t.dpopJkt == dpop.jkt && r.configurationId in Words(t.scope)
    && (cfg.classify(r.configurationId).TlsnEvidenceSdJwt? ==> t.tlsnEvidence.Some?)
    && r.proof.Some? && r.proof.value.holderJkt == dpop.jkt
    && r.proof.value.nonce in v.nonces && !v.nonces[r.proof.value.nonce]
  }

  lemma StagesExactly(cfg: Config, v: Volatile, r: CredentialRequest, proof: VerifiedProof, now: u64)
    ensures GrantStages(cfg, v, r, proof, now).result.Ok? <==>
            && EvidenceSupplied(cfg, v, r) && now < U64_MAX
            && !cfg.classify(r.configurationId).PidFromEmrtdMdoc? && !cfg.classify(r.configurationId).Unlisted?
  {
    hide AuthorizeKernel;
    var p := cfg.classify(r.configurationId);
    var pid := PidStage(v, p, r.pidBinding);
    var chip := ChipStage(cfg, pid.state, p, r.emrtdEvidence);
    if pid.result.Ok? && chip.result.Ok? {
      AuthorizeKernelExact(cfg.digests, p, proof.holderJkt, proof.nonce, SubjectFrom(pid.result.value),
                           chip.result.value, now);
    }
  }

  /** A credential request is granted exactly if access and evidence fit and the configuration is one the endpoint's
      kernel call lets pass. */
  lemma CredentialExactly(cfg: Config, v: Volatile, r: CredentialRequest, dpop: VerifiedDpop, now: u64)
    ensures CheckCredential(cfg, v, r, dpop, now).result.Ok? <==>
            && AccessFits(cfg, v, r, dpop) && EvidenceSupplied(cfg, v, r) && now < U64_MAX
            && !cfg.classify(r.configurationId).PidFromEmrtdMdoc? && !cfg.classify(r.configurationId).Unlisted?
  {
    hide GrantStages, Words;
    var w := v.(dpopJtis := v.dpopJtis + {dpop.jti});
    if r.proof.Some? {
      StagesExactly(cfg, w, r, r.proof.value, now);
    }
  }

  /** Which refusal the looking checks give: for the token and its key, for the proof, or for scope and evidence. */
  lemma AccessRefusals(cfg: Config, v: Volatile, r: CredentialRequest, dpop: VerifiedDpop)
    ensures
      var checked := AccessChecked(cfg, v, r, dpop);
      var held := r.token in v.tokens && v.tokens[r.token].dpopJkt == dpop.jkt;
      var inScope := held && r.configurationId in Words(v.tokens[r.token].scope);
      var proven := r.proof.Some? && r.proof.value.holderJkt == dpop.jkt
                    && r.proof.value.nonce in v.nonces && !v.nonces[r.proof.value.nonce];
      var unread := cfg.classify(r.configurationId).TlsnEvidenceSdJwt? && held && v.tokens[r.token].tlsnEvidence.None?;
      && (checked == Err(InvalidToken) <==> !held)
      && (checked == Err(InvalidProof) <==> inScope && !proven)
      && (checked == Err(CredentialRequestDenied) <==> held && (!inScope || (proven && unread)))
      && (checked.Ok? <==> inScope && proven && !unread)
      && (checked.Ok? ==> r.proof == Some(checked.value))
  {
    hide Words;
  }

  /** What the end of a held request answers: issued exactly if the configuration has an encoder and signing works. */
  lemma IssueExactly(cfg: Config, v: Volatile, g: Granted, signs: bool)
    ensures
      var o, p := IssueGranted(cfg, v, g, signs), cfg.classify(g.configurationId);
      var dark := p.HybridPqSdJwt? && !cfg.hybridPqEnabled;
      var unknown := p.PidFromEmrtdMdoc? || p.DevSvipePidSdJwt? || p.Unlisted?;
      && o.state == v
      && (o.result.Ok? <==> !dark && !unknown && signs) && o.log == (if o.result.Ok? then [EvIssued(g)] else [])
      && (o.result == Err(CredentialRequestDenied) <==> dark)
      && (o.result == Err(UnknownCredentialConfiguration) <==> unknown)
      && (o.result == Err(ServerError) <==> !dark && !unknown && !signs)
  {
  }

  /** A submission begins exactly on a waiting session that has not expired. */
  lemma SubmissionExactly(v: Volatile, id: string, now: u64)
    ensures BeginEvidence(v, id, now).Ok? <==>
            id in v.captures && v.captures[id].status == AwaitingEvidence && now <= v.captures[id].expiresAt
    ensures BeginEvidence(v, id, now) == Err(NotFound) <==> id !in v.captures
    ensures BeginEvidence(v, id, now) == Err(Gone) <==> id in v.captures && now > v.captures[id].expiresAt
  {
  }

  // ---- The notary behind the evidence ----

  /** Some step of the run put the evidence on an offer, from an artifact that fitted then. */
  ghost predicate Notarised(actions: seq<Action>, evidence: TlsnEvidence) {
    exists a :: a in actions && a.OfferTlsn? && a.artifact.evidence == evidence && ArtifactFits(a.artifact, a.now)
  }

  lemma OfferNotarised(cfg: Config, actions: seq<Action>, id: string, offer: CredentialOffer)
    requires OfferCaused(cfg, actions, id, offer) && offer.tlsnEvidence.Some?
    ensures Notarised(actions, offer.tlsnEvidence.value)
  {
  }

  /** In every legal run the evidence on an offer, a pushed request, a code or a token is a notary's, from an artifact
      that was signed, well formed and recent when it was offered. */
  lemma {:induction false} EvidenceNotarised(cfg: Config, actions: seq<Action>, evidence: TlsnEvidence)
    requires TlsnRuns.Sensible(cfg) && LegalRun(cfg, START, actions)
    requires
      var v := Run(cfg, START, actions).v;
      || (exists id :: id in v.offers && v.offers[id].tlsnEvidence == Some(evidence))
      || (exists uri :: uri in v.pushed && v.pushed[uri].tlsnEvidence == Some(evidence))
      || (exists code :: code in v.codes && v.codes[code].tlsnEvidence == Some(evidence))
      || (exists token :: token in v.tokens && v.tokens[token].tlsnEvidence == Some(evidence))
    ensures Notarised(actions, evidence)
  {
    hide Run, LegalRun, OfferCaused, Notarised, SessionCaused, HeldCaused, EventCaused, TlsnRuns.OffersInOrder;
    RunCaused(cfg, actions);
    TlsnRuns.RunProvenance(cfg, actions);
    var v := Run(cfg, START, actions).v;
    var id :| id in v.offers && v.offers[id].tlsnEvidence == Some(evidence);
    OfferNotarised(cfg, actions, id, v.offers[id]);
  }

  /** So each TLSNotary credential issued rests on a notary's artifact. */
  lemma {:induction false} TlsnCredentialNotarised(cfg: Config, actions: seq<Action>, i: nat)
    requires TlsnRuns.Sensible(cfg) && LegalRun(cfg, START, actions)
    requires i < |Run(cfg, START, actions).history| && Run(cfg, START, actions).history[i].EvIssued?
    requires Run(cfg, START, actions).history[i].grant.configurationId == cfg.tlsnName
    ensures
      var s, g := Run(cfg, START, actions), Run(cfg, START, actions).history[i].grant;
      && g.token in s.v.tokens && s.v.tokens[g.token].tlsnEvidence.Some?
      && Notarised(actions, s.v.tokens[g.token].tlsnEvidence.value)
  {
    hide Run, LegalRun, Notarised;
    TlsnRuns.TlsnCredentialHasEvidence(cfg, actions, i);
    var s := Run(cfg, START, actions);
    EvidenceNotarised(cfg, actions, s.v.tokens[s.history[i].grant.token].tlsnEvidence.value);
  }

  // ---- The person behind the mandate ----

  /** The step asked for the grant with that presented PID. */
  predicate AskedWith(a: Action, g: Granted, b: VerifiedPidBinding) {
    && a.BeginCredential? && a.credentialRequest.configurationId == g.configurationId
    && a.credentialRequest.token == g.token && a.credentialRequest.pidBinding == Verified(b)
  }

  /** In every legal run each mandate issued is on behalf of the subject of the PID that its request presented, whose
      binding was used up right before the grant, with the demonstration powers. */
  lemma {:induction false} MandateOnBehalf(cfg: Config, actions: seq<Action>, i: nat)
    requires LegalRun(cfg, START, actions)
    requires i < |Run(cfg, START, actions).history| && Run(cfg, START, actions).history[i].EvIssued?
    requires cfg.classify(Run(cfg, START, actions).history[i].grant.configurationId).MandateSdJwt?
    ensures
      var h, g := Run(cfg, START, actions).history, Run(cfg, START, actions).history[i].grant;
      exists b: VerifiedPidBinding, d: nat, a ::
        && 0 < d < i && h[d] == EvGranted(g) && h[d - 1] == EvBinding(PidBinding, b.jti)
        && g.mandate == Some(MandateGrant(b.subject, Powers.Powers(DEMO_MANDATE_POWERS)))
        && a in actions && AskedWith(a, g, b)
  {
    hide Run, LegalRun, OfferCaused, SessionCaused, HeldCaused, GrantChecks;
    EvidenceRuns.IssuedOnEvidence(cfg, actions, i);
    RunCaused(cfg, actions);
    var h, g := Run(cfg, START, actions).history, Run(cfg, START, actions).history[i].grant;
    var d: nat :| d < i && h[d] == EvGranted(g) && EvidenceRuns.RestedAt(h, d);
    assert EventCaused(cfg, actions, h[d]);
    var k: nat :| k < |actions| && CredentialCause(cfg, At(cfg, actions, k).v, actions[k], g);
    assert AskedWith(actions[k], g, g.pid.value);
    assert actions[k] in actions;
  }
}
