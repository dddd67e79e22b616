// Requests interleaved: every lock region of every handler is one step, and a request that lets go of
// the lock leaves a task behind for its next region.

module ServiceRuns {
  import opened Prelude
  import opened Service
  import Adapter
  import Profiles
  import Scopes
  import Powers

  /** What a request holds in its local variables between two lock regions. */
  datatype Task =
    | ParHeld(pushed: PushedAuthorization)
    | AuthorizeHeld(uri: string, pushed: PushedAuthorization)
    | CredentialHeld(grant: Granted)
    | EvidenceHeld(session: string, snapshot: Snapshot, now: u64)

  /** `drawn` holds every random identifier handed out so far. */
  datatype System = System(v: Volatile, tasks: map<nat, Task>, drawn: set<string>, history: seq<Event>)

  datatype Action =
    | BeginPar(task: nat, request: ParRequest, which: Option<string>, now: u64)
    | EndPar(task: nat, uri: string)
    | Offer(configurationId: string, id: string, issuerState: string, now: u64)
    | OfferTlsn(artifact: TlsnArtifact, id: string, issuerState: string, now: u64)
    | BeginAuthorize(task: nat, clientId: string, uri: string)
    | EndAuthorize(task: nat, code: string)
    | Token(tokenRequest: TokenRequest, dpop: VerifiedDpop, token: string)
    | Nonce(nonce: string)
    | BeginCredential(task: nat, credentialRequest: CredentialRequest, dpop: VerifiedDpop, now: u64)
    | EndCredential(task: nat, signs: bool)
    | OpenSession(id: string, holderJkt: string, holderJwk: string, nonce: string, iproovToken: Option<string>,
                  now: u64)
    | BeginSubmission(task: nat, session: string, now: u64)
    | EndSubmission(task: nat, evidence: Evidence)

  datatype Effect = Effect(v: Volatile, tasks: map<nat, Task>, log: seq<Event>)

  function Idle(s: System): Effect { Effect(s.v, s.tasks, []) }

  function EffectOf(cfg: Config, s: System, a: Action): Effect {
    match a
    case BeginPar(task, r, which, now) =>
      var evidence := ParCheck(cfg, s.v, r, which, now);
      if evidence.Err? then Idle(s) else Effect(s.v, s.tasks[task := ParHeld(PushedFrom(r, evidence.value))], [])
    case EndPar(task, uri) =>
      if task !in s.tasks || !s.tasks[task].ParHeld? then Idle(s)
      else
        var o := ParStore(s.v, uri, s.tasks[task].pushed);
        Effect(o.state, s.tasks - {task}, o.log)
    case Offer(configurationId, id, issuerState, now) =>
      var o := CreateOffer(cfg, s.v, configurationId, id, issuerState, now);
      Effect(o.state, s.tasks, o.log)
    case OfferTlsn(artifact, id, issuerState, now) =>
      var o := TlsnOffer(cfg, s.v, artifact, id, issuerState, now);
      Effect(o.state, s.tasks, o.log)
    case BeginAuthorize(task, clientId, uri) =>
      var o := TakePushed(s.v, clientId, uri);
      Effect(o.state, if o.result.Ok? then s.tasks[task := AuthorizeHeld(uri, o.result.value)] else s.tasks, o.log)
    case EndAuthorize(task, code) =>
      if task !in s.tasks || !s.tasks[task].AuthorizeHeld? then Idle(s)
      else
        var o := StoreCode(s.v, code, s.tasks[task].uri, s.tasks[task].pushed);
        Effect(o.state, s.tasks - {task}, o.log)
    case Token(r, dpop, token) =>
      var o := RedeemCode(cfg, s.v, r, dpop, token);
      Effect(o.state, s.tasks, o.log)
    case Nonce(nonce) =>
      var o := IssueNonce(s.v, nonce);
      Effect(o.state, s.tasks, o.log)
    case BeginCredential(task, r, dpop, now) =>
      var o := CheckCredential(cfg, s.v, r, dpop, now);
      Effect(o.state, if o.result.Ok? then s.tasks[task := CredentialHeld(o.result.value)] else s.tasks, o.log)
    case EndCredential(task, signs) =>
      if task !in s.tasks || !s.tasks[task].CredentialHeld? then Idle(s)
      else
        var o := IssueGranted(cfg, s.v, s.tasks[task].grant, signs);
        Effect(o.state, s.tasks - {task}, o.log)
    case OpenSession(id, jkt, jwk, nonce, iproovToken, now) =>
      var o := OpenCapture(s.v, id, jkt, jwk, nonce, iproovToken, now);
      Effect(o.state, s.tasks, o.log)
    case BeginSubmission(task, session, now) =>
      var snapshot := BeginEvidence(s.v, session, now);
      if snapshot.Err? then Idle(s) else Effect(s.v, s.tasks[task := EvidenceHeld(session, snapshot.value, now)], [])
    case EndSubmission(task, evidence) =>
      if task !in s.tasks || !s.tasks[task].EvidenceHeld? then Idle(s)
      else
        var held := s.tasks[task];
        var o := ResolveEvidence(cfg, s.v, held.session, held.snapshot, evidence, held.now);
        Effect(o.state, s.tasks - {task}, o.log)
  }

  /** The random identifiers a step draws. */
  function Draws(a: Action): set<string> {
    match a
    case EndPar(_, uri) => {uri}
    case Offer(_, id, issuerState, _) => {id, issuerState}
    case OfferTlsn(_, id, issuerState, _) => {id, issuerState}
    case EndAuthorize(_, code) => {code}
    case Token(_, _, token) => {token}
    case Nonce(nonce) => {nonce}
    case OpenSession(id, _, _, nonce, _, _) => {id, nonce}
    case _ => {}
  }

  function Apply(cfg: Config, s: System, a: Action): System {
    var e := EffectOf(cfg, s, a);
    System(e.v, e.tasks, s.drawn + Draws(a), s.history + e.log)
  }

  /** Identifiers never repeat, a new request takes a new task, and a scan of the offers stops where one can. */
  ghost predicate Legal(s: System, a: Action) {
    && Draws(a) !! s.drawn
    && (a.BeginPar? || a.BeginAuthorize? || a.BeginCredential? || a.BeginSubmission? ==> a.task !in s.tasks)
    && (a.BeginPar? && a.request.issuerState.Some? ==> ScanStops(s.v.offers, a.request.issuerState.value, a.which))
  }

  const START: System :=
    System(Volatile(map[], map[], map[], map[], {}, {}, map[], {}, map[]), map[], {}, [])

  /** Takes the steps of `actions` in order. */
  function Run(cfg: Config, s: System, actions: seq<Action>): System {
    if actions == [] then s else Apply(cfg, Run(cfg, s, actions[..|actions| - 1]), actions[|actions| - 1])
  }

  ghost predicate LegalRun(cfg: Config, s: System, actions: seq<Action>) {
    actions == []
    || (LegalRun(cfg, s, actions[..|actions| - 1])
        && Legal(Run(cfg, s, actions[..|actions| - 1]), actions[|actions| - 1]))
  }

  lemma RunExtends(cfg: Config, s: System, actions: seq<Action>, a: Action)
    ensures Run(cfg, s, actions + [a]) == Apply(cfg, Run(cfg, s, actions), a)
    ensures LegalRun(cfg, s, actions + [a]) <==> LegalRun(cfg, s, actions) && Legal(Run(cfg, s, actions), a)
  {
    hide Apply, Legal;
    assert (actions + [a])[..|actions + [a]| - 1] == actions;
  }

  // ---- What the composite regions can do ----

  /** The three ledgers a step may have added to; every other table is as it was. */
  predicate OnlyLedgers(v: Volatile, w: Volatile) {
    w == v.(dpopJtis := w.dpopJtis, bindingJtis := w.bindingJtis, nonces := w.nonces)
  }

  /** A redemption uses its DPoP proof up; if the code matches, it marks the code and stores one token. */
  ghost predicate RedeemEffect(cfg: Config, v: Volatile, r: TokenRequest, dpop: VerifiedDpop, token: string,
                               o: Outcome<string>)
  {
    var w := o.state;
    && w.pushed == v.pushed && w.nonces == v.nonces && w.bindingJtis == v.bindingJtis && w.offers == v.offers
    && w.tlsnSessions == v.tlsnSessions && w.captures == v.captures
    && (o.log != [] ==> dpop.jti !in v.dpopJtis && o.log[0] == EvDpop(TokenEndpoint, dpop.jti))
    && w.dpopJtis == (if o.log == [] then v.dpopJtis else v.dpopJtis + {dpop.jti})
    && (match o.result
        case Err(_) => w.codes == v.codes && w.tokens == v.tokens && |o.log| <= 1
        case Ok(_) =>
          && r.code in v.codes && CodeMatches(cfg, v.codes[r.code], r)
          && var access := AccessToken(v.codes[r.code].scope, dpop.jkt, v.codes[r.code].tlsnEvidence);
          && w.codes == v.codes[r.code := v.codes[r.code].(consumed := true)]
          && w.tokens == v.tokens[token := access]
          && o.log == [EvDpop(TokenEndpoint, dpop.jti), EvToken(r.code, token, r, access)])
  }

  lemma RedeemRegion(cfg: Config, v: Volatile, r: TokenRequest, dpop: VerifiedDpop, token: string)
    ensures RedeemEffect(cfg, v, r, dpop, token, RedeemCode(cfg, v, r, dpop, token))
  {
  }

  /** A grant comes from a live token of the holder's key that covers the configuration, and from an unused nonce. */
  predicate GrantChecks(cfg: Config, v: Volatile, g: Granted) {
    && g.nonce in v.nonces && !v.nonces[g.nonce]
    && g.token in v.tokens
    && TokenCovers(cfg, v.tokens[g.token], g)
    && EvidenceFits(cfg, g)
  }

  /** A grant carries the evidence its configuration needs and no other; a chip read comes from a trusted reader and has
      all three verdicts; and a mandate is on behalf of the presented PID's subject. */
  predicate EvidenceFits(cfg: Config, g: Granted) {
    var p := cfg.classify(g.configurationId);
    && (g.pid.Some? <==> p.QeaaPidBoundSdJwt? || p.MandateSdJwt?) && (g.chip.Some? <==> p.PidFromEmrtdSdJwt?)
    && (g.chip.Some? ==>
          cfg.readerConfigured
          && g.chip.value.sodPassiveAuth && g.chip.value.chipAuthentic && g.chip.value.livenessMatched)
    && g.mandate == if p.MandateSdJwt?
                    then Some(Adapter.MandateGrant(g.pid.value.subject, Powers.Powers(Adapter.DEMO_MANDATE_POWERS)))
                    else None
  }

  /** The use of evidence that a grant or a minting rests on. */
  function RestsOn(e: Event): Option<Event> {
    match e
    case EvGranted(g) =>
      if g.chip.Some? then Some(EvBinding(EmrtdEvidence, g.chip.value.jti))
      else if g.pid.Some? then Some(EvBinding(PidBinding, g.pid.value.jti))
      else None
    case EvMinted(_, m) => Some(EvBinding(Capture, m.chip.jti))
    case _ => None
  }

  predicate TokenCovers(cfg: Config, access: AccessToken, g: Granted) {
    && access.dpopJkt == g.holderJkt
    && g.configurationId in Scopes.Words(access.scope)
    && (cfg.classify(g.configurationId).TlsnEvidenceSdJwt? ==> access.tlsnEvidence.Some?)
  }

  ghost predicate NewBinding(v: Volatile, w: Volatile, e: Event) {
    e.EvBinding? && e.jti !in v.bindingJtis && w.bindingJtis == v.bindingJtis + {e.jti}
  }

  /** An evidence stage adds at most one identifier to its ledger, one that was not there. */
  ghost predicate UsesEvidence(v: Volatile, w: Volatile, log: seq<Event>) {
    || (log == [] && w == v)
    || (|log| == 1 && NewBinding(v, w, log[0]) && w == v.(bindingJtis := w.bindingJtis))
  }

  /** A configuration takes a presented PID or a chip read, never both. */
  lemma EvidenceStages(cfg: Config, v: Volatile, w: Volatile, p: Profiles.Profile,
                       pid: Supplied<VerifiedPidBinding>, chip: Supplied<Adapter.VerifiedChipLiveness>)
    ensures var o := PidStage(v, p, pid); UsesEvidence(v, o.state, o.log)
    ensures var o := ChipStage(cfg, w, p, chip); UsesEvidence(w, o.state, o.log)
    ensures PidStage(v, p, pid).log == [] || ChipStage(cfg, w, p, chip).log == []
  {
  }

  /** A stage that passes answers with the evidence it used up, which its configuration needs. */
  lemma EvidenceAnswers(cfg: Config, v: Volatile, w: Volatile, p: Profiles.Profile,
                        pid: Supplied<VerifiedPidBinding>, chip: Supplied<Adapter.VerifiedChipLiveness>)
    ensures
      var o := PidStage(v, p, pid);
      match o.result
      case Err(_) => true
      case Ok(None) => !(p.QeaaPidBoundSdJwt? || p.MandateSdJwt?) && pid == Absent && o.log == []
      case Ok(Some(b)) =>
        (p.QeaaPidBoundSdJwt? || p.MandateSdJwt?) && pid == Verified(b) && o.log == [EvBinding(PidBinding, b.jti)]
    ensures
      var o := ChipStage(cfg, w, p, chip);
      match o.result
      case Err(_) => true
      case Ok(None) => !p.PidFromEmrtdSdJwt? && chip == Absent && o.log == []
      case Ok(Some(c)) =>
        && p.PidFromEmrtdSdJwt? && chip == Verified(c) && cfg.readerConfigured
        && o.log == [EvBinding(EmrtdEvidence, c.jti)]
  {
  }

  /** The stages append a use of evidence or not, then the grant if there is one. */
  ghost predicate StagesEffect(v: Volatile, o: Outcome<Granted>) {
    && OnlyLedgers(v, o.state) && o.state.dpopJtis == v.dpopJtis
    && (match o.result
        case Err(_) => o.state.nonces == v.nonces && UsesEvidence(v, o.state, o.log)
        case Ok(g) =>
          && o.state.nonces == v.nonces[g.nonce := true]
          && 0 < |o.log| && o.log[|o.log| - 1] == EvGranted(g)
          && UsesEvidence(v, o.state.(nonces := v.nonces), o.log[..|o.log| - 1]))
  }

  /** The grant is for the request's configuration and token, the proof's key and nonce, and the evidence supplied. */
  predicate Answers(r: CredentialRequest, proof: VerifiedProof, g: Granted) {
    && g.configurationId == r.configurationId && g.token == r.token
    && g.holderJkt == proof.holderJkt && g.holderJwk == proof.holderJwk && g.nonce == proof.nonce
    && r.pidBinding == (match g.pid case None => Absent case Some(b) => Verified(b))
    && r.emrtdEvidence == (match g.chip case None => Absent case Some(c) => Verified(c))
  }

  /** A grant rests on fitting evidence, whose use is logged right before it. */
  lemma StagesEvidence(cfg: Config, v: Volatile, r: CredentialRequest, proof: VerifiedProof, now: u64)
    ensures
      var o := GrantStages(cfg, v, r, proof, now);
      o.result.Ok? ==>
        var g := o.result.value;
        && EvidenceFits(cfg, g) && Answers(r, proof, g)
        && o.log == (match RestsOn(EvGranted(g)) case None => [EvGranted(g)] case Some(b) => [b, EvGranted(g)])
  {
    hide Adapter.AuthorizeKernel, PidStage, ChipStage;
    var p := cfg.classify(r.configurationId);
    var pid := PidStage(v, p, r.pidBinding);
    var chip := ChipStage(cfg, pid.state, p, r.emrtdEvidence);
    EvidenceAnswers(cfg, v, pid.state, p, r.pidBinding, r.emrtdEvidence);
    if pid.result.Ok? && chip.result.Ok? {
      var subject := SubjectFrom(pid.result.value);
      Adapter.AuthorizeKernelExact(cfg.digests, p, proof.holderJkt, proof.nonce, subject, chip.result.value, now);
    }
  }

  lemma StagesRegion(cfg: Config, v: Volatile, r: CredentialRequest, proof: VerifiedProof, now: u64)
    ensures
      var o := GrantStages(cfg, v, r, proof, now);
      StagesEffect(v, o) && (o.result.Ok? ==> o.result.value.nonce == proof.nonce)
  {
    hide Adapter.AuthorizeKernel, PidStage, ChipStage, UsesEvidence;
    var p := cfg.classify(r.configurationId);
    var pid := PidStage(v, p, r.pidBinding);
    var chip := ChipStage(cfg, pid.state, p, r.emrtdEvidence);
    EvidenceStages(cfg, v, pid.state, p, r.pidBinding, r.emrtdEvidence);
    BothStages(v, pid.state, chip.state, pid.log, chip.log);
    NoEvidenceYet(v, pid.state, pid.log);
    var o := GrantStages(cfg, v, r, proof, now);
    if o.result.Ok? {
      assert o.log[..|o.log| - 1] == pid.log + chip.log;
      assert o.state.(nonces := v.nonces) == chip.state;
    }
  }

  lemma BothStages(v: Volatile, w: Volatile, x: Volatile, first: seq<Event>, second: seq<Event>)
    requires UsesEvidence(v, w, first) && UsesEvidence(w, x, second) && (first == [] || second == [])
    ensures UsesEvidence(v, x, first + second) && x == v.(bindingJtis := x.bindingJtis)
  {
    assert first + second == if first == [] then second else first;
  }

  lemma NoEvidenceYet(v: Volatile, w: Volatile, log: seq<Event>)
    requires UsesEvidence(v, w, log)
    ensures w == v.(bindingJtis := w.bindingJtis)
  {
  }

  /** A credential request uses its DPoP proof up, then goes through the stages or is refused. */
  ghost predicate CredentialEffect(v: Volatile, o: Outcome<Granted>) {
    || (o.log == [] && o.state == v && o.result.Err?)
    || (&& 0 < |o.log| && o.log[0].EvDpop? && o.log[0].jti !in v.dpopJtis
        && StagesEffect(v.(dpopJtis := v.dpopJtis + {o.log[0].jti}), Outcome(o.state, o.log[1..], o.result)))
  }

  /** The request held a proof of the token's key over an unused nonce, and the grant answers it. */
  predicate RequestAnswered(v: Volatile, r: CredentialRequest, dpop: VerifiedDpop, g: Granted) {
    && r.proof.Some? && Answers(r, r.proof.value, g)
    && r.token in v.tokens && v.tokens[r.token].dpopJkt == dpop.jkt == r.proof.value.holderJkt
    && dpop.jti !in v.dpopJtis
  }

  /** The use of evidence stands right before the grant that rests on it. */
  predicate GrantRests(o: Outcome<Granted>)
    requires o.result.Ok?
  {
    var e := EvGranted(o.result.value);
    match RestsOn(e)
    case None => |o.log| == 2 && o.log[1] == e
    case Some(b) => |o.log| == 3 && o.log[1] == b && o.log[2] == e
  }

  lemma CredentialRegion(cfg: Config, v: Volatile, r: CredentialRequest, dpop: VerifiedDpop, now: u64)
    ensures
      var o := CheckCredential(cfg, v, r, dpop, now);
      CredentialEffect(v, o) && (o.result.Ok? ==> GrantChecks(cfg, v, o.result.value) && GrantRests(o))
    ensures
      var o := CheckCredential(cfg, v, r, dpop, now);
      o.result.Ok? ==> RequestAnswered(v, r, dpop, o.result.value)
  {
    hide GrantStages, Scopes.Words;
    var o := CheckCredential(cfg, v, r, dpop, now);
    if dpop.jti !in v.dpopJtis {
      var w := v.(dpopJtis := v.dpopJtis + {dpop.jti});
      var checked := AccessChecked(cfg, w, r, dpop);
      if checked.Ok? {
        StagesRegion(cfg, w, r, checked.value, now);
        StagesEvidence(cfg, w, r, checked.value, now);
        assert o.log[1..] == GrantStages(cfg, w, r, checked.value, now).log;
      }
    }
  }

  /** So a request adds to three ledgers only, and one grant uses one unused nonce. */
  lemma CredentialLedgers(v: Volatile, o: Outcome<Granted>)
    requires CredentialEffect(v, o)
    ensures OnlyLedgers(v, o.state) && v.dpopJtis <= o.state.dpopJtis && v.bindingJtis <= o.state.bindingJtis
    ensures o.result.Err? ==> o.state.nonces == v.nonces
    ensures o.result.Ok? ==> o.state.nonces == v.nonces[o.result.value.nonce := true]
    ensures o.result.Ok? ==> EvGranted(o.result.value) in o.log
  {
    if o.result.Ok? {
      assert o.log[|o.log| - 1] == EvGranted(o.result.value);
    }
  }

  ghost predicate CredentialLogged(v: Volatile, o: Outcome<Granted>, e: Event) {
    match e
    case EvDpop(_, jti) => jti !in v.dpopJtis && jti in o.state.dpopJtis
    case EvBinding(_, jti) => jti !in v.bindingJtis && jti in o.state.bindingJtis
    case EvGranted(g) => o.result == Ok(g)
    case _ => false
  }

  lemma CredentialEvents(v: Volatile, o: Outcome<Granted>, k: nat)
    requires CredentialEffect(v, o) && k < |o.log|
    ensures CredentialLogged(v, o, o.log[k])
    ensures o.log[k].EvDpop? <==> k == 0
    ensures o.log[k].EvGranted? <==> o.result.Ok? && k == |o.log| - 1
    ensures o.log[k].EvBinding? ==> k == 1
  {
    if k > 0 {
      assert o.log[k] == o.log[1..][k - 1];
    }
  }

  /** The decision mints once or not at all, and touches no table but the sessions. */
  ghost predicate DecisionEffect(w: Volatile, o: Outcome<()>, session: string, jti: string) {
    && o.state == w.(captures := o.state.captures)
    && (o.log == [] || (|o.log| == 1 && o.log[0].EvMinted? && o.log[0].session == session
                        && o.log[0].credential.chip.jti == jti))
  }

  lemma DecisionRegion(cfg: Config, w: Volatile, id: string, snapshot: Snapshot, e: Evidence,
                       chip: Adapter.VerifiedChipLiveness, iproov: bool, reader: bool, now: u64)
    ensures DecisionEffect(w, DecideCapture(cfg, w, id, snapshot, e, chip, iproov, reader, now), id, chip.jti)
  {
    hide Adapter.AuthorizeKernel;
  }

  /** A submission uses its attestation up, then mints or does not; it touches no table but that ledger and the
      sessions. */
  ghost predicate SubmissionEffect(v: Volatile, o: Outcome<()>, session: string) {
    && o.state == v.(bindingJtis := o.state.bindingJtis, captures := o.state.captures)
    && v.bindingJtis <= o.state.bindingJtis
    && |o.log| <= 2
    && (|o.log| == 0 ==> o.state == v)
    && (|o.log| > 0 ==> o.log[0].EvBinding? && o.log[0].use == Capture && o.log[0].jti !in v.bindingJtis
                        && o.state.bindingJtis == v.bindingJtis + {o.log[0].jti})
    && (|o.log| == 2 ==> o.log[1].EvMinted? && o.log[1].session == session
                         && o.log[1].credential.chip.jti == o.log[0].jti)
  }

  lemma SubmissionRegion(cfg: Config, v: Volatile, id: string, snapshot: Snapshot, e: Evidence, now: u64)
    ensures SubmissionEffect(v, ResolveEvidence(cfg, v, id, snapshot, e, now), id)
  {
    hide DecideCapture;
    var liveness := IssuerLiveness(cfg, snapshot, e);
    if liveness.Some? && e.chip.Some? {
      var chip := Joined(e.chip.value, liveness.value);
      var w := v.(bindingJtis := v.bindingJtis + {chip.jti});
      DecisionRegion(cfg, w, id, snapshot, e, chip, liveness.value, e.chip.value.livenessMatched, now);
    }
  }
}
