// Single use: nothing that may happen once happens twice, in any interleaving.

module ReplayRuns {
  import opened Prelude
  import opened Service
  import opened ServiceRuns

  // ---- What must not happen twice ----

  /** Two events that use the same thing up. */
  predicate Clash(e: Event, f: Event) {
    match (e, f)
    case (EvPushed(uri, _), EvPushed(uri', _)) => uri == uri'
    case (EvCode(uri, code, _), EvCode(uri', code', _)) => uri == uri' || code == code'
    case (EvToken(code, token, _, _), EvToken(code', token', _, _)) => code == code' || token == token'
    case (EvNonce(n), EvNonce(n')) => n == n'
    case (EvDpop(_, jti), EvDpop(_, jti')) => jti == jti'
    case (EvBinding(_, jti), EvBinding(_, jti')) => jti == jti'
    case (EvGranted(g), EvGranted(g')) => g.nonce == g'.nonce
    case (EvIssued(g), EvIssued(g')) => g.nonce == g'.nonce
    case (EvMinted(_, m), EvMinted(_, m')) => m.chip.jti == m'.chip.jti
    case _ => false
  }

  ghost predicate OnceOnly(h: seq<Event>) {
    forall i, j :: 0 <= i < j < |h| ==> !Clash(h[i], h[j])
  }

  // ---- What the state remembers of it ----

  ghost predicate UriHeld(tasks: map<nat, Task>, uri: string) {
    exists t :: t in tasks && tasks[t].AuthorizeHeld? && tasks[t].uri == uri
  }

  ghost predicate NonceHeld(tasks: map<nat, Task>, nonce: string) {
    exists t :: t in tasks && tasks[t].CredentialHeld? && tasks[t].grant.nonce == nonce
  }

  /** The state rules out anything that would clash with `e`. */
  ghost predicate Spent(s: System, e: Event) {
    match e
    case EvPushed(uri, _) => uri in s.drawn
    case EvCode(uri, code, _) => uri in s.drawn && uri !in s.v.pushed && !UriHeld(s.tasks, uri) && code in s.drawn
    case EvToken(code, token, _, _) => code in s.v.codes && s.v.codes[code].consumed && token in s.v.tokens
      && token in s.drawn
    case EvNonce(n) => n in s.drawn
    case EvDpop(_, jti) => jti in s.v.dpopJtis
    case EvBinding(_, jti) => jti in s.v.bindingJtis
    case EvGranted(g) => g.nonce in s.v.nonces && s.v.nonces[g.nonce]
    case EvIssued(g) => g.nonce in s.v.nonces && s.v.nonces[g.nonce] && !NonceHeld(s.tasks, g.nonce)
    case EvMinted(_, m) => m.chip.jti in s.v.bindingJtis
  }

  /** The state, before a step by `a`, lets `e` happen. */
  ghost predicate Unspent(s: System, a: Action, e: Event) {
    match e
    case EvPushed(uri, _) => uri in Draws(a)
    case EvCode(uri, code, _) => UriHeld(s.tasks, uri) && code in Draws(a)
    case EvToken(code, token, _, _) => code in s.v.codes && !s.v.codes[code].consumed && token in Draws(a)
    case EvNonce(n) => n in Draws(a)
    case EvDpop(_, jti) => jti !in s.v.dpopJtis
    case EvBinding(_, jti) => jti !in s.v.bindingJtis
    case EvGranted(g) => g.nonce in s.v.nonces && !s.v.nonces[g.nonce]
    case EvIssued(g) => NonceHeld(s.tasks, g.nonce)
    case EvMinted(_, m) => m.chip.jti !in s.v.bindingJtis
  }

  lemma SpentIsNotUnspent(s: System, a: Action, e: Event, f: Event)
    requires Legal(s, a) && Spent(s, e) && Unspent(s, a, f)
    ensures !Clash(e, f)
  {
  }

  /** Two requests never hold the same request_uri or the same used nonce. */
  predicate SameHold(t: Task, u: Task) {
    || (t.AuthorizeHeld? && u.AuthorizeHeld? && t.uri == u.uri)
    || (t.CredentialHeld? && u.CredentialHeld? && t.grant.nonce == u.grant.nonce)
  }

  ghost predicate TaskApart(s: System, t: Task) {
    match t
    case AuthorizeHeld(uri, _) => uri in s.drawn && uri !in s.v.pushed
    case CredentialHeld(g) => g.nonce in s.v.nonces && s.v.nonces[g.nonce]
    case _ => true
  }

  ghost predicate KeysDrawn(s: System) {
    && (forall k :: k in s.v.pushed ==> k in s.drawn)
    && (forall k :: k in s.v.codes ==> k in s.drawn)
    && (forall k :: k in s.v.tokens ==> k in s.drawn)
    && (forall k :: k in s.v.nonces ==> k in s.drawn)
  }

  ghost predicate HoldsApart(s: System) {
    && (forall t :: t in s.tasks ==> TaskApart(s, s.tasks[t]))
    && (forall t, u :: t in s.tasks && u in s.tasks && t != u ==> !SameHold(s.tasks[t], s.tasks[u]))
  }

  ghost predicate AllSpent(s: System) {
    forall e :: e in s.history ==> Spent(s, e)
  }

  ghost predicate Guarded(s: System) {
    KeysDrawn(s) && HoldsApart(s) && AllSpent(s) && OnceOnly(s.history)
  }

  // ---- Step by step ----

  /** Everything a step appends could not have happened before, and cannot happen again. */
  ghost predicate LogFits(s: System, a: Action, t: System, log: seq<Event>) {
    && (forall k: nat | k < |log| :: Unspent(s, a, log[k]) && Spent(t, log[k]))
    && OnceOnly(log)
  }

  lemma OnceOnlyAppend(s: System, a: Action, t: System, log: seq<Event>)
    requires Legal(s, a) && AllSpent(s) && OnceOnly(s.history) && LogFits(s, a, t, log)
    ensures OnceOnly(s.history + log)
  {
    var h := s.history + log;
    forall i, j | 0 <= i < j < |h|
      ensures !Clash(h[i], h[j])
    {
      if i < |s.history| <= j {
        assert h[i] in s.history;
        SpentIsNotUnspent(s, a, h[i], log[j - |s.history|]);
      }
    }
  }

  /** From `v` to `w`: names are only added from `d`, a code or nonce once used stays used, a token stays as
      it is, and the ledgers of proofs, attestations and sessions only grow. */
  ghost predicate Advances(d: set<string>, v: Volatile, w: Volatile) {
    && (forall u :: u in w.pushed ==> u in v.pushed || u in d)
    && CodesAdvance(d, v.codes, w.codes)
    && TokensAdvance(d, v.tokens, w.tokens)
    && NoncesAdvance(d, v.nonces, w.nonces)
    && v.dpopJtis <= w.dpopJtis && v.bindingJtis <= w.bindingJtis && v.tlsnSessions <= w.tlsnSessions
  }

  ghost predicate CodesAdvance(d: set<string>, v: map<string, AuthorizationCode>, w: map<string, AuthorizationCode>) {
    && (forall c :: c in v ==> c in w && (c !in d ==> w[c] == v[c].(consumed := v[c].consumed || w[c].consumed)))
    && (forall c :: c in w ==> c in v || c in d)
  }

  ghost predicate TokensAdvance(d: set<string>, v: map<string, AccessToken>, w: map<string, AccessToken>) {
    && (forall k :: k in v ==> k in w && (k !in d ==> w[k] == v[k]))
    && (forall k :: k in w ==> k in v || k in d)
  }

  ghost predicate NoncesAdvance(d: set<string>, v: map<string, bool>, w: map<string, bool>) {
    && (forall n :: n in v ==> n in w && (n !in d ==> v[n] ==> w[n]))
    && (forall n :: n in w ==> n in v || n in d)
  }

  lemma RedeemLedgers(cfg: Config, v: Volatile, r: TokenRequest, dpop: VerifiedDpop, token: string, o: Outcome<string>)
    requires RedeemEffect(cfg, v, r, dpop, token, o)
    ensures CodesAdvance({}, v.codes, o.state.codes) && TokensAdvance({token}, v.tokens, o.state.tokens)
    ensures v.dpopJtis <= o.state.dpopJtis && NoncesAdvance({}, v.nonces, o.state.nonces)
  {
  }

  /** What the three composite regions keep, field by field. */
  lemma CompositeRegions(cfg: Config, s: System, a: Action)
    ensures
      var w := EffectOf(cfg, s, a).v;
      a.Token? || a.BeginCredential? || a.EndSubmission? ==>
        && w.pushed == s.v.pushed && w.tlsnSessions == s.v.tlsnSessions
        && CodesAdvance({}, s.v.codes, w.codes) && TokensAdvance(Draws(a), s.v.tokens, w.tokens)
        && s.v.dpopJtis <= w.dpopJtis && s.v.bindingJtis <= w.bindingJtis && NoncesAdvance({}, s.v.nonces, w.nonces)
  {
    hide CheckCredential, ResolveEvidence, RedeemCode, CredentialEffect, CodeMatches;
    if a.Token? {
      RedeemRegion(cfg, s.v, a.tokenRequest, a.dpop, a.token);
      RedeemLedgers(cfg, s.v, a.tokenRequest, a.dpop, a.token, RedeemCode(cfg, s.v, a.tokenRequest, a.dpop, a.token));
    } else if a.BeginCredential? {
      CredentialRegion(cfg, s.v, a.credentialRequest, a.dpop, a.now);
      CredentialLedgers(s.v, CheckCredential(cfg, s.v, a.credentialRequest, a.dpop, a.now));
    } else if a.EndSubmission? && a.task in s.tasks && s.tasks[a.task].EvidenceHeld? {
      SubmissionRegion(cfg, s.v, s.tasks[a.task].session, s.tasks[a.task].snapshot, a.evidence, s.tasks[a.task].now);
    }
  }

  lemma StepPushed(cfg: Config, s: System, a: Action)
    ensures var w := EffectOf(cfg, s, a).v; forall u :: u in w.pushed ==> u in s.v.pushed || u in Draws(a)
  {
    hide CheckCredential, ResolveEvidence, RedeemCode;
    CompositeRegions(cfg, s, a);
  }

  lemma CodesKept(cfg: Config, s: System, a: Action)
    requires !a.Token? && !a.EndAuthorize?
    ensures EffectOf(cfg, s, a).v.codes == s.v.codes
  {
    hide CheckCredential, ResolveEvidence, ParCheck, CredentialEffect;
    if a.BeginCredential? {
      CredentialRegion(cfg, s.v, a.credentialRequest, a.dpop, a.now);
      CredentialLedgers(s.v, CheckCredential(cfg, s.v, a.credentialRequest, a.dpop, a.now));
    } else if a.EndSubmission? && a.task in s.tasks && s.tasks[a.task].EvidenceHeld? {
      SubmissionRegion(cfg, s.v, s.tasks[a.task].session, s.tasks[a.task].snapshot, a.evidence, s.tasks[a.task].now);
    }
  }

  lemma CodeAdded(cfg: Config, s: System, a: Action)
    requires a.EndAuthorize?
    ensures CodesAdvance(Draws(a), s.v.codes, EffectOf(cfg, s, a).v.codes)
  {
  }

  lemma StepCodes(cfg: Config, s: System, a: Action)
    ensures CodesAdvance(Draws(a), s.v.codes, EffectOf(cfg, s, a).v.codes)
  {
    hide EffectOf;
    if a.Token? {
      CompositeRegions(cfg, s, a);
    } else if a.EndAuthorize? {
      CodeAdded(cfg, s, a);
    } else {
      CodesKept(cfg, s, a);
    }
  }

  lemma StepTokens(cfg: Config, s: System, a: Action)
    ensures var w := EffectOf(cfg, s, a).v; TokensAdvance(Draws(a), s.v.tokens, w.tokens)
  {
    hide CheckCredential, ResolveEvidence, RedeemCode;
    CompositeRegions(cfg, s, a);
  }

  lemma StepNonces(cfg: Config, s: System, a: Action)
    ensures var w := EffectOf(cfg, s, a).v; NoncesAdvance(Draws(a), s.v.nonces, w.nonces)
  {
    hide CheckCredential, ResolveEvidence, RedeemCode, CodesAdvance, TokensAdvance, ParCheck;
    CompositeRegions(cfg, s, a);
  }

  lemma StepLedgers(cfg: Config, s: System, a: Action)
    ensures var w := EffectOf(cfg, s, a).v; s.v.dpopJtis <= w.dpopJtis && s.v.bindingJtis <= w.bindingJtis
  {
    hide CheckCredential, ResolveEvidence, RedeemCode;
    CompositeRegions(cfg, s, a);
  }

  lemma StepSessions(cfg: Config, s: System, a: Action)
    ensures s.v.tlsnSessions <= EffectOf(cfg, s, a).v.tlsnSessions
  {
    hide CheckCredential, ResolveEvidence, RedeemCode;
    CompositeRegions(cfg, s, a);
  }

  lemma StepAdvances(cfg: Config, s: System, a: Action)
    ensures Advances(Draws(a), s.v, EffectOf(cfg, s, a).v)
  {
    hide EffectOf;
    StepPushed(cfg, s, a);
    StepCodes(cfg, s, a);
    StepTokens(cfg, s, a);
    StepNonces(cfg, s, a);
    StepLedgers(cfg, s, a);
    StepSessions(cfg, s, a);
  }

  /** A request_uri is held only once it has left its table, and a nonce only by the request that used it. */
  predicate Took(v: Volatile, w: Volatile, t: Task) {
    match t
    case AuthorizeHeld(uri, _) => uri in v.pushed && uri !in w.pushed
    case CredentialHeld(g) => g.nonce in v.nonces && !v.nonces[g.nonce] && g.nonce in w.nonces && w.nonces[g.nonce]
    case _ => true
  }

  ghost predicate TasksAdvance(s: System, e: Effect) {
    && (forall k :: k in e.tasks && k in s.tasks ==> e.tasks[k] == s.tasks[k])
    && (forall k :: k in e.tasks && k !in s.tasks ==> Took(s.v, e.v, e.tasks[k]))
    && (forall j, k :: j in e.tasks && k in e.tasks && j !in s.tasks && k !in s.tasks ==> j == k)
  }

  lemma StepTasks(cfg: Config, s: System, a: Action)
    requires Legal(s, a)
    ensures TasksAdvance(s, EffectOf(cfg, s, a))
  {
    hide CheckCredential, ResolveEvidence, RedeemCode, CredentialEffect, Scopes.Words;
    if a.BeginCredential? {
      CredentialRegion(cfg, s.v, a.credentialRequest, a.dpop, a.now);
      CredentialLedgers(s.v, CheckCredential(cfg, s.v, a.credentialRequest, a.dpop, a.now));
    }
  }

  lemma StepKeys(cfg: Config, s: System, a: Action)
    requires KeysDrawn(s)
    ensures KeysDrawn(Apply(cfg, s, a))
  {
    hide EffectOf;
    StepAdvances(cfg, s, a);
  }

  lemma StepHolds(cfg: Config, s: System, a: Action)
    requires KeysDrawn(s) && HoldsApart(s) && Legal(s, a)
    ensures HoldsApart(Apply(cfg, s, a))
  {
    hide EffectOf;
    StepAdvances(cfg, s, a);
    StepTasks(cfg, s, a);
  }

  /** What is used up stays used up. */
  lemma StepSpent(cfg: Config, s: System, a: Action, e: Event)
    requires Guarded(s) && Legal(s, a) && Spent(s, e)
    ensures Spent(Apply(cfg, s, a), e)
  {
    hide EffectOf, AllSpent, OnceOnly;
    StepAdvances(cfg, s, a);
    StepTasks(cfg, s, a);
  }

  lemma CredentialFits(cfg: Config, s: System, a: Action)
    requires Guarded(s) && Legal(s, a) && a.BeginCredential?
    ensures LogFits(s, a, Apply(cfg, s, a), EffectOf(cfg, s, a).log)
  {
    hide CheckCredential, CredentialEffect, Scopes.Words, AllSpent;
    var o := CheckCredential(cfg, s.v, a.credentialRequest, a.dpop, a.now);
    CredentialRegion(cfg, s.v, a.credentialRequest, a.dpop, a.now);
    CredentialLedgers(s.v, o);
    forall k: nat | k < |o.log|
      ensures Unspent(s, a, o.log[k]) && Spent(Apply(cfg, s, a), o.log[k])
    {
      CredentialEvents(s.v, o, k);
    }
    forall i, j | 0 <= i < j < |o.log|
      ensures !Clash(o.log[i], o.log[j])
    {
      CredentialEvents(s.v, o, i);
      CredentialEvents(s.v, o, j);
    }
  }

  lemma SubmissionFits(cfg: Config, s: System, a: Action)
    requires Guarded(s) && Legal(s, a) && a.EndSubmission?
    ensures LogFits(s, a, Apply(cfg, s, a), EffectOf(cfg, s, a).log)
  {
    hide ResolveEvidence, AllSpent;
    if a.task in s.tasks && s.tasks[a.task].EvidenceHeld? {
      SubmissionRegion(cfg, s.v, s.tasks[a.task].session, s.tasks[a.task].snapshot, a.evidence, s.tasks[a.task].now);
    }
  }

  lemma CodeFits(cfg: Config, s: System, a: Action)
    requires Guarded(s) && Legal(s, a) && a.EndAuthorize?
    ensures LogFits(s, a, Apply(cfg, s, a), EffectOf(cfg, s, a).log)
  {
    hide AllSpent;
  }

  lemma IssueFits(cfg: Config, s: System, a: Action)
    requires Guarded(s) && Legal(s, a) && a.EndCredential?
    ensures LogFits(s, a, Apply(cfg, s, a), EffectOf(cfg, s, a).log)
  {
    hide AllSpent, HasEncoder;
  }

  lemma RedeemFits(cfg: Config, s: System, a: Action)
    requires Guarded(s) && Legal(s, a) && a.Token?
    ensures LogFits(s, a, Apply(cfg, s, a), EffectOf(cfg, s, a).log)
  {
    hide AllSpent, RedeemCode;
    RedeemRegion(cfg, s.v, a.tokenRequest, a.dpop, a.token);
  }

  lemma StepFits(cfg: Config, s: System, a: Action)
    requires Guarded(s) && Legal(s, a)
    ensures LogFits(s, a, Apply(cfg, s, a), EffectOf(cfg, s, a).log)
  {
    hide CheckCredential, ResolveEvidence, RedeemCode, Guarded, Scopes.Words;
    match a
    case BeginCredential(_, _, _, _) => CredentialFits(cfg, s, a);
    case EndSubmission(_, _) => SubmissionFits(cfg, s, a);
    case EndAuthorize(_, _) => CodeFits(cfg, s, a);
    case EndCredential(_, _) => IssueFits(cfg, s, a);
    case Token(_, _, _) => RedeemFits(cfg, s, a);
    case _ =>
  }

  lemma StepGuarded(cfg: Config, s: System, a: Action)
    requires Guarded(s) && Legal(s, a)
    ensures Guarded(Apply(cfg, s, a))
  {
    hide EffectOf, KeysDrawn, HoldsApart;
    var t, log := Apply(cfg, s, a), EffectOf(cfg, s, a).log;
    StepKeys(cfg, s, a);
    StepHolds(cfg, s, a);
    StepFits(cfg, s, a);
    OnceOnlyAppend(s, a, t, log);
    forall e | e in t.history
      ensures Spent(t, e)
    {
      if e in s.history {
        StepSpent(cfg, s, a, e);
      }
    }
  }

  /** In every legal run: a request_uri gives at most one code, a code at most one token, a nonce at most one
      grant and one credential, a DPoP proof is taken at most once over both endpoints, and an attestation at
      most once over the presented PID, the chip read and the capture. */
  lemma {:induction false} SingleUse(cfg: Config, actions: seq<Action>)
    requires LegalRun(cfg, START, actions)
    ensures OnceOnly(Run(cfg, START, actions).history)
  {
    RunGuarded(cfg, actions);
  }

  lemma {:induction false} RunGuarded(cfg: Config, actions: seq<Action>)
    requires LegalRun(cfg, START, actions)
    ensures Guarded(Run(cfg, START, actions))
    decreases |actions|
  {
    hide EffectOf;
    if actions != [] {
      RunGuarded(cfg, actions[..|actions| - 1]);
      StepGuarded(cfg, Run(cfg, START, actions[..|actions| - 1]), actions[|actions| - 1]);
    }
  }

  // ---- The ledgers only grow ----

  /** Nothing recorded in `v` is undone in `w`: a code changes only by being consumed, a nonce by being used. */
  ghost predicate Kept(v: Volatile, w: Volatile) {
    && (forall c :: c in v.codes ==>
          c in w.codes && w.codes[c] == v.codes[c].(consumed := v.codes[c].consumed || w.codes[c].consumed))
    && (forall k :: k in v.tokens ==> k in w.tokens && w.tokens[k] == v.tokens[k])
    && (forall n :: n in v.nonces ==> n in w.nonces && (v.nonces[n] ==> w.nonces[n]))
    && v.dpopJtis <= w.dpopJtis && v.bindingJtis <= w.bindingJtis && v.tlsnSessions <= w.tlsnSessions
  }

  lemma {:induction false} LedgersOnlyGrow(cfg: Config, actions: seq<Action>, n: nat)
    requires LegalRun(cfg, START, actions) && n <= |actions|
    ensures Kept(Run(cfg, START, actions[..n]).v, Run(cfg, START, actions).v)
    decreases |actions|
  {
    hide EffectOf, AllSpent, OnceOnly, HoldsApart;
    if n == |actions| {
      assert actions[..n] == actions;
    } else {
      var shorter := actions[..|actions| - 1];
      assert shorter[..n] == actions[..n];
      LedgersOnlyGrow(cfg, shorter, n);
      RunGuarded(cfg, shorter);
      StepAdvances(cfg, Run(cfg, START, shorter), actions[|actions| - 1]);
    }
  }
}
