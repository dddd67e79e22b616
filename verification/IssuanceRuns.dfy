// What stands behind a credential from the credential endpoint, in every interleaving.

module IssuanceRuns {
  import opened Prelude
  import opened Scopes
  import opened Profiles
  import opened Service
  import opened ServiceRuns

  // ---- Each event needs earlier ones ----

  /** The code was made from a pushed request with the client, redirect, scope and challenge that the redemption
      matched. */
  predicate Redeems(cfg: Config, p: PushedAuthorization, r: TokenRequest, access: AccessToken) {
    && p.clientId == r.clientId
    && p.redirectUri == r.redirectUri
    && p.codeChallenge == cfg.s256(r.codeVerifier)
    && p.scope == access.scope
    && p.tlsnEvidence == access.tlsnEvidence
  }

  ghost predicate CodeBacked(h: seq<Event>, code: string, c: AuthorizationCode) {
    exists uri, p :: EvCode(uri, code, p) in h && c == CodeFor(p, c.consumed)
  }

  ghost predicate RedemptionBacked(cfg: Config, h: seq<Event>, code: string, r: TokenRequest, access: AccessToken) {
    exists uri, p :: EvCode(uri, code, p) in h && Redeems(cfg, p, r, access)
  }

  ghost predicate TokenBacked(h: seq<Event>, token: string, access: AccessToken) {
    exists code, r :: EvToken(code, token, r, access) in h
  }

  ghost predicate GrantBacked(cfg: Config, h: seq<Event>, g: Granted) {
    EvNonce(g.nonce) in h && exists code, r, access ::
      EvToken(code, g.token, r, access) in h && TokenCovers(cfg, access, g)
  }

  /** What the history `h` must hold before `e` can happen. */
  ghost predicate Justified(cfg: Config, h: seq<Event>, e: Event) {
    match e
    case EvPushed(_, p) => ValidScope(cfg, p.scope)
    case EvCode(uri, _, p) => EvPushed(uri, p) in h
    case EvToken(code, _, r, access) => RedemptionBacked(cfg, h, code, r, access)
    case EvGranted(g) => GrantBacked(cfg, h, g) && EvidenceFits(cfg, g)
    case EvIssued(g) => EvGranted(g) in h && HasEncoder(cfg, cfg.classify(g.configurationId))
    case _ => true
  }

  ghost predicate Chained(cfg: Config, h: seq<Event>) {
    forall i: nat | i < |h| :: Justified(cfg, h[..i], h[i])
  }

  lemma JustifiedLater(cfg: Config, h: seq<Event>, log: seq<Event>, e: Event)
    requires Justified(cfg, h, e)
    ensures Justified(cfg, h + log, e)
  {
    match e
    case EvToken(code, _, r, access) =>
      var uri, p :| EvCode(uri, code, p) in h && Redeems(cfg, p, r, access);
      assert EvCode(uri, code, p) in h + log;
    case EvGranted(g) =>
      var code, r, access :| EvToken(code, g.token, r, access) in h && TokenCovers(cfg, access, g);
      assert EvToken(code, g.token, r, access) in h + log;
    case _ =>
  }

  lemma ChainedAppend(cfg: Config, h: seq<Event>, log: seq<Event>)
    requires Chained(cfg, h)
    requires forall e :: e in log ==> Justified(cfg, h, e)
    ensures Chained(cfg, h + log)
  {
    var all := h + log;
    forall i: nat | i < |all|
      ensures Justified(cfg, all[..i], all[i])
    {
      if i < |h| {
        assert all[..i] == h[..i];
      } else {
        assert all[..i] == h + log[..i - |h|];
        assert all[i] in log;
        JustifiedLater(cfg, h, log[..i - |h|], all[i]);
      }
    }
  }

  // ---- The tables hold only what happened ----

  ghost predicate TaskBacked(cfg: Config, h: seq<Event>, t: Task) {
    match t
    case ParHeld(p) => ValidScope(cfg, p.scope)
    case AuthorizeHeld(uri, p) => EvPushed(uri, p) in h
    case CredentialHeld(g) => EvGranted(g) in h
    case EvidenceHeld(_, _, _) => true
  }

  ghost predicate TablesBacked(h: seq<Event>, v: Volatile) {
    && (forall uri :: uri in v.pushed ==> EvPushed(uri, v.pushed[uri]) in h)
    && (forall code :: code in v.codes ==> CodeBacked(h, code, v.codes[code]))
    && (forall token :: token in v.tokens ==> TokenBacked(h, token, v.tokens[token]))
    && (forall nonce :: nonce in v.nonces ==> EvNonce(nonce) in h)
  }

  ghost predicate TasksBacked(cfg: Config, h: seq<Event>, tasks: map<nat, Task>) {
    forall t :: t in tasks ==> TaskBacked(cfg, h, tasks[t])
  }

  ghost predicate Backed(cfg: Config, s: System) {
    TablesBacked(s.history, s.v) && TasksBacked(cfg, s.history, s.tasks) && Chained(cfg, s.history)
  }

  lemma TablesLater(h: seq<Event>, log: seq<Event>, v: Volatile)
    requires TablesBacked(h, v)
    ensures TablesBacked(h + log, v)
  {
    forall code | code in v.codes
      ensures CodeBacked(h + log, code, v.codes[code])
    {
      var uri, p :| EvCode(uri, code, p) in h && v.codes[code] == CodeFor(p, v.codes[code].consumed);
      assert EvCode(uri, code, p) in h + log;
    }
    forall token | token in v.tokens
      ensures TokenBacked(h + log, token, v.tokens[token])
    {
      var code, r :| EvToken(code, token, r, v.tokens[token]) in h;
      assert EvToken(code, token, r, v.tokens[token]) in h + log;
    }
  }

  lemma TasksLater(cfg: Config, h: seq<Event>, log: seq<Event>, tasks: map<nat, Task>)
    requires TasksBacked(cfg, h, tasks)
    ensures TasksBacked(cfg, h + log, tasks)
  {
  }

  // ---- Step by step ----

  lemma RedeemJustified(cfg: Config, s: System, r: TokenRequest, dpop: VerifiedDpop, token: string)
    requires Backed(cfg, s)
    ensures forall e :: e in RedeemCode(cfg, s.v, r, dpop, token).log ==> Justified(cfg, s.history, e)
  {
    hide RedeemCode;
    RedeemRegion(cfg, s.v, r, dpop, token);
    var o := RedeemCode(cfg, s.v, r, dpop, token);
    if o.result.Ok? {
      var c := s.v.codes[r.code];
      var uri, p :| EvCode(uri, r.code, p) in s.history && c == CodeFor(p, c.consumed);
      assert Redeems(cfg, p, r, AccessToken(c.scope, dpop.jkt, c.tlsnEvidence));
    }
  }

  lemma TablesUpdated(h: seq<Event>, v: Volatile, w: Volatile, code: string, c: AuthorizationCode,
                      token: string, access: AccessToken)
    requires TablesBacked(h, v) && CodeBacked(h, code, c) && TokenBacked(h, token, access)
    requires w.pushed == v.pushed && w.nonces == v.nonces
    requires w.codes == v.codes[code := c] && w.tokens == v.tokens[token := access]
    ensures TablesBacked(h, w)
  {
    hide CodeBacked, TokenBacked;
  }

  /** A redemption stores one token, logs it, and marks the code. */
  lemma RedeemTables(cfg: Config, s: System, r: TokenRequest, dpop: VerifiedDpop, token: string)
    requires Backed(cfg, s)
    ensures var o := RedeemCode(cfg, s.v, r, dpop, token); TablesBacked(s.history + o.log, o.state)
  {
    hide RedeemCode, Chained, TasksBacked, CodeBacked, CodeMatches;
    RedeemRegion(cfg, s.v, r, dpop, token);
    var h, o := s.history, RedeemCode(cfg, s.v, r, dpop, token);
    TablesLater(h, o.log, s.v);
    if o.result.Ok? {
      var c := s.v.codes[r.code];
      CodeMarked(h + o.log, r.code, c);
      assert o.log[1] in h + o.log;
      TablesUpdated(h + o.log, s.v, o.state, r.code, c.(consumed := true), token, o.state.tokens[token]);
    }
  }

  lemma CodeMarked(h: seq<Event>, code: string, c: AuthorizationCode)
    requires CodeBacked(h, code, c)
    ensures CodeBacked(h, code, c.(consumed := true))
  {
    var uri, p :| EvCode(uri, code, p) in h && c == CodeFor(p, c.consumed);
    assert c.(consumed := true) == CodeFor(p, true);
  }

  lemma CredentialBacked(cfg: Config, s: System, r: CredentialRequest, dpop: VerifiedDpop, now: u64)
    requires Backed(cfg, s)
    ensures
      var o := CheckCredential(cfg, s.v, r, dpop, now);
      && (forall e :: e in o.log ==> Justified(cfg, s.history, e))
      && TablesBacked(s.history + o.log, o.state)
  {
    hide CheckCredential, CredentialEffect, TokenCovers;
    var h, o := s.history, CheckCredential(cfg, s.v, r, dpop, now);
    CredentialRegion(cfg, s.v, r, dpop, now);
    CredentialLedgers(s.v, o);
    TablesLater(h, o.log, s.v);
    if o.result.Ok? {
      var g := o.result.value;
      var code, q :| EvToken(code, g.token, q, s.v.tokens[g.token]) in h;
      assert GrantBacked(cfg, h, g);
    }
    forall k: nat | k < |o.log|
      ensures Justified(cfg, h, o.log[k])
    {
      CredentialEvents(s.v, o, k);
    }
  }

  lemma AuthorizeCodeBacked(cfg: Config, s: System, code: string, uri: string, p: PushedAuthorization)
    requires Backed(cfg, s) && EvPushed(uri, p) in s.history
    ensures
      var o := StoreCode(s.v, code, uri, p);
      && (forall e :: e in o.log ==> Justified(cfg, s.history, e))
      && TablesBacked(s.history + o.log, o.state)
  {
    var o := StoreCode(s.v, code, uri, p);
    TablesLater(s.history, o.log, s.v);
    assert EvCode(uri, code, p) in s.history + o.log;
    assert CodeBacked(s.history + o.log, code, CodeFor(p, false));
  }

  lemma StepJustified(cfg: Config, s: System, a: Action)
    requires Backed(cfg, s)
    ensures forall x :: x in EffectOf(cfg, s, a).log ==> Justified(cfg, s.history, x)
  {
    hide CheckCredential, ResolveEvidence, RedeemCode, Words, TablesBacked;
    match a
    case Token(r, dpop, token) =>
      RedeemJustified(cfg, s, r, dpop, token);
    case BeginCredential(_, r, dpop, now) =>
      CredentialBacked(cfg, s, r, dpop, now);
    case EndSubmission(task, evidence) =>
      if task in s.tasks && s.tasks[task].EvidenceHeld? {
        SubmissionRegion(cfg, s.v, s.tasks[task].session, s.tasks[task].snapshot, evidence, s.tasks[task].now);
      }
    case _ =>
  }

  lemma StepTables(cfg: Config, s: System, a: Action)
    requires Backed(cfg, s)
    ensures var e := EffectOf(cfg, s, a); TablesBacked(s.history + e.log, e.v)
  {
    hide CheckCredential, ResolveEvidence, RedeemCode, CredentialEffect, Words, Justified;
    TablesLater(s.history, EffectOf(cfg, s, a).log, s.v);
    match a
    case EndAuthorize(task, code) =>
      if task in s.tasks && s.tasks[task].AuthorizeHeld? {
        AuthorizeCodeBacked(cfg, s, code, s.tasks[task].uri, s.tasks[task].pushed);
      }
    case Token(r, dpop, token) =>
      RedeemTables(cfg, s, r, dpop, token);
    case BeginCredential(_, r, dpop, now) =>
      CredentialBacked(cfg, s, r, dpop, now);
    case EndSubmission(task, evidence) =>
      if task in s.tasks && s.tasks[task].EvidenceHeld? {
        SubmissionRegion(cfg, s.v, s.tasks[task].session, s.tasks[task].snapshot, evidence, s.tasks[task].now);
      }
    case _ =>
  }

  lemma StepTasks(cfg: Config, s: System, a: Action)
    requires Backed(cfg, s)
    ensures var e := EffectOf(cfg, s, a); TasksBacked(cfg, s.history + e.log, e.tasks)
  {
    hide CheckCredential, ResolveEvidence, RedeemCode, CredentialEffect, Words;
    var e := EffectOf(cfg, s, a);
    TasksLater(cfg, s.history, e.log, s.tasks);
    if a.BeginCredential? {
      CredentialRegion(cfg, s.v, a.credentialRequest, a.dpop, a.now);
      CredentialLedgers(s.v, CheckCredential(cfg, s.v, a.credentialRequest, a.dpop, a.now));
    }
  }

  lemma StepBacked(cfg: Config, s: System, a: Action)
    requires Backed(cfg, s)
    ensures Backed(cfg, Apply(cfg, s, a))
  {
    hide EffectOf;
    StepJustified(cfg, s, a);
    StepTables(cfg, s, a);
    StepTasks(cfg, s, a);
    ChainedAppend(cfg, s.history, EffectOf(cfg, s, a).log);
  }

  lemma {:induction false} RunBacked(cfg: Config, actions: seq<Action>)
    ensures Backed(cfg, Run(cfg, START, actions))
    decreases |actions|
  {
    hide EffectOf;
    if actions != [] {
      RunBacked(cfg, actions[..|actions| - 1]);
      StepBacked(cfg, Run(cfg, START, actions[..|actions| - 1]), actions[|actions| - 1]);
    }
  }

  // ---- The whole chain ----

  /** Where in the history the steps behind an issuance are, and what they were. */
  datatype Chain = Chain(
    pushedAt: nat, codeAt: nat, tokenAt: nat, nonceAt: nat, grantedAt: nat,
    uri: string, pushed: PushedAuthorization, code: string, request: TokenRequest, access: AccessToken)

  ghost predicate Behind(cfg: Config, h: seq<Event>, i: nat, g: Granted, c: Chain) {
    && c.pushedAt < c.codeAt < c.tokenAt < c.grantedAt < i <= |h|
    && c.nonceAt < c.grantedAt
    && h[c.pushedAt] == EvPushed(c.uri, c.pushed) && ValidScope(cfg, c.pushed.scope)
    && h[c.codeAt] == EvCode(c.uri, c.code, c.pushed)
    && h[c.tokenAt] == EvToken(c.code, g.token, c.request, c.access) && Redeems(cfg, c.pushed, c.request, c.access)
    && h[c.nonceAt] == EvNonce(g.nonce)
    && h[c.grantedAt] == EvGranted(g) && TokenCovers(cfg, c.access, g)
  }

  lemma CodeBehind(cfg: Config, h: seq<Event>, t: nat) returns (b: nat, k: nat, uri: string, p: PushedAuthorization)
    requires Chained(cfg, h) && t < |h| && h[t].EvToken?
    ensures b < k < t && h[b] == EvPushed(uri, p) && h[k] == EvCode(uri, h[t].code, p)
    ensures ValidScope(cfg, p.scope) && Redeems(cfg, p, h[t].request, h[t].access)
  {
    hide ValidScope, Redeems;
    assert Justified(cfg, h[..t], h[t]);
    uri, p :| EvCode(uri, h[t].code, p) in h[..t] && Redeems(cfg, p, h[t].request, h[t].access);
    k :| 0 <= k < t && h[k] == EvCode(uri, h[t].code, p);
    assert Justified(cfg, h[..k], h[k]);
    b :| 0 <= b < k && h[b] == EvPushed(uri, p);
    assert Justified(cfg, h[..b], h[b]);
  }

  lemma TokenBehind(cfg: Config, h: seq<Event>, d: nat) returns (t: nat, n: nat)
    requires Chained(cfg, h) && d < |h| && h[d].EvGranted?
    ensures t < d && n < d && h[n] == EvNonce(h[d].grant.nonce)
    ensures h[t].EvToken? && h[t].token == h[d].grant.token && TokenCovers(cfg, h[t].access, h[d].grant)
    ensures EvidenceFits(cfg, h[d].grant)
  {
    hide TokenCovers, EvidenceFits;
    var g := h[d].grant;
    assert Justified(cfg, h[..d], h[d]);
    n :| 0 <= n < d && h[n] == EvNonce(g.nonce);
    var code, r, access :| EvToken(code, g.token, r, access) in h[..d] && TokenCovers(cfg, access, g);
    t :| 0 <= t < d && h[t] == EvToken(code, g.token, r, access);
  }

  lemma GrantBehind(cfg: Config, h: seq<Event>, i: nat) returns (d: nat)
    requires Chained(cfg, h) && i < |h| && h[i].EvIssued?
    ensures d < i && h[d] == EvGranted(h[i].grant) && HasEncoder(cfg, cfg.classify(h[i].grant.configurationId))
  {
    hide HasEncoder, GrantBacked;
    assert Justified(cfg, h[..i], h[i]);
    d :| 0 <= d < i && h[d] == EvGranted(h[i].grant);
  }

  /** In every run, each credential the endpoint issues has behind it, in this order, a pushed request for
      an allowed scope that names the configuration, its code, a redemption of that code by the same client
      and redirect with a verifier of the pushed challenge, for a token of the holder's key, and a grant on
      that token and an issued nonce. */
  lemma {:induction false} IssuanceHasChain(cfg: Config, actions: seq<Action>, i: nat)
    requires i < |Run(cfg, START, actions).history| && Run(cfg, START, actions).history[i].EvIssued?
    ensures
      var h := Run(cfg, START, actions).history;
      exists c :: Behind(cfg, h, i, h[i].grant, c)
  {
    hide Run, EffectOf;
    RunBacked(cfg, actions);
    var h := Run(cfg, START, actions).history;
    var d := GrantBehind(cfg, h, i);
    var t, n := TokenBehind(cfg, h, d);
    var b, k, uri, p := CodeBehind(cfg, h, t);
    assert Behind(cfg, h, i, h[i].grant, Chain(b, k, t, n, d, uri, p, h[t].code, h[t].request, h[t].access));
  }

  /** A configuration identifier that scopes may name: listed, not the chip-read mdoc, and hybrid only where enabled. */
  predicate Listed(cfg: Config, word: string) {
    && !cfg.classify(word).Unlisted? && !cfg.classify(word).PidFromEmrtdMdoc?
    && (cfg.classify(word).HybridPqSdJwt? ==> cfg.hybridPqEnabled)
  }

  /** A word of an allowed scope, with a trusted reader if it is read from a chip. */
  predicate Grantable(cfg: Config, name: string) {
    && name != "" && (forall i :: 0 <= i < |name| ==> !IsAsciiSpace(name[i]))
    && Listed(cfg, name)
    && (cfg.classify(name).PidFromEmrtdSdJwt? ==> cfg.readerConfigured)
  }

  predicate Issuable(cfg: Config, name: string) {
    Grantable(cfg, name) && !cfg.classify(name).DevSvipePidSdJwt?
  }

  /** Of the configurations that are granted, the Svipe PID alone has no encoder. */
  lemma OnlySvipeLacksEncoder(cfg: Config, name: string)
    ensures Grantable(cfg, name) && !HasEncoder(cfg, cfg.classify(name)) <==>
            Grantable(cfg, name) && cfg.classify(name).DevSvipePidSdJwt?
  {
  }

  lemma CoveredIsAllowed(cfg: Config, p: PushedAuthorization, r: TokenRequest, access: AccessToken, g: Granted)
    requires ValidScope(cfg, p.scope) && Redeems(cfg, p, r, access) && TokenCovers(cfg, access, g)
        && EvidenceFits(cfg, g)
    ensures Grantable(cfg, g.configurationId)
  {
    hide Words;
    assert g.configurationId in Words(p.scope);
    WordsHaveNoSpace(p.scope, g.configurationId);
  }

  /** In every run, only a grantable configuration is granted. */
  lemma {:induction false} GrantedIsAllowed(cfg: Config, actions: seq<Action>, d: nat)
    requires d < |Run(cfg, START, actions).history| && Run(cfg, START, actions).history[d].EvGranted?
    ensures Grantable(cfg, Run(cfg, START, actions).history[d].grant.configurationId)
  {
    hide Run, EffectOf, Redeems, TokenCovers, EvidenceFits, ValidScope, Grantable;
    RunBacked(cfg, actions);
    var h := Run(cfg, START, actions).history;
    var t, _ := TokenBehind(cfg, h, d);
    var _, _, _, p := CodeBehind(cfg, h, t);
    CoveredIsAllowed(cfg, p, h[t].request, h[t].access, h[d].grant);
  }

  /** Hence the chip-read PID in its mdoc form, the Svipe PID and any identifier off the list never come from this
      endpoint. */
  lemma {:induction false} IssuedIsAllowed(cfg: Config, actions: seq<Action>, i: nat)
    requires i < |Run(cfg, START, actions).history| && Run(cfg, START, actions).history[i].EvIssued?
    ensures
      var name := Run(cfg, START, actions).history[i].grant.configurationId;
      var p := cfg.classify(name);
      && Issuable(cfg, name)
      && !p.PidFromEmrtdMdoc? && !p.Unlisted? && !p.DevSvipePidSdJwt?
  {
    hide Run, EffectOf;
    RunBacked(cfg, actions);
    var h := Run(cfg, START, actions).history;
    var d := GrantBehind(cfg, h, i);
    GrantedIsAllowed(cfg, actions, d);
  }

  /** The end of a held request issues its grant exactly if its configuration has an encoder and signing works. */
  lemma HeldGrantIssues(cfg: Config, s: System, task: nat, signs: bool)
    requires task in s.tasks && s.tasks[task].CredentialHeld?
    ensures
      var g := s.tasks[task].grant;
      EffectOf(cfg, s, EndCredential(task, signs)).log ==
      if HasEncoder(cfg, cfg.classify(g.configurationId)) && signs then [EvIssued(g)] else []
  {
    hide HasEncoder;
  }
}
