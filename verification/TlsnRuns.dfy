// Where TLSNotary evidence on a request, a code, a token or a grant comes from.

module TlsnRuns {
  import opened Prelude
  import opened Scopes
  import opened Profiles
  import opened Service
  import opened ServiceRuns
  import IssuanceRuns
  import ReplayRuns

  /** The table of identifiers gives the TLSNotary identifier to the TLSNotary profile, and to no other identifier. */
  ghost predicate Sensible(cfg: Config) {
    forall name :: cfg.classify(name).TlsnEvidenceSdJwt? <==> name == cfg.tlsnName
  }

  // ---- The offers ----

  ghost predicate OffersByProfile(cfg: Config, offers: map<string, CredentialOffer>) {
    forall id :: id in offers ==> (offers[id].tlsnEvidence.Some? <==> offers[id].profile == cfg.tlsnName)
  }

  /** Two offers never carry evidence of one session, nor share an issuer state. */
  ghost predicate OffersApart(offers: map<string, CredentialOffer>) {
    forall id, id' :: id in offers && id' in offers && id != id' ==>
      && offers[id].issuerState != offers[id'].issuerState
      && (offers[id].tlsnEvidence.Some? && offers[id'].tlsnEvidence.Some? ==>
            offers[id].tlsnEvidence.value.sessionId != offers[id'].tlsnEvidence.value.sessionId)
  }

  ghost predicate SessionOffered(offers: map<string, CredentialOffer>, session: string) {
    exists id :: id in offers && offers[id].tlsnEvidence.Some? && offers[id].tlsnEvidence.value.sessionId == session
  }

  /** The reserved sessions are exactly those of the offers that carry evidence. */
  ghost predicate ReservedExactly(offers: map<string, CredentialOffer>, sessions: set<string>) {
    && (forall id :: id in offers && offers[id].tlsnEvidence.Some? ==>
          offers[id].tlsnEvidence.value.sessionId in sessions)
    && (forall session :: session in sessions ==> SessionOffered(offers, session))
  }

  ghost predicate StatesDrawn(offers: map<string, CredentialOffer>, drawn: set<string>) {
    forall id :: id in offers ==> id in drawn && offers[id].issuerState in drawn
  }

  ghost predicate OffersInOrder(cfg: Config, s: System) {
    && OffersByProfile(cfg, s.v.offers) && OffersApart(s.v.offers)
    && ReservedExactly(s.v.offers, s.v.tlsnSessions) && StatesDrawn(s.v.offers, s.drawn)
  }

  // ---- The evidence carried on ----

  /** If there is evidence, some TLSNotary offer carries that evidence and the scope names its profile. */
  ghost predicate FromOffer(cfg: Config, offers: map<string, CredentialOffer>, evidence: Option<TlsnEvidence>,
                            scope: string)
  {
    evidence.Some? ==>
      cfg.tlsnName in Words(scope) && exists id :: id in offers && offers[id].tlsnEvidence == evidence
  }

  ghost predicate TaskFromOffer(cfg: Config, offers: map<string, CredentialOffer>, t: Task) {
    (t.ParHeld? || t.AuthorizeHeld?) ==> FromOffer(cfg, offers, t.pushed.tlsnEvidence, t.pushed.scope)
  }

  ghost predicate CarriedFromOffers(cfg: Config, v: Volatile, tasks: map<nat, Task>) {
    && (forall k :: k in v.pushed ==> FromOffer(cfg, v.offers, v.pushed[k].tlsnEvidence, v.pushed[k].scope))
    && (forall k :: k in v.codes ==> FromOffer(cfg, v.offers, v.codes[k].tlsnEvidence, v.codes[k].scope))
    && (forall k :: k in v.tokens ==> FromOffer(cfg, v.offers, v.tokens[k].tlsnEvidence, v.tokens[k].scope))
    && (forall t :: t in tasks ==> TaskFromOffer(cfg, v.offers, tasks[t]))
  }

  ghost predicate Provenance(cfg: Config, s: System) {
    OffersInOrder(cfg, s) && CarriedFromOffers(cfg, s.v, s.tasks)
  }

  // ---- Step by step ----

  /** Steps leave the offers alone, or add one under a drawn name. */
  lemma OffersKept(cfg: Config, s: System, a: Action)
    requires !a.Offer? && !a.OfferTlsn?
    ensures var v := EffectOf(cfg, s, a).v; v.offers == s.v.offers && v.tlsnSessions == s.v.tlsnSessions
  {
    hide CheckCredential, ResolveEvidence, RedeemCode, CredentialEffect;
    if a.Token? {
      RedeemRegion(cfg, s.v, a.tokenRequest, a.dpop, a.token);
    } else if a.BeginCredential? {
      CredentialRegion(cfg, s.v, a.credentialRequest, a.dpop, a.now);
      CredentialLedgers(s.v, CheckCredential(cfg, s.v, a.credentialRequest, a.dpop, a.now));
    } else if a.EndSubmission? && a.task in s.tasks && s.tasks[a.task].EvidenceHeld? {
      SubmissionRegion(cfg, s.v, s.tasks[a.task].session, s.tasks[a.task].snapshot, a.evidence, s.tasks[a.task].now);
    }
  }

  /** The step added no offer, or one under a fresh name and state, with its session if it has evidence. */
  ghost predicate OfferAdded(cfg: Config, v: Volatile, w: Volatile, id: string, issuerState: string) {
    || (w.offers == v.offers && w.tlsnSessions == v.tlsnSessions)
    || exists offer: CredentialOffer ::
         && w.offers == v.offers[id := offer] && offer.issuerState == issuerState
         && (match offer.tlsnEvidence
             case None => offer.profile != cfg.tlsnName && w.tlsnSessions == v.tlsnSessions
             case Some(e) => offer.profile == cfg.tlsnName && e.sessionId !in v.tlsnSessions
                             && w.tlsnSessions == v.tlsnSessions + {e.sessionId})
  }

  lemma OfferRegions(cfg: Config, s: System, a: Action)
    requires Sensible(cfg) && (a.Offer? || a.OfferTlsn?)
    ensures OfferAdded(cfg, s.v, EffectOf(cfg, s, a).v, a.id, a.issuerState)
    ensures EffectOf(cfg, s, a).log == [] && EffectOf(cfg, s, a).tasks == s.tasks
    ensures var w := EffectOf(cfg, s, a).v; w == s.v.(offers := w.offers, tlsnSessions := w.tlsnSessions)
  {
    hide ValidScope, VerifiedArtifact;
    var w := EffectOf(cfg, s, a).v;
    if a.Offer? && w != s.v {
      assert w.offers == s.v.offers[a.id := CredentialOffer(a.configurationId, a.issuerState,
                                                            SaturatingAdd(a.now, 300), None)];
    } else if a.OfferTlsn? && w != s.v {
      var e := VerifiedArtifact(a.artifact, a.now).value;
      assert w.offers == s.v.offers[a.id := CredentialOffer(cfg.tlsnName, a.issuerState, SaturatingAdd(a.now, 300),
                                                            Some(e))];
    }
  }

  lemma ReservedStep(cfg: Config, v: Volatile, w: Volatile, id: string, issuerState: string)
    requires ReservedExactly(v.offers, v.tlsnSessions) && OfferAdded(cfg, v, w, id, issuerState) && id !in v.offers
    ensures ReservedExactly(w.offers, w.tlsnSessions)
  {
    if w.offers != v.offers {
      forall session | session in w.tlsnSessions
        ensures SessionOffered(w.offers, session)
      {
        if session in v.tlsnSessions {
          var k :| k in v.offers && v.offers[k].tlsnEvidence.Some?
            && v.offers[k].tlsnEvidence.value.sessionId == session;
          assert w.offers[k] == v.offers[k];
        } else {
          assert w.offers[id].tlsnEvidence.Some?;
        }
      }
    }
  }

  lemma ApartStep(cfg: Config, v: Volatile, w: Volatile, drawn: set<string>, id: string, issuerState: string)
    requires OffersApart(v.offers) && ReservedExactly(v.offers, v.tlsnSessions) && StatesDrawn(v.offers, drawn)
    requires OfferAdded(cfg, v, w, id, issuerState) && id !in drawn && issuerState !in drawn
    ensures OffersApart(w.offers)
  {
    hide SessionOffered;
  }

  lemma OfferStep(cfg: Config, v: Volatile, w: Volatile, drawn: set<string>, id: string, issuerState: string)
    requires OffersByProfile(cfg, v.offers) && OffersApart(v.offers)
    requires ReservedExactly(v.offers, v.tlsnSessions) && StatesDrawn(v.offers, drawn)
    requires OfferAdded(cfg, v, w, id, issuerState) && id !in drawn && issuerState !in drawn
    ensures OffersByProfile(cfg, w.offers) && OffersApart(w.offers) && ReservedExactly(w.offers, w.tlsnSessions)
    ensures StatesDrawn(w.offers, drawn + {id, issuerState})
  {
    hide ReservedExactly, OffersApart;
    assert id !in v.offers;
    ReservedStep(cfg, v, w, id, issuerState);
    ApartStep(cfg, v, w, drawn, id, issuerState);
  }

  /** Evidence that came from an offer still does when offers are added. */
  lemma FromMoreOffers(cfg: Config, offers: map<string, CredentialOffer>, more: map<string, CredentialOffer>,
                       evidence: Option<TlsnEvidence>, scope: string)
    requires FromOffer(cfg, offers, evidence, scope)
    requires forall id :: id in offers ==> id in more && more[id] == offers[id]
    ensures FromOffer(cfg, more, evidence, scope)
  {
    if evidence.Some? {
      var id :| id in offers && offers[id].tlsnEvidence == evidence;
      assert more[id].tlsnEvidence == evidence;
    }
  }

  lemma CarriedOverOffers(cfg: Config, s: System, w: Volatile)
    requires Provenance(cfg, s) && w == s.v.(offers := w.offers, tlsnSessions := w.tlsnSessions)
    requires forall id :: id in s.v.offers ==> id in w.offers && w.offers[id] == s.v.offers[id]
    ensures CarriedFromOffers(cfg, w, s.tasks)
  {
    hide FromOffer;
    forall evidence, scope | FromOffer(cfg, s.v.offers, evidence, scope)
      ensures FromOffer(cfg, w.offers, evidence, scope)
    {
      FromMoreOffers(cfg, s.v.offers, w.offers, evidence, scope);
    }
  }

  lemma ParCarries(cfg: Config, s: System, r: ParRequest, which: Option<string>, now: u64)
    requires OffersInOrder(cfg, s)
    ensures
      var e := ParCheck(cfg, s.v, r, which, now);
      e.Ok? ==> FromOffer(cfg, s.v.offers, e.value, r.scope)
  {
  }

  lemma CarriedInComposite(cfg: Config, s: System, a: Action)
    requires Provenance(cfg, s) && (a.Token? || a.BeginCredential? || a.EndSubmission?)
    ensures CarriedFromOffers(cfg, EffectOf(cfg, s, a).v, map[])
  {
    hide CheckCredential, ResolveEvidence, RedeemCode, CredentialEffect, FromOffer, OffersInOrder, CodeMatches;
    match a
    case Token(r, dpop, token) =>
      RedeemRegion(cfg, s.v, r, dpop, token);
    case BeginCredential(_, r, dpop, now) =>
      CredentialRegion(cfg, s.v, r, dpop, now);
      CredentialLedgers(s.v, CheckCredential(cfg, s.v, r, dpop, now));
    case EndSubmission(task, evidence) =>
      if task in s.tasks && s.tasks[task].EvidenceHeld? {
        SubmissionRegion(cfg, s.v, s.tasks[task].session, s.tasks[task].snapshot, evidence, s.tasks[task].now);
      }
  }

  lemma CarriedInTables(cfg: Config, s: System, a: Action)
    requires Provenance(cfg, s) && !a.Offer? && !a.OfferTlsn?
    ensures CarriedFromOffers(cfg, EffectOf(cfg, s, a).v, map[])
  {
    hide CheckCredential, ResolveEvidence, RedeemCode, ParCheck, FromOffer, OffersInOrder;
    if a.Token? || a.BeginCredential? || a.EndSubmission? {
      CarriedInComposite(cfg, s, a);
    }
  }

  lemma CarriedInTasks(cfg: Config, s: System, a: Action)
    requires Provenance(cfg, s) && !a.Offer? && !a.OfferTlsn?
    ensures var e := EffectOf(cfg, s, a); forall t :: t in e.tasks ==> TaskFromOffer(cfg, s.v.offers, e.tasks[t])
  {
    hide CheckCredential, ResolveEvidence, RedeemCode, ParCheck, FromOffer, OffersInOrder;
    if a.BeginPar? {
      ParCarries(cfg, s, a.request, a.which, a.now);
    }
  }

  lemma StepProvenance(cfg: Config, s: System, a: Action)
    requires Sensible(cfg) && Provenance(cfg, s) && Legal(s, a)
    ensures Provenance(cfg, Apply(cfg, s, a))
  {
    hide EffectOf;
    var e := EffectOf(cfg, s, a);
    if a.Offer? || a.OfferTlsn? {
      OfferRegions(cfg, s, a);
      OfferStep(cfg, s.v, e.v, s.drawn, a.id, a.issuerState);
      CarriedOverOffers(cfg, s, e.v);
    } else {
      OffersKept(cfg, s, a);
      CarriedInTables(cfg, s, a);
      CarriedInTasks(cfg, s, a);
    }
  }

  /** In every legal run, an offer carries evidence exactly when it is for the TLSNotary profile, the reserved
      sessions are exactly those of such offers and no two share one, and evidence on a pushed request, a code, a
      token or a waiting request is some offer's evidence, under a scope that names the TLSNotary profile. */
  lemma {:induction false} RunProvenance(cfg: Config, actions: seq<Action>)
    requires Sensible(cfg) && LegalRun(cfg, START, actions)
    ensures Provenance(cfg, Run(cfg, START, actions))
    decreases |actions|
  {
    hide EffectOf;
    if actions != [] {
      RunProvenance(cfg, actions[..|actions| - 1]);
      StepProvenance(cfg, Run(cfg, START, actions[..|actions| - 1]), actions[|actions| - 1]);
    }
  }

  /** So a scan of the offers for an issuer state has one answer, however the table is walked. */
  lemma {:induction false} ScanHasOneAnswer(cfg: Config, actions: seq<Action>, issuerState: string,
                                            a: Option<string>, b: Option<string>)
    requires Sensible(cfg) && LegalRun(cfg, START, actions)
    requires ScanStops(Run(cfg, START, actions).v.offers, issuerState, a)
    requires ScanStops(Run(cfg, START, actions).v.offers, issuerState, b)
    ensures a == b
  {
    hide EffectOf, Run, LegalRun;
    RunProvenance(cfg, actions);
  }

  // ---- Evidence behind an issued credential ----

  lemma TokenOnce(h: seq<Event>, i: nat, j: nat)
    requires ReplayRuns.OnceOnly(h) && i < |h| && j < |h|
    requires h[i].EvToken? && h[j].EvToken? && h[i].token == h[j].token
    ensures i == j
  {
  }

  /** The table holds a token as the history says it was made. */
  lemma TokenRemembered(s: System, i: nat)
    requires IssuanceRuns.TablesBacked(s.history, s.v) && ReplayRuns.AllSpent(s) && ReplayRuns.OnceOnly(s.history)
    requires i < |s.history| && s.history[i].EvToken?
    ensures s.history[i].token in s.v.tokens && s.v.tokens[s.history[i].token] == s.history[i].access
  {
    hide ReplayRuns.OnceOnly;
    var token := s.history[i].token;
    assert ReplayRuns.Spent(s, s.history[i]);
    assert IssuanceRuns.TokenBacked(s.history, token, s.v.tokens[token]);
    var code, r :| EvToken(code, token, r, s.v.tokens[token]) in s.history;
    var j: nat :| j < |s.history| && s.history[j] == EvToken(code, token, r, s.v.tokens[token]);
    TokenOnce(s.history, i, j);
  }

  /** Every TLSNotary credential issued rests on evidence of a reserved session that some offer carries. */
  lemma {:induction false} TlsnCredentialHasEvidence(cfg: Config, actions: seq<Action>, i: nat)
    requires Sensible(cfg) && LegalRun(cfg, START, actions)
    requires i < |Run(cfg, START, actions).history| && Run(cfg, START, actions).history[i].EvIssued?
    requires Run(cfg, START, actions).history[i].grant.configurationId == cfg.tlsnName
    ensures
      var s := Run(cfg, START, actions);
      var g := s.history[i].grant;
      exists id :: && id in s.v.offers && s.v.offers[id].tlsnEvidence.Some?
                   && s.v.offers[id].tlsnEvidence.value.sessionId in s.v.tlsnSessions
                   && g.token in s.v.tokens && s.v.tokens[g.token].tlsnEvidence == s.v.offers[id].tlsnEvidence
  {
    hide EffectOf, Run, LegalRun, ReplayRuns.AllSpent, ReplayRuns.OnceOnly, OffersApart;
    var s := Run(cfg, START, actions);
    RunProvenance(cfg, actions);
    IssuanceRuns.RunBacked(cfg, actions);
    ReplayRuns.RunGuarded(cfg, actions);
    IssuanceRuns.IssuanceHasChain(cfg, actions, i);
    var g := s.history[i].grant;
    var c :| IssuanceRuns.Behind(cfg, s.history, i, g, c);
    TokenRemembered(s, c.tokenAt);
    assert FromOffer(cfg, s.v.offers, c.access.tlsnEvidence, c.access.scope);
    var id :| id in s.v.offers && s.v.offers[id].tlsnEvidence == c.access.tlsnEvidence;
  }
}
