// The other direction: what the credential endpoint may issue, some run does issue.

module IssuanceReach {
  import opened Prelude
  import opened Scopes
  import opened Profiles
  import opened Adapter
  import opened Service
  import opened ServiceRuns
  import opened IssuanceRuns
  import opened TlsnRuns
  import ReplayRuns
  import Powers

  /** TLSNotary evidence, where the configuration needs some. */
  function Notarised(cfg: Config, name: string): Option<TlsnEvidence> {
    if cfg.classify(name).TlsnEvidenceSdJwt? then Some(TlsnEvidence("session", 0, "output")) else None
  }

  function Request(cfg: Config, name: string): PushedAuthorization {
    PushedAuthorization("client", "redirect", name, cfg.s256("verifier"), Notarised(cfg, name))
  }

  /** Nothing yet, but for the TLSNotary offer where one is needed. */
  function Base(cfg: Config, name: string): Volatile {
    var empty := Volatile(map[], map[], map[], map[], {}, {}, map[], {}, map[]);
    if Notarised(cfg, name).None? then empty
    else empty.(offers := map["offer" := CredentialOffer(name, "state", 300, Notarised(cfg, name))],
                tlsnSessions := {"session"})
  }

  /** The last two steps of `actions + [a] + [b]`. */
  lemma Twice(cfg: Config, actions: seq<Action>, a: Action, b: Action)
    requires LegalRun(cfg, START, actions) && Legal(Run(cfg, START, actions), a)
    requires Legal(Apply(cfg, Run(cfg, START, actions), a), b)
    ensures LegalRun(cfg, START, actions + [a] + [b])
    ensures Run(cfg, START, actions + [a] + [b]) == Apply(cfg, Apply(cfg, Run(cfg, START, actions), a), b)
  {
    hide Run, LegalRun, Apply, Legal;
    RunExtends(cfg, START, actions, a);
    RunExtends(cfg, START, actions + [a], b);
  }

  lemma Offers(cfg: Config, name: string) returns (actions: seq<Action>)
    requires Sensible(cfg)
    ensures LegalRun(cfg, START, actions)
    ensures
      var s := Run(cfg, START, actions);
      s.v == Base(cfg, name) && s.tasks == map[] && s.drawn <= {"offer", "state"}
  {
    if Notarised(cfg, name).None? {
      actions := [];
    } else {
      var a := OfferTlsn(TlsnArtifact(Notarised(cfg, name).value, true, true), "offer", "state", 0);
      actions := [] + [a];
      RunExtends(cfg, START, [], a);
    }
  }

  lemma Pushes(cfg: Config, name: string) returns (actions: seq<Action>)
    requires Sensible(cfg) && Grantable(cfg, name)
    ensures LegalRun(cfg, START, actions)
    ensures
      var s := Run(cfg, START, actions);
      && s.v == Base(cfg, name).(pushed := map["uri" := Request(cfg, name)])
      && s.tasks == map[] && s.drawn <= {"offer", "state", "uri"}
  {
    hide Words, Run, LegalRun;
    WordsExactly(name, ' ', "");
    var offered := Offers(cfg, name);
    var issuerState := if Notarised(cfg, name).Some? then Some("state") else None;
    var which := if Notarised(cfg, name).Some? then Some("offer") else None;
    var r := ParRequest("client", "redirect", "code", name, cfg.s256("verifier"), "S256", issuerState);
    var a, b := BeginPar(0, r, which, 0), EndPar(0, "uri");
    actions := offered + [a] + [b];
    Twice(cfg, offered, a, b);
  }

  lemma Authorizes(cfg: Config, name: string) returns (actions: seq<Action>)
    requires Sensible(cfg) && Grantable(cfg, name)
    ensures LegalRun(cfg, START, actions)
    ensures
      var s := Run(cfg, START, actions);
      && s.v == Base(cfg, name).(codes := map["code" := CodeFor(Request(cfg, name), false)])
      && s.tasks == map[] && s.drawn <= {"offer", "state", "uri", "code"}
  {
    hide Run, LegalRun;
    var pushed := Pushes(cfg, name);
    var a, b := BeginAuthorize(0, "client", "uri"), EndAuthorize(0, "code");
    actions := pushed + [a] + [b];
    Twice(cfg, pushed, a, b);
  }

  function Redemption(): TokenRequest {
    TokenRequest("authorization_code", "code", "redirect", "client", "verifier")
  }

  lemma RedeemedOnce(cfg: Config, v: Volatile, name: string)
    requires v == Base(cfg, name).(codes := map["code" := CodeFor(Request(cfg, name), false)])
    ensures
      RedeemCode(cfg, v, Redemption(), VerifiedDpop("key", "first"), "token").state
      == v.(codes := map["code" := CodeFor(Request(cfg, name), true)],
            tokens := map["token" := AccessToken(name, "key", Notarised(cfg, name))], dpopJtis := {"first"})
  {
  }

  lemma Redeemed(cfg: Config, name: string) returns (actions: seq<Action>)
    requires Sensible(cfg) && Grantable(cfg, name)
    ensures LegalRun(cfg, START, actions)
    ensures
      var s := Run(cfg, START, actions);
      && s.v == Base(cfg, name).(codes := map["code" := CodeFor(Request(cfg, name), true)],
                                 tokens := map["token" := AccessToken(name, "key", Notarised(cfg, name))],
                                 nonces := map["nonce" := false], dpopJtis := {"first"})
      && s.tasks == map[]
  {
    hide Run, LegalRun, RedeemCode;
    var authorized := Authorizes(cfg, name);
    RedeemedOnce(cfg, Run(cfg, START, authorized).v, name);
    var a := Token(Redemption(), VerifiedDpop("key", "first"), "token");
    var b := Nonce("nonce");
    actions := authorized + [a] + [b];
    Twice(cfg, authorized, a, b);
  }

  function Evidenced(cfg: Config, name: string): CredentialRequest {
    CredentialRequest(
      "token", name, Some(VerifiedProof("key", "jwk", "nonce")),
      if NeedsPid(cfg.classify(name)) then Verified(VerifiedPidBinding(0, "binding")) else Absent,
      if cfg.classify(name).PidFromEmrtdSdJwt?
      then Verified(VerifiedChipLiveness(0, "chip", true, true, true))
      else Absent)
  }

  function TheGrant(cfg: Config, name: string): Granted {
    var r := Evidenced(cfg, name);
    Granted(name, "key", "jwk", "nonce", "token",
            if r.pidBinding.Verified? then Some(r.pidBinding.value) else None,
            if r.emrtdEvidence.Verified? then Some(r.emrtdEvidence.value) else None,
            if cfg.classify(name).MandateSdJwt?
            then Some(MandateGrant(0, Powers.Powers(DEMO_MANDATE_POWERS)))
            else None)
  }

  lemma Grants(cfg: Config, name: string, v: Volatile)
    requires Grantable(cfg, name)
    requires v.tokens == map["token" := AccessToken(name, "key", Notarised(cfg, name))]
        && v.nonces == map["nonce" := false]
    requires v.dpopJtis == {"first"} && v.bindingJtis == {}
    ensures CheckCredential(cfg, v, Evidenced(cfg, name), VerifiedDpop("key", "second"), 0).result
            == Ok(TheGrant(cfg, name))
  {
    hide AuthorizeKernel, Words;
    WordsExactly(name, ' ', "");
    var p, r := cfg.classify(name), Evidenced(cfg, name);
    var subject := if NeedsPid(p) then Some(0) else None;
    var chip := if p.PidFromEmrtdSdJwt? then Some(r.emrtdEvidence.value) else None;
    AuthorizeKernelExact(cfg.digests, p, "key", "nonce", subject, chip, 0);
  }

  /** For each grantable configuration a legal run that ends by granting it, its nonce used up and the grant held. */
  lemma GrantableIsGranted(cfg: Config, name: string) returns (actions: seq<Action>)
    requires Sensible(cfg) && Grantable(cfg, name)
    ensures LegalRun(cfg, START, actions)
    ensures
      var s := Run(cfg, START, actions);
      && s.history != [] && s.history[|s.history| - 1] == EvGranted(TheGrant(cfg, name))
      && "nonce" in s.v.nonces && s.v.nonces["nonce"] && s.tasks == map[0 := CredentialHeld(TheGrant(cfg, name))]
  {
    hide Run, LegalRun, CheckCredential, CredentialEffect;
    var redeemed := Redeemed(cfg, name);
    var s := Run(cfg, START, redeemed);
    Grants(cfg, name, s.v);
    var a := BeginCredential(0, Evidenced(cfg, name), VerifiedDpop("key", "second"), 0);
    actions := redeemed + [a];
    RunExtends(cfg, START, redeemed, a);
    var o := CheckCredential(cfg, s.v, a.credentialRequest, a.dpop, 0);
    CredentialRegion(cfg, s.v, a.credentialRequest, a.dpop, 0);
    CredentialLedgers(s.v, o);
    GrantComesLast(s.v, o);
  }

  lemma GrantComesLast(v: Volatile, o: Outcome<Granted>)
    requires CredentialEffect(v, o) && o.result.Ok?
    ensures o.log != [] && o.log[|o.log| - 1] == EvGranted(o.result.value)
  {
  }

  /** For each issuable configuration a legal run that ends by issuing it. */
  lemma IssuableIsIssued(cfg: Config, name: string) returns (actions: seq<Action>)
    requires Sensible(cfg) && Issuable(cfg, name)
    ensures LegalRun(cfg, START, actions)
    ensures
      var h := Run(cfg, START, actions).history;
      h != [] && h[|h| - 1] == EvIssued(TheGrant(cfg, name))
  {
    hide Run, LegalRun, EffectOf, HasEncoder;
    var granted := GrantableIsGranted(cfg, name);
    var a := EndCredential(0, true);
    actions := granted + [a];
    RunExtends(cfg, START, granted, a);
    OnlySvipeLacksEncoder(cfg, name);
    HeldGrantIssues(cfg, Run(cfg, START, granted), 0, true);
  }

  ghost predicate GrantedIn(cfg: Config, actions: seq<Action>, name: string) {
    LegalRun(cfg, START, actions)
    && exists g :: EvGranted(g) in Run(cfg, START, actions).history && g.configurationId == name
  }

  ghost predicate IssuedIn(cfg: Config, actions: seq<Action>, name: string) {
    LegalRun(cfg, START, actions)
    && exists g :: EvIssued(g) in Run(cfg, START, actions).history && g.configurationId == name
  }

  /** The endpoint can grant a configuration, in some legal run, exactly if it is a word that scopes allow and, for the
      chip-read PID, a reader is trusted. */
  lemma GrantedExactly(cfg: Config, name: string)
    requires Sensible(cfg)
    ensures (exists actions :: GrantedIn(cfg, actions, name)) <==> Grantable(cfg, name)
  {
    hide Run, LegalRun, Grantable;
    forall actions | GrantedIn(cfg, actions, name)
      ensures Grantable(cfg, name)
    {
      var h := Run(cfg, START, actions).history;
      var g :| EvGranted(g) in h && g.configurationId == name;
      var i: nat :| i < |h| && h[i] == EvGranted(g);
      GrantedIsAllowed(cfg, actions, i);
    }
    if Grantable(cfg, name) {
      var actions := GrantableIsGranted(cfg, name);
      var h := Run(cfg, START, actions).history;
      assert h[|h| - 1] in h;
      assert GrantedIn(cfg, actions, name);
    }
  }

  /** And it can issue it exactly if moreover it has an encoder. */
  lemma IssuedExactly(cfg: Config, name: string)
    requires Sensible(cfg)
    ensures (exists actions :: IssuedIn(cfg, actions, name)) <==> Issuable(cfg, name)
  {
    hide Run, LegalRun, Issuable;
    forall actions | IssuedIn(cfg, actions, name)
      ensures Issuable(cfg, name)
    {
      var h := Run(cfg, START, actions).history;
      var g :| EvIssued(g) in h && g.configurationId == name;
      var i: nat :| i < |h| && h[i] == EvIssued(g);
      IssuedIsAllowed(cfg, actions, i);
    }
    if Issuable(cfg, name) {
      var actions := IssuableIsIssued(cfg, name);
      var h := Run(cfg, START, actions).history;
      assert h[|h| - 1] in h;
      assert IssuedIn(cfg, actions, name);
    }
  }

  // ---- A nonce used in vain ----

  lemma {:induction false} HistoryGrows(cfg: Config, actions: seq<Action>, n: nat)
    requires n <= |actions|
    ensures Run(cfg, START, actions[..n]).history <= Run(cfg, START, actions).history
    decreases |actions|
  {
    hide EffectOf;
    if n == |actions| {
      assert actions[..n] == actions;
    } else {
      var shorter := actions[..|actions| - 1];
      assert shorter[..n] == actions[..n];
      HistoryGrows(cfg, shorter, n);
    }
  }

  lemma OneGrantPerNonce(h: seq<Event>, d: nat, k: nat)
    requires ReplayRuns.OnceOnly(h) && d < |h| && k < |h|
    requires h[d].EvGranted? && h[k].EvGranted? && h[d].grant.nonce == h[k].grant.nonce
    ensures d == k
  {
  }

  /** A credential issued under a nonce is the one granted under it. */
  lemma IssuedAsGranted(cfg: Config, actions: seq<Action>, g: Granted, i: nat)
    requires LegalRun(cfg, START, actions) && EvGranted(g) in Run(cfg, START, actions).history
    requires i < |Run(cfg, START, actions).history| && Run(cfg, START, actions).history[i].EvIssued?
    requires Run(cfg, START, actions).history[i].grant.nonce == g.nonce
    ensures Run(cfg, START, actions).history[i].grant == g
  {
    hide Run, LegalRun, HasEncoder, Chained, TablesBacked, TasksBacked, ReplayRuns.OnceOnly;
    RunBacked(cfg, actions);
    ReplayRuns.SingleUse(cfg, actions);
    var h := Run(cfg, START, actions).history;
    var d := GrantBehind(cfg, h, i);
    var k: nat :| k < |h| && h[k] == EvGranted(g);
    OneGrantPerNonce(h, d, k);
  }

  /** The Svipe PID configuration: some legal run grants it and uses its nonce up, and no continuation of that run
      issues anything under that nonce. */
  lemma NonceUsedInVain(cfg: Config, name: string) returns (actions: seq<Action>)
    requires Sensible(cfg) && Grantable(cfg, name) && cfg.classify(name).DevSvipePidSdJwt?
    ensures GrantedIn(cfg, actions, name)
    ensures var v := Run(cfg, START, actions).v; "nonce" in v.nonces && v.nonces["nonce"]
    ensures forall more: seq<Action>, g: Granted :: LegalRun(cfg, START, actions + more) && g.nonce == "nonce" ==>
              EvIssued(g) !in Run(cfg, START, actions + more).history
  {
    hide Run, LegalRun, Grantable;
    actions := GrantableIsGranted(cfg, name);
    var h := Run(cfg, START, actions).history;
    assert h[|h| - 1] in h;
    forall more: seq<Action>, g: Granted | LegalRun(cfg, START, actions + more) && g.nonce == "nonce"
      ensures EvIssued(g) !in Run(cfg, START, actions + more).history
    {
      var later := Run(cfg, START, actions + more).history;
      assert (actions + more)[..|actions|] == actions;
      HistoryGrows(cfg, actions + more, |actions|);
      assert later[|h| - 1] == EvGranted(TheGrant(cfg, name));
      if EvIssued(g) in later {
        var i: nat :| i < |later| && later[i] == EvIssued(g);
        IssuedAsGranted(cfg, actions + more, TheGrant(cfg, name), i);
        IssuedIsAllowed(cfg, actions + more, i);
      }
    }
  }
}
