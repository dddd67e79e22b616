// The evidence behind a credential: a chip read or a presented PID, used up for it alone.

module EvidenceRuns {
  import opened Prelude
  import opened Service
  import opened ServiceRuns
  import IssuanceRuns
  import ReplayRuns

  /** Every grant and every minting stands right after the use of the evidence it rests on. */
  ghost predicate Rested(h: seq<Event>) {
    forall i: nat | i < |h| :: RestedAt(h, i)
  }

  predicate RestedAt(h: seq<Event>, i: nat)
    requires i < |h|
  {
    RestsOn(h[i]).Some? ==> i > 0 && h[i - 1] == RestsOn(h[i]).value
  }

  lemma RestedAppend(h: seq<Event>, log: seq<Event>)
    requires Rested(h) && Rested(log)
    ensures Rested(h + log)
  {
    var all := h + log;
    forall i: nat | i < |all|
      ensures RestedAt(all, i)
    {
      if i < |h| {
        assert RestedAt(h, i);
      } else {
        assert RestedAt(log, i - |h|);
      }
    }
  }

  lemma CredentialRested(cfg: Config, v: Volatile, r: CredentialRequest, dpop: VerifiedDpop, now: u64)
    ensures Rested(CheckCredential(cfg, v, r, dpop, now).log)
  {
    hide CheckCredential, CredentialEffect;
    var o := CheckCredential(cfg, v, r, dpop, now);
    CredentialRegion(cfg, v, r, dpop, now);
    forall k: nat | k < |o.log|
      ensures RestedAt(o.log, k)
    {
      CredentialEvents(v, o, k);
    }
  }

  lemma StepRested(cfg: Config, s: System, a: Action)
    ensures Rested(EffectOf(cfg, s, a).log)
  {
    hide CheckCredential, ResolveEvidence, RedeemCode, HasEncoder;
    match a
    case BeginCredential(_, r, dpop, now) =>
      CredentialRested(cfg, s.v, r, dpop, now);
    case Token(r, dpop, token) =>
      RedeemRegion(cfg, s.v, r, dpop, token);
    case EndSubmission(task, e) =>
      if task in s.tasks && s.tasks[task].EvidenceHeld? {
        SubmissionRegion(cfg, s.v, s.tasks[task].session, s.tasks[task].snapshot, e, s.tasks[task].now);
      }
    case _ =>
  }

  lemma {:induction false} RunRested(cfg: Config, actions: seq<Action>)
    ensures Rested(Run(cfg, START, actions).history)
    decreases |actions|
  {
    hide EffectOf, Rested;
    if actions != [] {
      var shorter := actions[..|actions| - 1];
      RunRested(cfg, shorter);
      StepRested(cfg, Run(cfg, START, shorter), actions[|actions| - 1]);
      RestedAppend(Run(cfg, START, shorter).history,
                   EffectOf(cfg, Run(cfg, START, shorter), actions[|actions| - 1]).log);
    } else {
      NothingRested();
    }
  }

  lemma NothingRested()
    ensures Rested([])
  {
  }

  /** In every run, each credential the endpoint issues was granted on the evidence its configuration needs, used up
      right before: a chip read by a trusted reader with all three verdicts, a binding to a presented PID, or none. */
  lemma {:induction false} IssuedOnEvidence(cfg: Config, actions: seq<Action>, i: nat)
    requires i < |Run(cfg, START, actions).history| && Run(cfg, START, actions).history[i].EvIssued?
    ensures
      var h, g := Run(cfg, START, actions).history, Run(cfg, START, actions).history[i].grant;
      && EvidenceFits(cfg, g)
      && exists d: nat :: d < i && h[d] == EvGranted(g) && RestedAt(h, d)
  {
    hide Run, EffectOf, EvidenceFits, HasEncoder, IssuanceRuns.GrantBacked, RestedAt;
    IssuanceRuns.RunBacked(cfg, actions);
    RunRested(cfg, actions);
    var h := Run(cfg, START, actions).history;
    var d := IssuanceRuns.GrantBehind(cfg, h, i);
    var _, _ := IssuanceRuns.TokenBehind(cfg, h, d);
    assert h[d] == EvGranted(h[i].grant) && RestedAt(h, d);
  }

  function JtiOf(e: Event): Option<string> {
    var used := RestsOn(e);
    if used.Some? then Some(used.value.jti) else None
  }

  lemma OneUsePerJti(h: seq<Event>, i: nat, j: nat)
    requires ReplayRuns.OnceOnly(h) && Rested(h) && i < |h| && j < |h|
    requires JtiOf(h[i]).Some? && JtiOf(h[i]) == JtiOf(h[j])
    ensures i == j
  {
    hide ReplayRuns.OnceOnly;
    assert RestedAt(h, i) && RestedAt(h, j);
    OneBinding(h, i - 1, j - 1);
  }

  lemma OneBinding(h: seq<Event>, i: nat, j: nat)
    requires ReplayRuns.OnceOnly(h) && i < |h| && j < |h|
    requires h[i].EvBinding? && h[j].EvBinding? && h[i].jti == h[j].jti
    ensures i == j
  {
  }

  /** In every legal run no attestation and no binding stands behind two of them: chip-read grants, grants on a
      presented PID and minted captures all rest on evidence of their own. */
  lemma {:induction false} EvidenceIsOwn(cfg: Config, actions: seq<Action>, i: nat, j: nat)
    requires LegalRun(cfg, START, actions)
    requires i < |Run(cfg, START, actions).history| && j < |Run(cfg, START, actions).history| && i != j
    requires JtiOf(Run(cfg, START, actions).history[i]).Some?
    ensures JtiOf(Run(cfg, START, actions).history[i]) != JtiOf(Run(cfg, START, actions).history[j])
  {
    hide Run, LegalRun, EffectOf, JtiOf, Rested, ReplayRuns.OnceOnly;
    RunRested(cfg, actions);
    ReplayRuns.SingleUse(cfg, actions);
    var h := Run(cfg, START, actions).history;
    if JtiOf(h[i]) == JtiOf(h[j]) {
      OneUsePerJti(h, i, j);
    }
  }
}
