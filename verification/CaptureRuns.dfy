// Capture sessions, with the lock let go while the liveness provider is asked.

module CaptureRuns {
  import opened Prelude
  import opened Profiles
  import opened Adapter
  import opened Service
  import opened ServiceRuns

  // ---- One submission ----

  /** The submission gets as far as using its attestation up. */
  predicate UsesAttestation(cfg: Config, used: set<string>, snapshot: Snapshot, e: Evidence) {
    && (cfg.iproovConfigured && snapshot.iproovToken.Some? ==> e.liveness.Some?)
    && cfg.readerConfigured && e.chip.Some? && e.chip.value.jti !in used
  }

  /** Both the issuer's verdict and everything the reader attests are positive. */
  predicate Proves(cfg: Config, snapshot: Snapshot, e: Evidence, now: u64) {
    && now < U64_MAX && cfg.iproovConfigured && snapshot.iproovToken.Some? && e.liveness == Some(true)
    && e.chip.Some?
    && e.chip.value.sodPassiveAuth && e.chip.value.chipAuthentic && e.chip.value.livenessMatched
  }

  /** What a submission decides about its session. */
  datatype Verdict = Keeps | Fails | Issues(chip: VerifiedChipLiveness)

  /** Using the attestation up without proving the case fails the session; proving it and signing twice issues it. */
  function VerdictOf(cfg: Config, used: set<string>, snapshot: Snapshot, e: Evidence, now: u64): Verdict {
    if !UsesAttestation(cfg, used, snapshot, e) then Keeps
    else if !Proves(cfg, snapshot, e, now) then Fails
    else if !(e.signsSdJwt && e.signsMdoc) then Keeps
    else Issues(e.chip.value)
  }

  function Turned(s: CaptureSession, snapshot: Snapshot, verdict: Verdict): CaptureSession {
    match verdict
    case Keeps => s
    case Fails => s.(status := Failed)
    case Issues(chip) =>
      s.(status := Issued, iproovToken := None,
         credential := Some(Minted(PidFromEmrtdSdJwt, snapshot.holderJwk, snapshot.holderJkt, chip, true, true)),
         credentialMdoc := Some(Minted(PidFromEmrtdMdoc, snapshot.holderJwk, snapshot.holderJkt, chip, true, true)))
  }

  /** The sessions with that one turned. */
  function WithTurned(captures: map<string, CaptureSession>, id: string, snapshot: Snapshot, verdict: Verdict)
    : map<string, CaptureSession>
  {
    if id in captures then captures[id := Turned(captures[id], snapshot, verdict)] else captures
  }

  /** The kernel passes a chip read in either format exactly if all its verdicts hold and the clock has not run out. */
  lemma KernelOnChip(d: Digests, holderJkt: string, nonce: string, chip: VerifiedChipLiveness, now: u64)
    ensures AuthorizeKernel(d, PidFromEmrtdSdJwt, holderJkt, nonce, None, Some(chip), now).Ok?
        <==> now < U64_MAX && chip.Proven()
    ensures AuthorizeKernel(d, PidFromEmrtdMdoc, holderJkt, nonce, None, Some(chip), now).Ok?
        <==> now < U64_MAX && chip.Proven()
  {
    hide AuthorizeKernel;
    AuthorizeKernelExact(d, PidFromEmrtdSdJwt, holderJkt, nonce, None, Some(chip), now);
    AuthorizeKernelExact(d, PidFromEmrtdMdoc, holderJkt, nonce, None, Some(chip), now);
  }

  lemma JointVerdict(chip: VerifiedChipLiveness, iproov: bool)
    ensures Joined(chip, iproov).jti == chip.jti
    ensures Joined(chip, iproov).Proven() <==> iproov && chip.Proven()
    ensures Joined(chip, iproov).Proven() ==> Joined(chip, iproov) == chip && chip.livenessMatched && iproov
  {
  }

  /** The decision on a used attestation. The second kernel check never refuses what the first let pass. */
  lemma DecisionCases(cfg: Config, w: Volatile, id: string, snapshot: Snapshot, e: Evidence,
                      chip: VerifiedChipLiveness, iproov: bool, reader: bool, now: u64)
    ensures
      var o := DecideCapture(cfg, w, id, snapshot, e, chip, iproov, reader, now);
      if !(now < U64_MAX && chip.Proven()) then o.result.Err? && o.state == MarkFailed(w, id)
      else if !(e.signsSdJwt && e.signsMdoc) then o.result.Err? && o.state == w
      else
        && o.result.Ok?
        && o.state == MarkIssued(w, id, Mint(PidFromEmrtdSdJwt, snapshot, chip, iproov, reader),
                                 Mint(PidFromEmrtdMdoc, snapshot, chip, iproov, reader))
  {
    hide AuthorizeKernel, MarkFailed, MarkIssued, Mint;
    KernelOnChip(cfg.digests, snapshot.holderJkt, snapshot.nonce, chip, now);
  }

  function DecisionVerdict(e: Evidence, chip: VerifiedChipLiveness, now: u64): Verdict {
    if !(now < U64_MAX && chip.Proven()) then Fails else if e.signsSdJwt && e.signsMdoc then Issues(chip) else Keeps
  }

  /** In terms of the one session it turns. */
  lemma DecisionTurns(cfg: Config, w: Volatile, id: string, snapshot: Snapshot, e: Evidence,
                      chip: VerifiedChipLiveness, iproov: bool, reader: bool, now: u64)
    requires chip.Proven() ==> iproov && reader
    ensures
      var o := DecideCapture(cfg, w, id, snapshot, e, chip, iproov, reader, now);
      && o.state.bindingJtis == w.bindingJtis
      && o.state.captures == WithTurned(w.captures, id, snapshot, DecisionVerdict(e, chip, now))
      && (o.result.Ok? <==> DecisionVerdict(e, chip, now).Issues?)
  {
    hide DecideCapture;
    DecisionCases(cfg, w, id, snapshot, e, chip, iproov, reader, now);
    assert w.captures == WithTurned(w.captures, id, snapshot, Keeps);
  }

  /** What a submission does to its ledger and to the sessions, in all cases. */
  ghost predicate Resolves(cfg: Config, v: Volatile, id: string, snapshot: Snapshot, e: Evidence, now: u64,
                           o: Outcome<()>)
  {
    var verdict := VerdictOf(cfg, v.bindingJtis, snapshot, e, now);
    && o.state.bindingJtis ==
       (if UsesAttestation(cfg, v.bindingJtis, snapshot, e) then v.bindingJtis + {e.chip.value.jti} else v.bindingJtis)
    && o.state.captures == WithTurned(v.captures, id, snapshot, verdict)
    && (o.result.Ok? <==> verdict.Issues?)
  }

  lemma RefusedSubmission(cfg: Config, v: Volatile, id: string, snapshot: Snapshot, e: Evidence, now: u64)
    requires !UsesAttestation(cfg, v.bindingJtis, snapshot, e)
    ensures var o := ResolveEvidence(cfg, v, id, snapshot, e, now); o.state == v && o.result.Err?
  {
    hide DecideCapture;
  }

  lemma UsedSubmission(cfg: Config, v: Volatile, id: string, snapshot: Snapshot, e: Evidence, now: u64)
    requires UsesAttestation(cfg, v.bindingJtis, snapshot, e)
    ensures
      var o, live := ResolveEvidence(cfg, v, id, snapshot, e, now), IssuerLiveness(cfg, snapshot, e).value;
      var verdict := DecisionVerdict(e, Joined(e.chip.value, live), now);
      && o.state.bindingJtis == v.bindingJtis + {e.chip.value.jti}
      && o.state.captures == WithTurned(v.captures, id, snapshot, verdict)
      && (o.result.Ok? <==> verdict.Issues?)
  {
    hide DecideCapture, Joined, WithTurned, DecisionVerdict;
    var live := IssuerLiveness(cfg, snapshot, e).value;
    JointVerdict(e.chip.value, live);
    var w := v.(bindingJtis := v.bindingJtis + {e.chip.value.jti});
    DecisionTurns(cfg, w, id, snapshot, e, Joined(e.chip.value, live), live, e.chip.value.livenessMatched, now);
  }

  lemma SubmissionCases(cfg: Config, v: Volatile, id: string, snapshot: Snapshot, e: Evidence, now: u64)
    ensures Resolves(cfg, v, id, snapshot, e, now, ResolveEvidence(cfg, v, id, snapshot, e, now))
  {
    hide ResolveEvidence, Joined;
    if UsesAttestation(cfg, v.bindingJtis, snapshot, e) {
      JointVerdict(e.chip.value, IssuerLiveness(cfg, snapshot, e).value);
      UsedSubmission(cfg, v, id, snapshot, e, now);
    } else {
      RefusedSubmission(cfg, v, id, snapshot, e, now);
      assert v.captures == WithTurned(v.captures, id, snapshot, Keeps);
    }
  }

  // ---- What holds of every session ----

  ghost predicate MintedFor(used: set<string>, s: CaptureSession, m: Minted, p: Profile) {
    && m.profile == p && m.holderJkt == s.holderJkt && m.holderJwk == s.holderJwk
    && m.chip.Proven() && m.iproovMatch && m.readerMatch && m.chip.jti in used
  }

  /** Both formats or neither, both only for the session's own key on a fully proven chip read; issued means both. */
  ghost predicate SessionSound(used: set<string>, s: CaptureSession) {
    && (s.credential.Some? <==> s.credentialMdoc.Some?)
    && (s.status == Issued ==> s.credential.Some?)
    && (s.status == AwaitingEvidence ==> s.credential.None?)
    && (s.credential.Some? ==>
          && MintedFor(used, s, s.credential.value, PidFromEmrtdSdJwt)
          && MintedFor(used, s, s.credentialMdoc.value, PidFromEmrtdMdoc)
          && s.credential.value.chip == s.credentialMdoc.value.chip)
  }

  ghost predicate AllSound(used: set<string>, captures: map<string, CaptureSession>) {
    forall id :: id in captures ==> SessionSound(used, captures[id])
  }

  /** No attestation stands behind two sessions. */
  ghost predicate AttestationsApart(captures: map<string, CaptureSession>) {
    forall a, b ::
      a in captures && b in captures && a != b && captures[a].credential.Some? && captures[b].credential.Some? ==>
      captures[a].credential.value.chip.jti != captures[b].credential.value.chip.jti
  }

  predicate KeysOf(s: CaptureSession, snapshot: Snapshot) {
    snapshot.holderJkt == s.holderJkt && snapshot.holderJwk == s.holderJwk
  }

  predicate TaskOfSession(captures: map<string, CaptureSession>, t: Task) {
    t.EvidenceHeld? ==> t.session in captures && KeysOf(captures[t.session], t.snapshot)
  }

  ghost predicate CapturesSound(s: System) {
    && (forall id :: id in s.v.captures ==> id in s.drawn)
    && AllSound(s.v.bindingJtis, s.v.captures)
    && AttestationsApart(s.v.captures)
    && (forall t :: t in s.tasks ==> TaskOfSession(s.v.captures, s.tasks[t]))
  }

  // ---- One session turned ----

  /** A session's key is fixed when it is opened, and a resolved session never waits for evidence again. */
  predicate SessionAdvances(s: CaptureSession, t: CaptureSession) {
    && t.holderJkt == s.holderJkt && t.holderJwk == s.holderJwk && t.nonce == s.nonce && t.expiresAt == s.expiresAt
    && (s.status != AwaitingEvidence ==> t.status != AwaitingEvidence)
    && (s.credential.Some? ==> t.credential.Some?)
  }

  lemma TurnedAdvances(s: CaptureSession, snapshot: Snapshot, verdict: Verdict)
    ensures SessionAdvances(s, Turned(s, snapshot, verdict))
  {
  }

  lemma SoundOverMore(used: set<string>, more: set<string>, s: CaptureSession)
    requires SessionSound(used, s) && used <= more
    ensures SessionSound(more, s)
  {
  }

  lemma TurnedSound(used: set<string>, s: CaptureSession, snapshot: Snapshot, verdict: Verdict)
    requires SessionSound(used, s) && KeysOf(s, snapshot)
    requires verdict.Issues? ==> verdict.chip.Proven() && verdict.chip.jti in used
    ensures SessionSound(used, Turned(s, snapshot, verdict))
  {
  }

  /** Turning one session keeps attestations apart if the one it is issued on was unused. */
  lemma TurnedApart(used: set<string>, captures: map<string, CaptureSession>, id: string, snapshot: Snapshot,
                    verdict: Verdict)
    requires AttestationsApart(captures) && AllSound(used, captures)
    requires verdict.Issues? ==> verdict.chip.jti !in used
    ensures AttestationsApart(WithTurned(captures, id, snapshot, verdict))
  {
  }

  lemma SubmissionSound(cfg: Config, v: Volatile, id: string, snapshot: Snapshot, e: Evidence, now: u64)
    requires AllSound(v.bindingJtis, v.captures) && id in v.captures && KeysOf(v.captures[id], snapshot)
    ensures
      var w := ResolveEvidence(cfg, v, id, snapshot, e, now).state;
      w.captures.Keys == v.captures.Keys && AllSound(w.bindingJtis, w.captures)
  {
    hide ResolveEvidence, IssuerLiveness, SessionSound, Turned;
    SubmissionCases(cfg, v, id, snapshot, e, now);
    var w := ResolveEvidence(cfg, v, id, snapshot, e, now).state;
    forall k | k in w.captures
      ensures SessionSound(w.bindingJtis, w.captures[k])
    {
      SoundOverMore(v.bindingJtis, w.bindingJtis, v.captures[k]);
      if k == id {
        TurnedSound(w.bindingJtis, v.captures[id], snapshot, VerdictOf(cfg, v.bindingJtis, snapshot, e, now));
      }
    }
  }

  ghost predicate SessionsAdvance(v: map<string, CaptureSession>, w: map<string, CaptureSession>) {
    forall id :: id in v ==> id in w && SessionAdvances(v[id], w[id])
  }

  lemma SubmissionAdvances(cfg: Config, v: Volatile, id: string, snapshot: Snapshot, e: Evidence, now: u64)
    requires AllSound(v.bindingJtis, v.captures) && AttestationsApart(v.captures)
    ensures
      var w := ResolveEvidence(cfg, v, id, snapshot, e, now).state;
      AttestationsApart(w.captures) && SessionsAdvance(v.captures, w.captures)
  {
    hide ResolveEvidence, IssuerLiveness, AllSound, AttestationsApart, Turned;
    SubmissionCases(cfg, v, id, snapshot, e, now);
    var verdict := VerdictOf(cfg, v.bindingJtis, snapshot, e, now);
    TurnedApart(v.bindingJtis, v.captures, id, snapshot, verdict);
    if id in v.captures {
      TurnedAdvances(v.captures[id], snapshot, verdict);
    }
  }

  // ---- Step by step ----

  /** Steps other than opening a session and finishing a submission leave the sessions alone. */
  lemma CapturesKept(cfg: Config, s: System, a: Action)
    requires !a.OpenSession? && !a.EndSubmission?
    ensures var v := EffectOf(cfg, s, a).v; v.captures == s.v.captures && s.v.bindingJtis <= v.bindingJtis
  {
    hide CheckCredential, RedeemCode, CredentialEffect, ParCheck, VerifiedArtifact, ValidScope, HasEncoder, CodeMatches,
      BeginEvidence;
    if a.Token? {
      RedeemRegion(cfg, s.v, a.tokenRequest, a.dpop, a.token);
    } else if a.BeginCredential? {
      CredentialRegion(cfg, s.v, a.credentialRequest, a.dpop, a.now);
      CredentialLedgers(s.v, CheckCredential(cfg, s.v, a.credentialRequest, a.dpop, a.now));
    }
  }

  lemma TasksOfSessions(cfg: Config, s: System, a: Action)
    requires CapturesSound(s)
    ensures forall t :: t in EffectOf(cfg, s, a).tasks ==> TaskOfSession(s.v.captures, EffectOf(cfg, s, a).tasks[t])
  {
    hide CheckCredential, ResolveEvidence, RedeemCode, ParCheck, AllSound, AttestationsApart;
  }

  lemma StepSessions(cfg: Config, s: System, a: Action)
    requires CapturesSound(s) && Legal(s, a)
    ensures CapturesSound(Apply(cfg, s, a)) && SessionsAdvance(s.v.captures, EffectOf(cfg, s, a).v.captures)
  {
    hide EffectOf;
    TasksOfSessions(cfg, s, a);
    if a.OpenSession? {
      OpenStep(cfg, s, a);
    } else if a.EndSubmission? {
      EndStep(cfg, s, a);
    } else {
      KeepStep(cfg, s, a);
    }
  }

  lemma KeepStep(cfg: Config, s: System, a: Action)
    requires CapturesSound(s) && !a.OpenSession? && !a.EndSubmission?
    ensures CapturesSound(Apply(cfg, s, a)) && SessionsAdvance(s.v.captures, EffectOf(cfg, s, a).v.captures)
  {
    hide EffectOf, SessionSound, AttestationsApart;
    CapturesKept(cfg, s, a);
    TasksOfSessions(cfg, s, a);
    var t := Apply(cfg, s, a);
    forall id | id in t.v.captures
      ensures SessionSound(t.v.bindingJtis, t.v.captures[id])
    {
      SoundOverMore(s.v.bindingJtis, t.v.bindingJtis, s.v.captures[id]);
    }
  }

  lemma OpenStep(cfg: Config, s: System, a: Action)
    requires CapturesSound(s) && Legal(s, a) && a.OpenSession?
    ensures CapturesSound(Apply(cfg, s, a)) && SessionsAdvance(s.v.captures, EffectOf(cfg, s, a).v.captures)
  {
    hide MintedFor, CheckCredential, ResolveEvidence, RedeemCode, ParCheck;
    var v, w := s.v.captures, EffectOf(cfg, s, a).v.captures;
    assert a.id !in v && w == v[a.id := w[a.id]];
    assert SessionSound(s.v.bindingJtis, w[a.id]);
  }

  lemma EndStep(cfg: Config, s: System, a: Action)
    requires CapturesSound(s) && a.EndSubmission?
    ensures CapturesSound(Apply(cfg, s, a)) && SessionsAdvance(s.v.captures, EffectOf(cfg, s, a).v.captures)
  {
    hide ResolveEvidence, AllSound, AttestationsApart;
    if a.task in s.tasks && s.tasks[a.task].EvidenceHeld? {
      SubmissionSound(cfg, s.v, s.tasks[a.task].session, s.tasks[a.task].snapshot, a.evidence, s.tasks[a.task].now);
      SubmissionAdvances(cfg, s.v, s.tasks[a.task].session, s.tasks[a.task].snapshot, a.evidence, s.tasks[a.task].now);
    }
  }

  /** In every legal run each session has both formats or neither, is issued only with both, and what it has is
      bound to its own key, rests on a chip read with all three verdicts true and both liveness sources agreeing,
      and on an attestation used up for it alone. */
  lemma {:induction false} RunCapturesSound(cfg: Config, actions: seq<Action>)
    requires LegalRun(cfg, START, actions)
    ensures CapturesSound(Run(cfg, START, actions))
    decreases |actions|
  {
    hide EffectOf;
    if actions != [] {
      RunCapturesSound(cfg, actions[..|actions| - 1]);
      StepSessions(cfg, Run(cfg, START, actions[..|actions| - 1]), actions[|actions| - 1]);
    }
  }

  /** Between any two moments of a legal run, sessions keep their key and never go back to waiting. */
  lemma {:induction false} SessionsOnlyAdvance(cfg: Config, actions: seq<Action>, n: nat)
    requires LegalRun(cfg, START, actions) && n <= |actions|
    ensures SessionsAdvance(Run(cfg, START, actions[..n]).v.captures, Run(cfg, START, actions).v.captures)
    decreases |actions|
  {
    hide EffectOf, CapturesSound;
    if n == |actions| {
      assert actions[..n] == actions;
    } else {
      var shorter := actions[..|actions| - 1];
      assert shorter[..n] == actions[..n];
      SessionsOnlyAdvance(cfg, shorter, n);
      RunCapturesSound(cfg, shorter);
      StepSessions(cfg, Run(cfg, START, shorter), actions[|actions| - 1]);
    }
  }

  // ---- When a resolved session can still change ----

  predicate Resolved(s: System, id: string) {
    id in s.v.captures && s.v.captures[id].status != AwaitingEvidence
  }

  /** The session is in both tables, the same in each. */
  predicate SameSession(v: map<string, CaptureSession>, w: map<string, CaptureSession>, id: string) {
    id in v && id in w && w[id] == v[id]
  }

  /** The request holds a submission for the session that began before and has not finished. */
  predicate HoldsSubmission(s: System, task: nat, id: string) {
    task in s.tasks && s.tasks[task].EvidenceHeld? && s.tasks[task].session == id
  }

  /** The provider may still vouch for the submission, and the kernel pass it. */
  predicate CanProve(cfg: Config, t: Task)
    requires t.EvidenceHeld?
  {
    cfg.iproovConfigured && t.snapshot.iproovToken.Some? && t.now < U64_MAX
  }

  /** A submission in flight can turn the resolved session: an issued one if a reader is trusted, a failed one if
      moreover the submission can prove its case. */
  predicate CanTurn(cfg: Config, s: System, task: nat, id: string)
    requires Resolved(s, id)
  {
    && HoldsSubmission(s, task, id) && cfg.readerConfigured
    && (s.v.captures[id].status == Issued || CanProve(cfg, s.tasks[task]))
  }

  ghost predicate Stuck(cfg: Config, s: System, id: string) {
    Resolved(s, id) && forall task :: !CanTurn(cfg, s, task, id)
  }

  /** A verdict changes a sound resolved session unless it keeps it, or fails one that has failed already. */
  lemma VerdictChanges(used: set<string>, s: CaptureSession, snapshot: Snapshot, verdict: Verdict)
    requires SessionSound(used, s) && s.status != AwaitingEvidence
    requires verdict.Issues? ==> verdict.chip.jti !in used
    ensures Turned(s, snapshot, verdict) != s <==> verdict.Issues? || (verdict.Fails? && s.status == Issued)
  {
  }

  /** What the end of a submission in flight makes of its resolved session, whatever it was, and exactly when that is a
      change: an issued session can fail or be issued again with other credentials, a failed one can be issued. */
  lemma InFlightDecides(cfg: Config, s: System, task: nat, e: Evidence, id: string)
    requires CapturesSound(s) && Resolved(s, id) && HoldsSubmission(s, task, id)
    ensures
      var held := s.tasks[task];
      var verdict := VerdictOf(cfg, s.v.bindingJtis, held.snapshot, e, held.now);
      var captures := EffectOf(cfg, s, EndSubmission(task, e)).v.captures;
      && id in captures && captures[id] == Turned(s.v.captures[id], held.snapshot, verdict)
      && (captures[id] != s.v.captures[id] <==>
          verdict.Issues? || (verdict.Fails? && s.v.captures[id].status == Issued))
  {
    hide ResolveEvidence, SessionSound, Turned;
    var held := s.tasks[task];
    SubmissionCases(cfg, s.v, id, held.snapshot, e, held.now);
    VerdictChanges(s.v.bindingJtis, s.v.captures[id], held.snapshot,
                   VerdictOf(cfg, s.v.bindingJtis, held.snapshot, e, held.now));
  }

  lemma StuckKeepsSession(cfg: Config, s: System, a: Action, id: string)
    requires CapturesSound(s) && Legal(s, a) && Stuck(cfg, s, id)
    ensures SameSession(s.v.captures, EffectOf(cfg, s, a).v.captures, id)
  {
    hide CheckCredential, ResolveEvidence, RedeemCode, ParCheck, AllSound, AttestationsApart;
    if a.EndSubmission? {
      if a.task in s.tasks && s.tasks[a.task].EvidenceHeld? {
        assert !CanTurn(cfg, s, a.task, id);
        SubmissionCases(cfg, s.v, s.tasks[a.task].session, s.tasks[a.task].snapshot, a.evidence, s.tasks[a.task].now);
      }
    } else if !a.OpenSession? {
      CapturesKept(cfg, s, a);
    }
  }

  /** No submission begins on a resolved session. */
  lemma NoneBegins(cfg: Config, s: System, a: Action, id: string, task: nat)
    requires Resolved(s, id) && HoldsSubmission(Apply(cfg, s, a), task, id)
    ensures task in s.tasks && s.tasks[task] == Apply(cfg, s, a).tasks[task]
  {
    hide CheckCredential, ResolveEvidence, RedeemCode, ParCheck;
  }

  lemma StuckStays(cfg: Config, s: System, a: Action, id: string)
    requires CapturesSound(s) && Legal(s, a) && Stuck(cfg, s, id)
    ensures Stuck(cfg, Apply(cfg, s, a), id)
  {
    hide EffectOf, CapturesSound, Legal, Apply;
    StuckKeepsSession(cfg, s, a, id);
    var t := Apply(cfg, s, a);
    assert t.v == EffectOf(cfg, s, a).v by { AppliedState(cfg, s, a); }
    forall task
      ensures !CanTurn(cfg, t, task, id)
    {
      if HoldsSubmission(t, task, id) {
        NoneBegins(cfg, s, a, id, task);
        assert !CanTurn(cfg, s, task, id);
      }
    }
  }

  lemma AppliedState(cfg: Config, s: System, a: Action)
    ensures Apply(cfg, s, a).v == EffectOf(cfg, s, a).v
  {
    hide EffectOf;
  }

  /** A resolved session that no submission in flight can turn stays as it is for the rest of the run. */
  lemma {:induction false} ResolvedIsFinal(cfg: Config, actions: seq<Action>, n: nat, id: string)
    requires LegalRun(cfg, START, actions) && n <= |actions|
    requires Stuck(cfg, Run(cfg, START, actions[..n]), id)
    ensures SameSession(Run(cfg, START, actions[..n]).v.captures, Run(cfg, START, actions).v.captures, id)
    ensures Stuck(cfg, Run(cfg, START, actions), id)
    decreases |actions|
  {
    hide EffectOf, CapturesSound, Stuck;
    if n == |actions| {
      assert actions[..n] == actions;
      assert Resolved(Run(cfg, START, actions), id) by { StuckIsResolved(cfg, Run(cfg, START, actions), id); }
    } else {
      var shorter := actions[..|actions| - 1];
      assert shorter[..n] == actions[..n];
      ResolvedIsFinal(cfg, shorter, n, id);
      RunCapturesSound(cfg, shorter);
      var s, a := Run(cfg, START, shorter), actions[|actions| - 1];
      StuckKeepsSession(cfg, s, a, id);
      StuckStays(cfg, s, a, id);
    }
  }

  lemma StuckIsResolved(cfg: Config, s: System, id: string)
    requires Stuck(cfg, s, id)
    ensures Resolved(s, id)
  {
  }

  lemma {:induction false} LongerThanAll(used: set<string>) returns (n: nat)
    ensures forall t :: t in used ==> |t| < n
    decreases |used|
  {
    n := 0;
    if used != {} {
      var t :| t in used;
      var m := LongerThanAll(used - {t});
      n := if m <= |t| then |t| + 1 else m;
      forall u | u in used
        ensures |u| < n
      {
        assert u == t || u in used - {t};
      }
    }
  }

  /** There is always an unused attestation identifier. */
  lemma UnusedText(used: set<string>) returns (t: string)
    ensures t !in used
  {
    var n := LongerThanAll(used);
    t := seq(n, _ => 'a');
  }

  /** Evidence that turns the session. */
  lemma TurningEvidence(cfg: Config, s: System, task: nat, id: string) returns (e: Evidence)
    requires CapturesSound(s) && Resolved(s, id) && CanTurn(cfg, s, task, id)
    ensures Legal(s, EndSubmission(task, e))
    ensures !SameSession(s.v.captures, EffectOf(cfg, s, EndSubmission(task, e)).v.captures, id)
  {
    hide EffectOf, AllSound, AttestationsApart;
    var jti := UnusedText(s.v.bindingJtis);
    e := Evidence(Some(s.v.captures[id].status == Failed), Some(VerifiedChipLiveness(0, jti, true, true, true)),
                  true, true);
    InFlightDecides(cfg, s, task, e, id);
  }

  ghost predicate ChangesLater(cfg: Config, actions: seq<Action>, more: seq<Action>, id: string) {
    && LegalRun(cfg, START, actions + more)
    && !SameSession(Run(cfg, START, actions).v.captures, Run(cfg, START, actions + more).v.captures, id)
  }

  /** After any legal run, a resolved session changes in some legal continuation exactly if some submission in flight
      can turn it. */
  lemma ResolvedChangesExactly(cfg: Config, actions: seq<Action>, id: string)
    requires LegalRun(cfg, START, actions) && Resolved(Run(cfg, START, actions), id)
    ensures
      (exists more :: ChangesLater(cfg, actions, more, id)) <==>
      exists task :: CanTurn(cfg, Run(cfg, START, actions), task, id)
  {
    hide EffectOf, Run, LegalRun, Legal, CanTurn, CapturesSound;
    var s := Run(cfg, START, actions);
    RunCapturesSound(cfg, actions);
    if task :| CanTurn(cfg, s, task, id) {
      var e := TurningEvidence(cfg, s, task, id);
      var a := EndSubmission(task, e);
      RunExtends(cfg, START, actions, a);
      assert ChangesLater(cfg, actions, [a], id);
    }
    forall more | ChangesLater(cfg, actions, more, id)
      ensures exists task :: CanTurn(cfg, s, task, id)
    {
      assert (actions + more)[..|actions|] == actions;
      if Stuck(cfg, s, id) {
        ResolvedIsFinal(cfg, actions + more, |actions|, id);
      }
    }
  }

  // ---- Runs that show it ----

  /** Two submissions begin on one session. */
  lemma TwoInFlight(cfg: Config) returns (actions: seq<Action>)
    ensures LegalRun(cfg, START, actions)
    ensures
      var s := Run(cfg, START, actions);
      var snapshot := Snapshot("jkt", "jwk", "nonce", Some("token"));
      && s.tasks == map[0 := EvidenceHeld("session", snapshot, 0), 1 := EvidenceHeld("session", snapshot, 0)]
      && s.v.bindingJtis == {} && "session" in s.v.captures && s.v.captures["session"].status == AwaitingEvidence
  {
    hide EffectOf, Run, LegalRun;
    var a := OpenSession("session", "jkt", "jwk", "nonce", Some("token"), 0);
    var b, c := BeginSubmission(0, "session", 0), BeginSubmission(1, "session", 0);
    actions := [a] + [b] + [c];
    EmptyRun(cfg);
    RunExtends(cfg, START, [], a);
    assert [] + [a] == [a];
    RunExtends(cfg, START, [a], b);
    RunExtends(cfg, START, [a] + [b], c);
    Opens(cfg, START, a);
    Begins(cfg, Run(cfg, START, [a]), b);
    Begins(cfg, Run(cfg, START, [a] + [b]), c);
  }

  lemma EmptyRun(cfg: Config)
    ensures Run(cfg, START, []) == START && LegalRun(cfg, START, [])
  {
  }

  lemma Opens(cfg: Config, s: System, a: Action)
    requires a.OpenSession?
    ensures
      var c := CaptureSession(a.holderJkt, a.holderJwk, a.nonce, a.iproovToken, AwaitingEvidence, None, None,
                              SaturatingAdd(a.now, 900));
      EffectOf(cfg, s, a) == Effect(s.v.(captures := s.v.captures[a.id := c]), s.tasks, [])
  {
  }

  lemma Begins(cfg: Config, s: System, a: Action)
    requires a.BeginSubmission? && BeginEvidence(s.v, a.session, a.now).Ok?
    ensures
      var held := EvidenceHeld(a.session, BeginEvidence(s.v, a.session, a.now).value, a.now);
      EffectOf(cfg, s, a) == Effect(s.v, s.tasks[a.task := held], [])
  {
  }

  lemma Ends(cfg: Config, s: System, a: Action)
    requires a.EndSubmission? && a.task in s.tasks && s.tasks[a.task].EvidenceHeld?
    ensures
      var held, t := s.tasks[a.task], EffectOf(cfg, s, a);
      var verdict := VerdictOf(cfg, s.v.bindingJtis, held.snapshot, a.evidence, held.now);
      && t.tasks == s.tasks - {a.task}
      && t.v.captures == WithTurned(s.v.captures, held.session, held.snapshot, verdict)
      && (UsesAttestation(cfg, s.v.bindingJtis, held.snapshot, a.evidence) ==>
            t.v.bindingJtis == s.v.bindingJtis + {a.evidence.chip.value.jti})
  {
    hide ResolveEvidence, VerdictOf, WithTurned;
    SubmissionCases(cfg, s.v, s.tasks[a.task].session, s.tasks[a.task].snapshot, a.evidence, s.tasks[a.task].now);
  }

  /** Evidence in which everything is positive but perhaps the provider's answer. */
  function Answered(jti: string, live: bool): Evidence {
    Evidence(Some(live), Some(VerifiedChipLiveness(0, jti, true, true, true)), true, true)
  }

  /** The session after one submission with each answer, and then after the other. */
  lemma OneThenOther(cfg: Config, first: bool, second: bool) returns (actions: seq<Action>, n: nat)
    requires cfg.readerConfigured && cfg.iproovConfigured
    ensures LegalRun(cfg, START, actions) && n <= |actions|
    ensures
      var before, after := Run(cfg, START, actions[..n]).v.captures, Run(cfg, START, actions).v.captures;
      && "session" in before && before["session"].status == (if first then Issued else Failed)
      && "session" in after && after["session"].status == (if second then Issued else Failed)
      && (first ==> before["session"].credential.Some? && before["session"].credential.value.chip.jti == "one")
      && (second ==> after["session"].credential.Some? && after["session"].credential.value.chip.jti == "two")
      && (first && !second ==> after["session"].credential == before["session"].credential)
  {
    hide EffectOf, Run, LegalRun;
    var begun := TwoInFlight(cfg);
    var a, b := EndSubmission(0, Answered("one", first)), EndSubmission(1, Answered("two", second));
    RunExtends(cfg, START, begun, a);
    RunExtends(cfg, START, begun + [a], b);
    Ends(cfg, Run(cfg, START, begun), a);
    Ends(cfg, Run(cfg, START, begun + [a]), b);
    actions, n := begun + [a] + [b], |begun| + 1;
    assert actions[..n] == begun + [a];
  }

  /** A run in which a session fails and is issued afterwards: a failed session is not always final. */
  lemma FailedThenIssued(cfg: Config) returns (actions: seq<Action>, n: nat)
    requires cfg.readerConfigured && cfg.iproovConfigured
    ensures LegalRun(cfg, START, actions) && n <= |actions|
    ensures
      var before, after := Run(cfg, START, actions[..n]).v.captures, Run(cfg, START, actions).v.captures;
      && "session" in before && before["session"].status == Failed
      && "session" in after && after["session"].status == Issued
  {
    hide Run, LegalRun;
    actions, n := OneThenOther(cfg, false, true);
  }

  /** A run in which an issued session is issued again, with other credentials. */
  lemma IssuedThenReissued(cfg: Config) returns (actions: seq<Action>, n: nat)
    requires cfg.readerConfigured && cfg.iproovConfigured
    ensures LegalRun(cfg, START, actions) && n <= |actions|
    ensures
      var before, after := Run(cfg, START, actions[..n]).v.captures, Run(cfg, START, actions).v.captures;
      && "session" in before && before["session"].status == Issued
      && "session" in after && after["session"].status == Issued
      && before["session"].credential != after["session"].credential
  {
    hide Run, LegalRun;
    actions, n := OneThenOther(cfg, true, true);
    assert "one"[0] != "two"[0];
  }

  /** A run in which an issued session fails afterwards, and keeps its credentials. */
  lemma IssuedThenFailed(cfg: Config) returns (actions: seq<Action>, n: nat)
    requires cfg.readerConfigured && cfg.iproovConfigured
    ensures LegalRun(cfg, START, actions) && n <= |actions|
    ensures
      var before, after := Run(cfg, START, actions[..n]).v.captures, Run(cfg, START, actions).v.captures;
      && "session" in before && before["session"].status == Issued
      && "session" in after && after["session"].status == Failed
      && before["session"].credential.Some? && after["session"].credential == before["session"].credential
  {
    hide Run, LegalRun;
    actions, n := OneThenOther(cfg, true, false);
  }
}
