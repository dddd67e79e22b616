// Credential configurations, and the adapter that puts a request before the decision kernel.

module Profiles {

  /** A credential configuration identifier, told apart as the service does; any other string is `Unlisted`. */
  datatype Profile =
    | PidSdJwt
    | PidFromEmrtdSdJwt
    | PidFromEmrtdMdoc
    | PidMdoc
    | EaaMdoc
    | QeaaSdJwt
    | QeaaPidBoundSdJwt
    | DevSvipePidSdJwt
    | TlsnEvidenceSdJwt
    | HybridPqSdJwt
    | MandateSdJwt
    | Unlisted(name: string)

  predicate IsNfcPid(p: Profile) { p.PidFromEmrtdSdJwt? || p.PidFromEmrtdMdoc? }

  /** Profiles that need a presented PID. */
  predicate NeedsPid(p: Profile) { p.QeaaPidBoundSdJwt? || p.MandateSdJwt? }
}

module Adapter {
  import opened Prelude
  import opened Profiles
  import opened Powers
  import opened Kernel
  import Bits

  const DEMO_MANDATE_POWERS: u64 := 3

  datatype VerifiedChipLiveness = VerifiedChipLiveness(
    subject: u128, jti: string, sodPassiveAuth: bool, chipAuthentic: bool, livenessMatched: bool)
  {
    predicate Proven() { sodPassiveAuth && chipAuthentic && livenessMatched }
  }

  datatype AdapterError = UnknownConfiguration | NoPidSubject | NoChipEvidence | KernelDenied

  datatype MandateGrant = MandateGrant(onBehalfOf: u128, grantedPowers: Powers)

  /** The digests the adapter takes, and the two random identifiers it draws. */
  datatype Digests = Digests(
    profile: Profile -> u128, text: string -> u128, demoSubject: u128, requestId: u128, sessionId: u128)

  function RoleOf(p: Profile): IssuerRole
    requires !p.Unlisted?
  {
    match p
    case PidSdJwt | PidFromEmrtdSdJwt | PidFromEmrtdMdoc | PidMdoc => Pid
    case QeaaSdJwt | QeaaPidBoundSdJwt | DevSvipePidSdJwt => Qeaa
    case EaaMdoc => NonQualifiedEaa
    case TlsnEvidenceSdJwt | HybridPqSdJwt => DevelopmentEvidence
    case MandateSdJwt => Representation
  }

  function FormatOf(p: Profile): CredentialFormat {
    if p.PidFromEmrtdMdoc? || p.PidMdoc? || p.EaaMdoc? then Mdoc else SdJwtVc
  }

  function FullGrant(): Powers { Powers(63) }

  lemma FullGrantIsTaxonomy()
    ensures FullGrant().bits == TaxonomyMask(PowerTaxonomy())
    ensures Powers(DEMO_MANDATE_POWERS).SubsetOf(FullGrant())
  {
    PinnedMask();
    assert Bits.And(3, 63) == 3;
  }

  function EvidenceAt(now: u64): Evidence {
    Evidence(SaturatingSub(now, 1), SaturatingAdd(now, 300), SaturatingAdd(now, 60), true)
  }

  function DemoDelegation(delegator: u128, delegateKey: u128, evidence: Evidence): Delegation {
    Delegation(evidence, delegator, delegateKey, FullGrant(), true)
  }

  function SubjectOf(d: Digests, pidSubject: Option<u128>, chip: Option<VerifiedChipLiveness>): u128 {
    if chip.Some? then chip.value.subject else if pidSubject.Some? then pidSubject.value else d.demoSubject
  }

  function KernelRequest(d: Digests, p: Profile, holderJkt: string, nonce: string, subject: u128, now: u64): Request
    requires !p.Unlisted?
  {
    var key := d.text(holderJkt);
    Request(d.requestId, d.profile(p), subject, d.profile(p), key,
            CredentialProof(EvidenceAt(now), d.text(nonce), key, true),
            SaturatingAdd(now, 3600),
            if RoleOf(p) == Representation then Powers(DEMO_MANDATE_POWERS) else Powers(0))
  }

  function KernelSession(d: Digests, p: Profile, holderJkt: string, nonce: string, subject: u128,
                         pidSubject: Option<u128>, chip: Option<VerifiedChipLiveness>, now: u64): Session
    requires !p.Unlisted?
  {
    var evidence := EvidenceAt(now);
    var key := d.text(holderJkt);
    var profile := CredentialProfile(
      d.profile(p), RoleOf(p), FormatOf(p), true, true, p.QeaaPidBoundSdJwt?, false, IsNfcPid(p));
    Session(
      d.sessionId,
      profile,
      Authorization(evidence, d.profile(p), subject, d.profile(p)),
      TokenBinding(evidence, key),
      WalletEvidence(evidence, Some(evidence), true, true),
      SubjectEvidence(
        evidence,
        subject,
        if IsNfcPid(p) then chip.Some? && chip.value.Proven() else true,
        true,
        true,
        d.profile(p),
        pidSubject.Some?),
      d.text(nonce),
      true,
      true,
      true,
      false,
      SaturatingAdd(now, 86400),
      false,
      if RoleOf(p) == Representation then Some(DemoDelegation(subject, key, evidence)) else None,
      if chip.Some? then
        Some(ChipLivenessEvidence(evidence, chip.value.subject, chip.value.sodPassiveAuth,
                                  chip.value.chipAuthentic, chip.value.livenessMatched))
      else None)
  }

  function AuthorizeKernel(d: Digests, p: Profile, holderJkt: string, nonce: string,
                           pidSubject: Option<u128>, chip: Option<VerifiedChipLiveness>, now: u64)
    : Result<Option<MandateGrant>, AdapterError>
  {
    if p.Unlisted? then Err(UnknownConfiguration)
    else if NeedsPid(p) && pidSubject.None? then Err(NoPidSubject)
    else if IsNfcPid(p) && chip.None? then Err(NoChipEvidence)
    else
      var subject := SubjectOf(d, pidSubject, chip);
      var request := KernelRequest(d, p, holderJkt, nonce, subject, now);
      var session := KernelSession(d, p, holderJkt, nonce, subject, pidSubject, chip, now);
      match AuthorizeSign(session, request, now)
      case Err(_) => Err(KernelDenied)
      case Ok(command) =>
        Ok(match command.onBehalfOf
           case Some(delegator) => Some(MandateGrant(delegator, command.grantedPowers))
           case None => None)
  }

  /** What it takes to pass the adapter and the kernel behind it: nothing more and nothing less. */
  predicate Admissible(p: Profile, pidSubject: Option<u128>, chip: Option<VerifiedChipLiveness>, now: u64) {
    && !p.Unlisted?
    && now < U64_MAX
    && (p.QeaaPidBoundSdJwt? || p.MandateSdJwt? ==> pidSubject.Some?)
    && (p.PidFromEmrtdSdJwt? || p.PidFromEmrtdMdoc? ==>
          chip.Some? && chip.value.sodPassiveAuth && chip.value.chipAuthentic && chip.value.livenessMatched)
  }

  /** What the kernel is told: high assurance of a chip-read PID exactly on a proven read, a delegation and powers
      exactly for a mandate, and evidence that is usable for the next minute. */
  lemma KernelIsTold(d: Digests, p: Profile, holderJkt: string, nonce: string, subject: u128,
                     pidSubject: Option<u128>, chip: Option<VerifiedChipLiveness>, now: u64, later: u64)
    requires !p.Unlisted? && now + 300 <= U64_MAX
    ensures
      var s := KernelSession(d, p, holderJkt, nonce, subject, pidSubject, chip, now);
      var r := KernelRequest(d, p, holderJkt, nonce, subject, now);
      && (s.profile.format == Mdoc <==> p.PidFromEmrtdMdoc? || p.PidMdoc? || p.EaaMdoc?)
      && (s.subject.loaHigh <==>
          (p.PidFromEmrtdSdJwt? || p.PidFromEmrtdMdoc? ==>
             chip.Some? && chip.value.sodPassiveAuth && chip.value.chipAuthentic && chip.value.livenessMatched))
      && s.delegation == (if p.MandateSdJwt?
                          then Some(Delegation(s.token.evidence, subject, s.token.dpopKey, Powers(63), true)) else None)
      && r.requestedPowers == (if p.MandateSdJwt? then Powers(3) else Powers(0))
      && (s.token.evidence.UsableAt(later) <==> now - 1 <= later <= now + 60)
      && r.expiry == now + 3600 - (if now + 3600 <= U64_MAX then 0 else now + 3600 - U64_MAX)
  {
  }

  lemma MayIssueThroughAdapter(d: Digests, p: Profile, holderJkt: string, nonce: string, subject: u128,
                               pidSubject: Option<u128>, chip: Option<VerifiedChipLiveness>, now: u64)
    requires !p.Unlisted? && (chip.Some? ==> subject == chip.value.subject)
    ensures MayIssue(KernelSession(d, p, holderJkt, nonce, subject, pidSubject, chip, now),
                     KernelRequest(d, p, holderJkt, nonce, subject, now), now) <==>
            now < U64_MAX && (p.QeaaPidBoundSdJwt? ==> pidSubject.Some?)
            && (IsNfcPid(p) ==> chip.Some? && chip.value.Proven())
  {
    if RoleOf(p) == Representation { FullGrantIsTaxonomy(); }
    assert EvidenceAt(now).UsableAt(now) <==> now < U64_MAX;
  }

  /** The command for a session is on behalf of the delegator exactly for mandates. */
  lemma SessionCommand(d: Digests, p: Profile, holderJkt: string, nonce: string, subject: u128,
                       pidSubject: Option<u128>, chip: Option<VerifiedChipLiveness>, now: u64)
    requires !p.Unlisted?
    ensures
      var session := KernelSession(d, p, holderJkt, nonce, subject, pidSubject, chip, now);
      var request := KernelRequest(d, p, holderJkt, nonce, subject, now);
      var command := AuthorizeSign(session, request, now);
      && (command.Ok? <==> MayIssue(session, request, now))
      && (command.Ok? ==> command.value.onBehalfOf == if p.MandateSdJwt? then Some(subject) else None)
      && (command.Ok? && p.MandateSdJwt? ==> command.value.grantedPowers == Powers(DEMO_MANDATE_POWERS))
  {
    hide MayIssue;
  }

  /** The adapter's exact acceptance condition, and exactly when and what it grants. */
  lemma AuthorizeKernelExact(d: Digests, p: Profile, holderJkt: string, nonce: string,
                             pidSubject: Option<u128>, chip: Option<VerifiedChipLiveness>, now: u64)
    ensures
      var r := AuthorizeKernel(d, p, holderJkt, nonce, pidSubject, chip, now);
      && (r.Ok? <==> Admissible(p, pidSubject, chip, now))
      && (r.Ok? ==>
            if p.MandateSdJwt? then
              && var delegator := if chip.Some? then chip.value.subject else pidSubject.value;
              && r.value == Some(MandateGrant(delegator, Powers(DEMO_MANDATE_POWERS)))
            else
              r.value == None)
  {
    hide MayIssue, AuthorizeSign, KernelSession, KernelRequest;
    if !p.Unlisted? {
      var subject := SubjectOf(d, pidSubject, chip);
      SessionCommand(d, p, holderJkt, nonce, subject, pidSubject, chip, now);
      MayIssueThroughAdapter(d, p, holderJkt, nonce, subject, pidSubject, chip, now);
    }
  }

  /** Why a refusal happened: before the kernel for what is missing, in the kernel for what is wrong. */
  lemma AuthorizeKernelRefusals(d: Digests, p: Profile, holderJkt: string, nonce: string,
                                pidSubject: Option<u128>, chip: Option<VerifiedChipLiveness>, now: u64)
    ensures
      var r := AuthorizeKernel(d, p, holderJkt, nonce, pidSubject, chip, now);
      var nfc := p.PidFromEmrtdSdJwt? || p.PidFromEmrtdMdoc?;
      && (r == Err(UnknownConfiguration) <==> p.Unlisted?)
      && (r == Err(NoPidSubject) <==> (p.QeaaPidBoundSdJwt? || p.MandateSdJwt?) && pidSubject.None?)
      && (r == Err(NoChipEvidence) <==> nfc && chip.None?)
      && (r == Err(KernelDenied) <==>
          && !p.Unlisted? && (p.QeaaPidBoundSdJwt? || p.MandateSdJwt? ==> pidSubject.Some?)
          && (nfc ==> chip.Some?) && (now == U64_MAX || (nfc && !chip.value.Proven())))
  {
    AuthorizeKernelExact(d, p, holderJkt, nonce, pidSubject, chip, now);
  }

  /** The two chip-read formats stand or fall together. */
  lemma ChipFormatsAgree(d: Digests, e: Digests, holderJkt: string, nonce: string,
                         pidSubject: Option<u128>, chip: Option<VerifiedChipLiveness>, now: u64)
    ensures AuthorizeKernel(d, PidFromEmrtdSdJwt, holderJkt, nonce, pidSubject, chip, now).Ok? <==>
            AuthorizeKernel(e, PidFromEmrtdMdoc, holderJkt, nonce, pidSubject, chip, now).Ok?
  {
    AuthorizeKernelExact(d, PidFromEmrtdSdJwt, holderJkt, nonce, pidSubject, chip, now);
    AuthorizeKernelExact(e, PidFromEmrtdMdoc, holderJkt, nonce, pidSubject, chip, now);
  }

  /** Every mandate the adapter grants names powers, all of them in the delegator's grant, on the wire too. */
  lemma GrantedMandateNarrows(d: Digests, p: Profile, holderJkt: string, nonce: string,
                              pidSubject: Option<u128>, chip: Option<VerifiedChipLiveness>, now: u64)
    requires AuthorizeKernel(d, p, holderJkt, nonce, pidSubject, chip, now).Ok?
    requires AuthorizeKernel(d, p, holderJkt, nonce, pidSubject, chip, now).value.Some?
    ensures
      var grant := AuthorizeKernel(d, p, holderJkt, nonce, pidSubject, chip, now).value.value;
      && p.MandateSdJwt?
      && !grant.grantedPowers.IsEmpty()
      && grant.grantedPowers.SubsetOf(FullGrant())
      && UrnsSubset(ScopeUrns(PowerTaxonomy(), grant.grantedPowers), ScopeUrns(PowerTaxonomy(), FullGrant()))
  {
    AuthorizeKernelExact(d, p, holderJkt, nonce, pidSubject, chip, now);
    FullGrantIsTaxonomy();
    PinnedTaxonomy();
    NarrowedPowersNarrowOnTheWire(PowerTaxonomy(), Powers(DEMO_MANDATE_POWERS), FullGrant());
  }
}
