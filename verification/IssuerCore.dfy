// The pure decision kernel: powers and their wire names, evidence windows, and the gate to a
// signing command.

module Bits {
  // Bitwise operations on natural numbers, as far as a mask of powers needs them.

  predicate Bit(n: nat, i: nat) {
    if i == 0 then n % 2 == 1 else Bit(n / 2, i - 1)
  }

  function And(a: nat, b: nat): nat {
    if a == 0 || b == 0 then 0 else 2 * And(a / 2, b / 2) + if a % 2 == 1 && b % 2 == 1 then 1 else 0
  }

  function Or(a: nat, b: nat): nat
    decreases a + b
  {
    if a == 0 then b else if b == 0 then a
    else 2 * Or(a / 2, b / 2) + if a % 2 == 1 || b % 2 == 1 then 1 else 0
  }

  /** `1 << i`. */
  function Shifted(i: nat): nat {
    if i == 0 then 1 else 2 * Shifted(i - 1)
  }

  lemma {:induction false} ZeroHasNoBit(i: nat)
    ensures !Bit(0, i)
  {
    if i > 0 { ZeroHasNoBit(i - 1); }
  }

  lemma {:induction false} AndBit(a: nat, b: nat, i: nat)
    ensures Bit(And(a, b), i) <==> Bit(a, i) && Bit(b, i)
    decreases i
  {
    if a == 0 || b == 0 {
      ZeroHasNoBit(i);
    } else if i > 0 {
      AndBit(a / 2, b / 2, i - 1);
    }
  }

  lemma {:induction false} OrBit(a: nat, b: nat, i: nat)
    ensures Bit(Or(a, b), i) <==> Bit(a, i) || Bit(b, i)
    decreases i
  {
    if a == 0 || b == 0 {
      ZeroHasNoBit(i);
    } else if i > 0 {
      OrBit(a / 2, b / 2, i - 1);
    }
  }

  lemma {:induction false} ShiftedBit(k: nat, i: nat)
    ensures Bit(Shifted(k), i) <==> i == k
  {
    if k == 0 {
      if i > 0 { ZeroHasNoBit(i - 1); }
    } else if i > 0 {
      ShiftedBit(k - 1, i - 1);
    }
  }

  /** Numbers with the same bits are the same number. */
  lemma {:induction false} BitsDetermine(a: nat, b: nat)
    requires forall i: nat :: Bit(a, i) <==> Bit(b, i)
    ensures a == b
    decreases a + b
  {
    if a != 0 || b != 0 {
      assert Bit(a, 0) <==> Bit(b, 0);
      forall i: nat ensures Bit(a / 2, i) <==> Bit(b / 2, i) {
        assert Bit(a, i + 1) <==> Bit(b, i + 1);
      }
      BitsDetermine(a / 2, b / 2);
    }
  }

  ghost predicate BitsWithin(a: nat, b: nat) {
    forall i: nat :: Bit(a, i) ==> Bit(b, i)
  }

  /** The `a & b == a` test is containment of bits. */
  lemma SubsetByBits(a: nat, b: nat)
    ensures And(a, b) == a <==> BitsWithin(a, b)
  {
    if And(a, b) == a {
      forall i: nat ensures Bit(a, i) ==> Bit(b, i) { AndBit(a, b, i); }
    }
    if BitsWithin(a, b) {
      forall i: nat ensures Bit(And(a, b), i) <==> Bit(a, i) { AndBit(a, b, i); }
      BitsDetermine(And(a, b), a);
    }
  }

  /** The `a & (1 << k) != 0` test is the test of bit `k`. */
  lemma TestOneBit(a: nat, k: nat)
    ensures And(a, Shifted(k)) != 0 <==> Bit(a, k)
  {
    AndBit(a, Shifted(k), k);
    ShiftedBit(k, k);
    ZeroHasNoBit(k);
    if !Bit(a, k) {
      forall i: nat ensures Bit(And(a, Shifted(k)), i) <==> Bit(0, i) {
        AndBit(a, Shifted(k), i);
        ShiftedBit(k, i);
        ZeroHasNoBit(i);
      }
      BitsDetermine(And(a, Shifted(k)), 0);
    }
  }
}

module Powers {
  import opened Prelude
  import opened Bits

  /** A bounded set of operations, one bit each. */
  datatype Powers = Powers(bits: u64) {
    predicate SubsetOf(grant: Powers) { And(bits, grant.bits) == bits }
    predicate IsEmpty() { bits == 0 }
  }

  datatype Power = Power(bit: nat, urn: string)

  function PowerTaxonomy(): seq<Power> {
    [ Power(0, "urn:eudi:mandate:power:present-identity"),
      Power(1, "urn:eudi:mandate:power:sign-document"),
      Power(2, "urn:eudi:mandate:power:authorise-payment"),
      Power(3, "urn:eudi:mandate:power:manage-subscription"),
      Power(4, "urn:eudi:mandate:power:access-records"),
      Power(5, "urn:eudi:mandate:power:administer-account") ]
  }

  /** Every bit the taxonomy names. */
  function TaxonomyMask(taxonomy: seq<Power>): nat {
    if taxonomy == [] then 0 else Or(TaxonomyMask(taxonomy[..|taxonomy| - 1]), Shifted(taxonomy[|taxonomy| - 1].bit))
  }

  method ComputeMask(taxonomy: seq<Power>) returns (mask: nat)
    ensures mask == TaxonomyMask(taxonomy)
  {
    mask := 0;
    var i := 0;
    while i < |taxonomy|
      invariant 0 <= i <= |taxonomy|
      invariant mask == TaxonomyMask(taxonomy[..i])
    {
      assert taxonomy[..i + 1][..i] == taxonomy[..i];
      mask := Or(mask, Shifted(taxonomy[i].bit));
      i := i + 1;
    }
    assert taxonomy[..i] == taxonomy;
  }

  predicate Holds(p: Powers, power: Power) { And(p.bits, Shifted(power.bit)) != 0 }

  /** The names of the powers held, in taxonomy order; bits without a name are dropped. */
  function ScopeUrns(taxonomy: seq<Power>, p: Powers): seq<string> {
    if taxonomy == [] then []
    else (if Holds(p, taxonomy[0]) then [taxonomy[0].urn] else []) + ScopeUrns(taxonomy[1..], p)
  }

  /** The verifier's containment of one list of names in another. */
  predicate UrnsSubset(requested: seq<string>, granted: seq<string>) {
    forall urn :: urn in requested ==> urn in granted
  }

  // ---- Containment of names is containment of the named bits ----

  lemma {:induction false} MaskBit(taxonomy: seq<Power>, i: nat)
    ensures Bit(TaxonomyMask(taxonomy), i) <==> exists e :: e in taxonomy && e.bit == i
  {
    if taxonomy == [] {
      ZeroHasNoBit(i);
    } else {
      var front, last := taxonomy[..|taxonomy| - 1], taxonomy[|taxonomy| - 1];
      MaskBit(front, i);
      OrBit(TaxonomyMask(front), Shifted(last.bit), i);
      ShiftedBit(last.bit, i);
      assert forall e :: e in taxonomy <==> e in front || e == last;
    }
  }

  /** Containment of the masked bits, power by power. */
  lemma MaskedSubset(taxonomy: seq<Power>, a: Powers, b: Powers)
    ensures And(And(a.bits, TaxonomyMask(taxonomy)), b.bits) == And(a.bits, TaxonomyMask(taxonomy)) <==>
            forall e :: e in taxonomy && Bit(a.bits, e.bit) ==> Bit(b.bits, e.bit)
  {
    var masked := And(a.bits, TaxonomyMask(taxonomy));
    SubsetByBits(masked, b.bits);
    forall i: nat ensures Bit(masked, i) <==> Bit(a.bits, i) && exists e :: e in taxonomy && e.bit == i {
      AndBit(a.bits, TaxonomyMask(taxonomy), i);
      MaskBit(taxonomy, i);
    }
    if BitsWithin(masked, b.bits) {
      forall e | e in taxonomy && Bit(a.bits, e.bit) ensures Bit(b.bits, e.bit) {
        assert Bit(masked, e.bit);
      }
    }
    if forall e :: e in taxonomy && Bit(a.bits, e.bit) ==> Bit(b.bits, e.bit) {
      forall i: nat | Bit(masked, i) ensures Bit(b.bits, i) {
        var e :| e in taxonomy && e.bit == i;
        assert Bit(a.bits, e.bit);
      }
    }
  }

  lemma {:induction false} UrnsNamePowers(taxonomy: seq<Power>, p: Powers, urn: string)
    ensures urn in ScopeUrns(taxonomy, p) <==> exists e :: e in taxonomy && Bit(p.bits, e.bit) && e.urn == urn
  {
    if taxonomy != [] {
      TestOneBit(p.bits, taxonomy[0].bit);
      UrnsNamePowers(taxonomy[1..], p, urn);
      assert forall e :: e in taxonomy <==> e == taxonomy[0] || e in taxonomy[1..];
    }
  }

  /** No name stands for two bits. */
  predicate NamesAreBits(taxonomy: seq<Power>) {
    forall i, j :: 0 <= i < |taxonomy| && 0 <= j < |taxonomy| && taxonomy[i].urn == taxonomy[j].urn ==>
      taxonomy[i].bit == taxonomy[j].bit
  }

  /** The wire names of `a` are among those of `b` exactly when the named bits of `a` are bits of `b`. */
  lemma WireNarrowingIsNarrowing(taxonomy: seq<Power>, a: Powers, b: Powers)
    requires NamesAreBits(taxonomy)
    ensures UrnsSubset(ScopeUrns(taxonomy, a), ScopeUrns(taxonomy, b)) <==>
            And(And(a.bits, TaxonomyMask(taxonomy)), b.bits) == And(a.bits, TaxonomyMask(taxonomy))
  {
    MaskedSubset(taxonomy, a, b);
    forall urn
      ensures urn in ScopeUrns(taxonomy, a) <==> exists e :: e in taxonomy && Bit(a.bits, e.bit) && e.urn == urn
      ensures urn in ScopeUrns(taxonomy, b) <==> exists e :: e in taxonomy && Bit(b.bits, e.bit) && e.urn == urn
    {
      UrnsNamePowers(taxonomy, b, urn);
      UrnsNamePowers(taxonomy, a, urn);
    }
    if UrnsSubset(ScopeUrns(taxonomy, a), ScopeUrns(taxonomy, b)) {
      forall e | e in taxonomy && Bit(a.bits, e.bit) ensures Bit(b.bits, e.bit) {
        assert e.urn in ScopeUrns(taxonomy, b);
        var f :| f in taxonomy && Bit(b.bits, f.bit) && f.urn == e.urn;
      }
    }
  }

  /** Whatever is narrowed in the kernel is narrowed on the wire. */
  lemma NarrowedPowersNarrowOnTheWire(taxonomy: seq<Power>, a: Powers, b: Powers)
    requires NamesAreBits(taxonomy) && a.SubsetOf(b)
    ensures UrnsSubset(ScopeUrns(taxonomy, a), ScopeUrns(taxonomy, b))
  {
    var masked := And(a.bits, TaxonomyMask(taxonomy));
    SubsetByBits(a.bits, b.bits);
    SubsetByBits(masked, b.bits);
    forall i: nat ensures Bit(masked, i) ==> Bit(a.bits, i) {
      AndBit(a.bits, TaxonomyMask(taxonomy), i);
    }
    WireNarrowingIsNarrowing(taxonomy, a, b);
  }

  lemma MaskStep(taxonomy: seq<Power>, k: nat)
    requires k < |taxonomy|
    ensures TaxonomyMask(taxonomy[..k + 1]) == Or(TaxonomyMask(taxonomy[..k]), Shifted(taxonomy[k].bit))
  {
    assert taxonomy[..k + 1][..k] == taxonomy[..k];
  }

  lemma SmallOrs()
    ensures Or(0, 1) == 1 && Or(1, 2) == 3 && Or(3, 4) == 7 && Or(7, 8) == 15 && Or(15, 16) == 31 && Or(31, 32) == 63
  {
  }

  lemma SmallShifts()
    ensures Shifted(0) == 1 && Shifted(1) == 2 && Shifted(2) == 4
    ensures Shifted(3) == 8 && Shifted(4) == 16 && Shifted(5) == 32
  {
  }

  /** The pinned taxonomy names the six lowest bits. */
  lemma PinnedMask()
    ensures TaxonomyMask(PowerTaxonomy()) == 63
  {
    hide Or, Shifted;
    var t := PowerTaxonomy();
    SmallOrs();
    SmallShifts();
    for k := 0 to 6
      invariant k <= 6 && (k > 0 ==> TaxonomyMask(t[..k]) == [1, 3, 7, 15, 31, 63][k - 1])
      invariant k == 0 ==> TaxonomyMask(t[..k]) == 0
    {
      MaskStep(t, k);
    }
    assert t[..6] == t;
  }

  /** No two bits of the pinned taxonomy share a name. */
  lemma PinnedTaxonomy()
    ensures NamesAreBits(PowerTaxonomy())
  {
  }
}

module Kernel {
  import opened Prelude
  import opened Powers
  import opened Bits

  type u128 = n: nat | n < 0x1_0000_0000_0000_0000_0000_0000_0000_0000

  datatype IssuerRole = Pid | Qeaa | PublicBodyEaa | NonQualifiedEaa | DevelopmentEvidence | Representation

  datatype CredentialFormat = SdJwtVc | Mdoc

  datatype CredentialProfile = CredentialProfile(
    id: u128,
    role: IssuerRole,
    format: CredentialFormat,
    enabled: bool,
    deviceBindingRequired: bool,
    pidBindingRequired: bool,
    requireHybridPq: bool,
    requireChipLiveness: bool)

  datatype Evidence = Evidence(validFrom: u64, validUntil: u64, freshUntil: u64, accepted: bool) {
    predicate UsableAt(now: u64) {
      accepted && validFrom <= now && now < validUntil && now <= freshUntil
    }
  }

  datatype Authorization = Authorization(evidence: Evidence, profile: u128, subject: u128, dataset: u128)

  datatype TokenBinding = TokenBinding(evidence: Evidence, dpopKey: u128)

  datatype CredentialProof = CredentialProof(evidence: Evidence, nonce: u128, holderKey: u128, possessionValid: bool)

  datatype WalletEvidence = WalletEvidence(
    wia: Evidence, ka: Option<Evidence>, walletNotRevoked: bool, holderKeyApproved: bool)

  datatype SubjectEvidence = SubjectEvidence(
    evidence: Evidence,
    subject: u128,
    loaHigh: bool,
    entitled: bool,
    claimsCurrent: bool,
    dataset: u128,
    pidBindingVerified: bool)

  datatype Delegation = Delegation(
    delegatorEvidence: Evidence, delegator: u128, delegateKey: u128, grant: Powers, mandateNotRevoked: bool)

  datatype ChipLivenessEvidence = ChipLivenessEvidence(
    evidence: Evidence, subject: u128, sodPassiveAuth: bool, chipAuthentic: bool, livenessMatched: bool)

  datatype Request = Request(
    id: u128,
    profile: u128,
    subject: u128,
    dataset: u128,
    dpopKey: u128,
    proof: CredentialProof,
    expiry: u64,
    requestedPowers: Powers)

  datatype Session = Session(
    id: u128,
    profile: CredentialProfile,
    authorization: Authorization,
    token: TokenBinding,
    wallet: WalletEvidence,
    subject: SubjectEvidence,
    expectedNonce: u128,
    nonceUnused: bool,
    issuerEntitled: bool,
    statusReserved: bool,
    alreadyIssued: bool,
    wiaKaMaintenanceEnd: u64,
    hybridPqBound: bool,
    delegation: Option<Delegation>,
    chipEvidence: Option<ChipLivenessEvidence>)

  datatype SignCommand = SignCommand(
    session: u128,
    request: u128,
    profile: u128,
    subject: u128,
    holderKey: u128,
    onBehalfOf: Option<u128>,
    grantedPowers: Powers)

  datatype DecisionError = NotAuthorized

  predicate RoleEvidenceOk(role: IssuerRole, subject: SubjectEvidence) {
    role == Pid ==> subject.loaHigh
  }

  predicate RepresentationOk(s: Session, r: Request, now: u64) {
    s.profile.role == Representation ==>
      match s.delegation
      case Some(d) =>
        && d.delegatorEvidence.UsableAt(now)
        && d.mandateNotRevoked
        && d.delegateKey == r.proof.holderKey
        && !r.requestedPowers.IsEmpty()
        && r.requestedPowers.SubsetOf(d.grant)
      case None => false
  }

  predicate ChipLivenessOk(s: Session, r: Request, now: u64) {
    match s.chipEvidence
    case Some(e) =>
      e.evidence.UsableAt(now) && e.sodPassiveAuth && e.chipAuthentic && e.livenessMatched && e.subject == r.subject
    case None => false
  }

  predicate DeviceBindingOk(p: CredentialProfile, w: WalletEvidence, proof: CredentialProof) {
    if p.deviceBindingRequired
    then w.holderKeyApproved && proof.possessionValid && w.ka.Some?
    else proof.possessionValid
  }

  predicate MayIssue(s: Session, r: Request, now: u64) {
    && s.profile.enabled
    && s.profile.id == r.profile
    && s.issuerEntitled
    && s.authorization.evidence.UsableAt(now)
    && s.authorization.profile == r.profile
    && s.authorization.subject == r.subject
    && s.authorization.dataset == r.dataset
    && s.token.evidence.UsableAt(now)
    && s.token.dpopKey == r.dpopKey
    && r.proof.evidence.UsableAt(now)
    && r.proof.nonce == s.expectedNonce
    && s.nonceUnused
    && r.proof.holderKey == r.dpopKey
    && s.wallet.wia.UsableAt(now)
    && s.wallet.walletNotRevoked
    && DeviceBindingOk(s.profile, s.wallet, r.proof)
    && s.subject.evidence.UsableAt(now)
    && s.subject.subject == r.subject
    && s.subject.dataset == r.dataset
    && s.subject.entitled
    && s.subject.claimsCurrent
    && (!s.profile.pidBindingRequired || s.subject.pidBindingVerified)
    && RoleEvidenceOk(s.profile.role, s.subject)
    && r.expiry <= s.wiaKaMaintenanceEnd
    && s.statusReserved
    && !s.alreadyIssued
    && (!s.profile.requireHybridPq || s.hybridPqBound)
    && RepresentationOk(s, r, now)
    && (!s.profile.requireChipLiveness || ChipLivenessOk(s, r, now))
  }

  /** The sole gate to a signing command. */
  function AuthorizeSign(s: Session, r: Request, now: u64): Result<SignCommand, DecisionError> {
    if MayIssue(s, r, now) then
      var mandated := s.profile.role == Representation && s.delegation.Some?;
      Ok(SignCommand(s.id, r.id, r.profile, r.subject, r.proof.holderKey,
                     if mandated then Some(s.delegation.value.delegator) else None,
                     if mandated then r.requestedPowers else Powers(0)))
    else Err(NotAuthorized)
  }

  // ---- The instants at which a session may issue ----

  /** The instants from `first` to `last`, none when `last` is before `first`. */
  datatype Window = Window(first: int, last: int) {
    predicate Contains(now: int) { first <= now <= last }
  }

  function Max(a: int, b: int): int { if a < b then b else a }

  function Min(a: int, b: int): int { if a < b then a else b }

  function EvidenceWindow(e: Evidence): Window {
    Window(e.validFrom, Min(e.validUntil - 1, e.freshUntil))
  }

  function CommonWindow(es: seq<Evidence>): Window
    requires es != []
  {
    var w := EvidenceWindow(es[0]);
    if |es| == 1 then w
    else
      var rest := CommonWindow(es[1..]);
      Window(Max(w.first, rest.first), Min(w.last, rest.last))
  }

  /** Exactly the evidence whose dates the profile makes count. */
  function DatedEvidence(s: Session, r: Request): (es: seq<Evidence>)
    ensures |es| >= 5
  {
    [s.authorization.evidence, s.token.evidence, r.proof.evidence, s.wallet.wia, s.subject.evidence]
    + (if s.profile.role == Representation && s.delegation.Some? then [s.delegation.value.delegatorEvidence] else [])
    + (if s.profile.requireChipLiveness && s.chipEvidence.Some? then [s.chipEvidence.value.evidence] else [])
  }

  /** The request is for what the session is for: one profile, subject and dataset, the nonce, and one key. */
  predicate SameMatter(s: Session, r: Request) {
    && s.profile.id == s.authorization.profile == r.profile
    && s.authorization.subject == s.subject.subject == r.subject
    && s.authorization.dataset == s.subject.dataset == r.dataset
    && s.expectedNonce == r.proof.nonce
    && s.token.dpopKey == r.dpopKey == r.proof.holderKey
  }

  /** The session's standing: enabled, entitled, reserved, with a fresh nonce and nothing issued yet. */
  predicate InOrder(s: Session, r: Request) {
    && s.profile.enabled && s.issuerEntitled && s.statusReserved && s.nonceUnused && !s.alreadyIssued
    && s.wallet.walletNotRevoked && s.subject.entitled && s.subject.claimsCurrent
    && r.proof.possessionValid && r.expiry <= s.wiaKaMaintenanceEnd
  }

  /** What the profile demands beyond that. */
  ghost predicate MeetsProfile(s: Session, r: Request) {
    && (s.profile.deviceBindingRequired ==> s.wallet.holderKeyApproved && s.wallet.ka.Some?)
    && (s.profile.pidBindingRequired ==> s.subject.pidBindingVerified)
    && (s.profile.requireHybridPq ==> s.hybridPqBound)
    && (s.profile.role == Pid ==> s.subject.loaHigh)
    && (s.profile.role == Representation ==>
          && s.delegation.Some? && s.delegation.value.mandateNotRevoked
          && s.delegation.value.delegateKey == r.proof.holderKey
          && r.requestedPowers.bits != 0 && BitsWithin(r.requestedPowers.bits, s.delegation.value.grant.bits))
    && (s.profile.requireChipLiveness ==>
          && s.chipEvidence.Some? && s.chipEvidence.value.subject == r.subject
          && s.chipEvidence.value.sodPassiveAuth && s.chipEvidence.value.chipAuthentic
          && s.chipEvidence.value.livenessMatched)
  }

  /** Everything the gate asks that no instant can change. */
  ghost predicate TimelessOk(s: Session, r: Request) {
    && SameMatter(s, r) && InOrder(s, r) && MeetsProfile(s, r)
    && forall e :: e in DatedEvidence(s, r) ==> e.accepted
  }

  ghost function IssueWindow(s: Session, r: Request): Window {
    if TimelessOk(s, r) then CommonWindow(DatedEvidence(s, r)) else Window(1, 0)
  }

  lemma {:induction false} CommonWindowExact(es: seq<Evidence>, now: u64)
    requires es != []
    ensures CommonWindow(es).Contains(now) <==> forall e :: e in es ==> EvidenceWindow(e).Contains(now)
  {
    if |es| > 1 {
      CommonWindowExact(es[1..], now);
      assert forall e :: e in es <==> e == es[0] || e in es[1..];
    }
  }

  /** The bounds are tight: the latest start and the earliest end among the evidence. */
  lemma {:induction false} CommonWindowTight(es: seq<Evidence>)
    requires es != []
    ensures exists e :: e in es && CommonWindow(es).first == e.validFrom
    ensures exists e :: e in es && CommonWindow(es).last == Min(e.validUntil - 1, e.freshUntil)
    ensures forall e :: e in es ==>
              && e.validFrom <= CommonWindow(es).first
              && CommonWindow(es).last < e.validUntil && CommonWindow(es).last <= e.freshUntil
  {
    if |es| > 1 {
      CommonWindowTight(es[1..]);
      assert es[0] in es && forall e :: e in es <==> e == es[0] || e in es[1..];
    } else {
      assert es[0] in es && es == [es[0]];
    }
  }

  /** `e` is one of the dated pieces of evidence. */
  predicate IsDated(s: Session, r: Request, e: Evidence) {
    || e == s.authorization.evidence || e == s.token.evidence || e == r.proof.evidence
    || e == s.wallet.wia || e == s.subject.evidence
    || (s.profile.role == Representation && s.delegation.Some? && e == s.delegation.value.delegatorEvidence)
    || (s.profile.requireChipLiveness && s.chipEvidence.Some? && e == s.chipEvidence.value.evidence)
  }

  lemma DatedEvidenceIs(s: Session, r: Request, e: Evidence)
    ensures e in DatedEvidence(s, r) <==> IsDated(s, r, e)
  {
    var always := [s.authorization.evidence, s.token.evidence, r.proof.evidence, s.wallet.wia, s.subject.evidence];
    assert e in always <==> e == always[0] || e == always[1] || e == always[2] || e == always[3] || e == always[4];
  }

  /** All dated evidence is usable. */
  ghost predicate EvidenceUsable(s: Session, r: Request, now: u64) {
    forall e :: e in DatedEvidence(s, r) ==> e.accepted && EvidenceWindow(e).Contains(now)
  }

  lemma UsableInWindow(e: Evidence, now: u64)
    ensures e.UsableAt(now) <==> e.accepted && EvidenceWindow(e).Contains(now)
  {
  }

  lemma EvidenceUsableIs(s: Session, r: Request, now: u64)
    ensures EvidenceUsable(s, r, now) <==>
            && s.authorization.evidence.UsableAt(now) && s.token.evidence.UsableAt(now)
            && r.proof.evidence.UsableAt(now)
            && s.wallet.wia.UsableAt(now) && s.subject.evidence.UsableAt(now)
            && (s.profile.role == Representation && s.delegation.Some? ==>
                  s.delegation.value.delegatorEvidence.UsableAt(now))
            && (s.profile.requireChipLiveness && s.chipEvidence.Some? ==>
                  s.chipEvidence.value.evidence.UsableAt(now))
  {
    hide EvidenceWindow, DatedEvidence;
    forall e
      ensures e in DatedEvidence(s, r) <==> IsDated(s, r, e)
      ensures e.UsableAt(now) <==> e.accepted && EvidenceWindow(e).Contains(now)
    {
      DatedEvidenceIs(s, r, e);
      UsableInWindow(e, now);
    }
    if EvidenceUsable(s, r, now) {
      assert IsDated(s, r, s.authorization.evidence) && IsDated(s, r, s.token.evidence)
        && IsDated(s, r, r.proof.evidence);
      assert IsDated(s, r, s.wallet.wia) && IsDated(s, r, s.subject.evidence);
      if s.profile.role == Representation && s.delegation.Some? {
        assert IsDated(s, r, s.delegation.value.delegatorEvidence);
      }
      if s.profile.requireChipLiveness && s.chipEvidence.Some? {
        assert IsDated(s, r, s.chipEvidence.value.evidence);
      }
    }
  }

  /** The gate asks exactly that request and session match, are in order and meet the profile, with usable evidence. */
  lemma MayIssueExactly(s: Session, r: Request, now: u64)
    ensures MayIssue(s, r, now) <==>
            SameMatter(s, r) && InOrder(s, r) && MeetsProfile(s, r) && EvidenceUsable(s, r, now)
  {
    hide EvidenceUsable, BitsWithin, And;
    EvidenceUsableIs(s, r, now);
    if s.delegation.Some? {
      SubsetByBits(r.requestedPowers.bits, s.delegation.value.grant.bits);
    }
  }

  /** The gate is open exactly inside one computed window of time. */
  lemma MayIssueExactlyInWindow(s: Session, r: Request, now: u64)
    ensures MayIssue(s, r, now) <==> IssueWindow(s, r).Contains(now)
  {
    hide SameMatter, InOrder, MeetsProfile, MayIssue, DatedEvidence;
    MayIssueExactly(s, r, now);
    CommonWindowExact(DatedEvidence(s, r), now);
  }

  /** Between two instants at which a session may issue, it may issue throughout. */
  lemma MayIssueIsConvex(s: Session, r: Request, earlier: u64, now: u64, later: u64)
    requires earlier <= now <= later && MayIssue(s, r, earlier) && MayIssue(s, r, later)
    ensures MayIssue(s, r, now)
  {
    MayIssueExactlyInWindow(s, r, earlier);
    MayIssueExactlyInWindow(s, r, now);
    MayIssueExactlyInWindow(s, r, later);
  }

  /** A command signs for the session's own profile, subject and key, and speaks for a delegator exactly if it is a
      mandate, with powers that are requested, not empty and among the delegator's. */
  lemma CommandExactly(s: Session, r: Request, now: u64)
    ensures AuthorizeSign(s, r, now).Ok? <==> MayIssue(s, r, now)
    ensures AuthorizeSign(s, r, now).Ok? ==>
      var c := AuthorizeSign(s, r, now).value;
      && c.session == s.id && c.request == r.id && c.profile == s.profile.id && c.subject == s.subject.subject
      && c.holderKey == s.token.dpopKey
      && if s.profile.role == Representation then
           && s.delegation.Some? && c.onBehalfOf == Some(s.delegation.value.delegator)
           && c.grantedPowers == r.requestedPowers && c.grantedPowers.bits != 0
           && BitsWithin(c.grantedPowers.bits, s.delegation.value.grant.bits)
         else c.onBehalfOf == None && c.grantedPowers == Powers(0)
  {
    hide MayIssue, EvidenceUsable, BitsWithin;
    MayIssueExactly(s, r, now);
  }

  /** The powers in a signing command reach the wire only as names the delegator's own grant has. */
  lemma MandateStaysWithinGrant(s: Session, r: Request, now: u64, taxonomy: seq<Power>)
    requires NamesAreBits(taxonomy) && AuthorizeSign(s, r, now).Ok? && s.profile.role == Representation
    ensures s.delegation.Some?
    ensures
      var command := AuthorizeSign(s, r, now).value;
      && command.onBehalfOf == Some(s.delegation.value.delegator)
      && command.grantedPowers.bits != 0
      && UrnsSubset(ScopeUrns(taxonomy, command.grantedPowers), ScopeUrns(taxonomy, s.delegation.value.grant))
  {
    NarrowedPowersNarrowOnTheWire(taxonomy, r.requestedPowers, s.delegation.value.grant);
  }
}
