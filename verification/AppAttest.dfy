// App Attest: challenges, registered app instances with their counters, and the file they are kept in.

module AppAttest {
  import opened Prelude

  datatype Instance = Instance(appId: string, publicKey: seq<byte>, signCount: u32)

  type Table = map<string, Instance>

  /** What a valid attestation yields: the application and its key. */
  datatype Attested = Attested(appId: string, publicKey: seq<byte>)

  datatype Assertion = Assertion(signature: seq<byte>, authenticatorData: seq<byte>)

  /** The issuer's configuration and the libraries it calls. `verifies` takes key, authenticator data, client
      data and signature; `attests` takes the attestation, the challenge, the key identifier and the time. */
  datatype Env = Env(
    persistent: bool,
    write: Table -> seq<byte>,
    read: seq<byte> -> Option<Table>,
    decode64: string -> Option<seq<byte>>,
    sha256: string -> seq<byte>,
    verifies: (seq<byte>, seq<byte>, seq<byte>, seq<byte>) -> bool,
    attests: (seq<byte>, string, seq<byte>, u64) -> Option<Attested>)

  /** The serialiser reads back what it wrote. */
  ghost predicate ReadsBack(env: Env) {
    forall t :: env.read(env.write(t)) == Some(t)
  }

  datatype AttestError = InvalidRequest | TooLarge | InvalidAttestation | UnknownInstance | InvalidAssertion

  datatype RegisterRequest = RegisterRequest(keyId: string, attestation: string, challenge: string)

  const MAX_APP_ATTEST_BYTES: nat := 8192
  const CHALLENGE_LIFETIME: u64 := 300

  // ---- Assertions ----

  function CounterOf(authenticatorData: seq<byte>): u32
    requires |authenticatorData| >= 37
  {
    Pow256Widths();
    BigEndianValue(authenticatorData[33..37])
  }

  function VerifyAssertion(env: Env, a: Assertion, clientData: seq<byte>, instance: Instance)
    : Result<u32, AttestError>
  {
    if |a.authenticatorData| < 37 then Err(InvalidAssertion)
    else if a.authenticatorData[..32] != env.sha256(instance.appId) then Err(InvalidAssertion)
    else if !env.verifies(instance.publicKey, a.authenticatorData, clientData, a.signature) then Err(InvalidAssertion)
    else if CounterOf(a.authenticatorData) <= instance.signCount then Err(InvalidAssertion)
    else Ok(CounterOf(a.authenticatorData))
  }

  /** Bytes 33 to 36, the most significant first. */
  function Count(authenticatorData: seq<byte>): u32
    requires |authenticatorData| >= 37
  {
    authenticatorData[33] as int * 0x1000000 + authenticatorData[34] as int * 0x10000
    + authenticatorData[35] as int * 0x100 + authenticatorData[36] as int
  }

  /** The key signed the data for the application. */
  predicate SignedBy(env: Env, a: Assertion, clientData: seq<byte>, appId: string, publicKey: seq<byte>) {
    && |a.authenticatorData| >= 37 && a.authenticatorData[..32] == env.sha256(appId)
    && env.verifies(publicKey, a.authenticatorData, clientData, a.signature)
  }

  lemma CountIs(authenticatorData: seq<byte>)
    requires |authenticatorData| >= 37
    ensures CounterOf(authenticatorData) == Count(authenticatorData)
  {
    FourBytes(authenticatorData[33..37]);
  }

  lemma FourBytes(d: seq<byte>)
    requires |d| == 4
    ensures BigEndianValue(d) ==
            d[0] as int * 0x1000000 + d[1] as int * 0x10000 + d[2] as int * 0x100 + d[3] as int
  {
    assert d[..3][..2] == d[..2] && d[..2][..1] == d[..1] && d[..1][..0] == [];
    assert BigEndianValue(d[..1]) == d[0] as int;
    assert BigEndianValue(d[..2]) == 256 * BigEndianValue(d[..1]) + d[1] as int;
    assert BigEndianValue(d[..3]) == 256 * BigEndianValue(d[..2]) + d[2] as int;
  }

  /** An assertion is accepted exactly if the instance's key signed it for the instance's application with a higher
      counter, and the counter accepted is the one signed. */
  lemma AssertionExactly(env: Env, a: Assertion, clientData: seq<byte>, i: Instance)
    ensures VerifyAssertion(env, a, clientData, i).Ok? <==>
            SignedBy(env, a, clientData, i.appId, i.publicKey) && i.signCount < Count(a.authenticatorData)
    ensures VerifyAssertion(env, a, clientData, i).Ok? ==>
              VerifyAssertion(env, a, clientData, i) == Ok(Count(a.authenticatorData))
  {
    if |a.authenticatorData| >= 37 {
      CountIs(a.authenticatorData);
    }
  }

  // ---- Registration, between its two regions ----

  function CheckRegistration(env: Env, r: RegisterRequest, now: u64): (checked: Result<Instance, AttestError>)
    ensures checked.Ok? ==> checked.value.signCount == 0
  {
    var keyId := env.decode64(r.keyId);
    var attestation := env.decode64(r.attestation);
    if keyId.None? || attestation.None? then Err(InvalidRequest)
    else if |attestation.value| > MAX_APP_ATTEST_BYTES then Err(TooLarge)
    else
      match env.attests(attestation.value, r.challenge, keyId.value, now)
      case None => Err(InvalidAttestation)
      case Some(found) => Ok(Instance(found.appId, found.publicKey, 0))
  }

  /** The request's attestation, of at most 8192 bytes, attests the application's key for the key identifier and the
      challenge. */
  predicate Attests(env: Env, r: RegisterRequest, now: u64, appId: string, publicKey: seq<byte>) {
    && env.decode64(r.keyId).Some? && env.decode64(r.attestation).Some?
    && |env.decode64(r.attestation).value| <= 8192
    && env.attests(env.decode64(r.attestation).value, r.challenge, env.decode64(r.keyId).value, now)
       == Some(Attested(appId, publicKey))
  }

  lemma RegistrationExactly(env: Env, r: RegisterRequest, now: u64, i: Instance)
    ensures CheckRegistration(env, r, now) == Ok(i) <==>
            Attests(env, r, now, i.appId, i.publicKey) && i.signCount == 0
  {
  }

  // ---- The lock regions ----

  datatype Memory = Memory(challenges: map<string, u64>, instances: Table, file: Option<seq<byte>>)

  function IssueChallenge(v: Memory, challenge: string, now: u64): Memory {
    var live := map c | c in v.challenges && v.challenges[c] > now :: v.challenges[c];
    v.(challenges := live[challenge := SaturatingAdd(now, CHALLENGE_LIFETIME)])
  }

  /** The challenge is gone either way. */
  function TakeChallenge(v: Memory, challenge: string): Memory {
    v.(challenges := v.challenges - {challenge})
  }

  predicate ChallengeFresh(v: Memory, challenge: string, now: u64) {
    challenge in v.challenges && v.challenges[challenge] > now
  }

  /** `writes` says whether the file system obliges. */
  function Saved(env: Env, v: Memory, writes: bool): Memory {
    if env.persistent && writes then v.(file := Some(env.write(v.instances))) else v
  }

  function InsertInstance(env: Env, v: Memory, keyId: string, instance: Instance, writes: bool): Memory {
    Saved(env, v.(instances := v.instances[keyId := instance]), writes)
  }

  function AdvanceCounter(env: Env, v: Memory, keyId: string, count: u32, writes: bool): Memory
    requires keyId in v.instances
  {
    Saved(env, v.(instances := v.instances[keyId := v.instances[keyId].(signCount := count)]), writes)
  }

  /** An assertion whose encoding is malformed is absent. */
  function CheckAssertion(env: Env, v: Memory, keyId: string, a: Option<Assertion>, clientData: seq<byte>)
    : Result<u32, AttestError>
  {
    if keyId !in v.instances then Err(UnknownInstance)
    else if a.None? then Err(InvalidAssertion)
    else VerifyAssertion(env, a.value, clientData, v.instances[keyId])
  }

  /** A missing or unreadable file is an empty table. */
  function Load(env: Env, file: Option<seq<byte>>): Table {
    match file
    case None => map[]
    case Some(b) => if env.read(b).Some? then env.read(b).value else map[]
  }

  function Restarted(env: Env, v: Memory): Memory {
    Memory(map[], if env.persistent then Load(env, v.file) else map[], v.file)
  }

  class AttestState {
    var challenges: map<string, u64>
    var instances: Table
    var file: Option<seq<byte>>

    function Now(): Memory
      reads this
    {
      Memory(challenges, instances, file)
    }

    /** Starts the service on whatever file is there. */
    constructor (env: Env, found: Option<seq<byte>>)
      ensures Now() == Restarted(env, Memory(map[], map[], found))
    {
      challenges, file := map[], found;
      instances := if env.persistent then Load(env, found) else map[];
    }

    method NewChallenge(challenge: string, now: u64)
      modifies this
      ensures Now() == IssueChallenge(old(Now()), challenge, now)
    {
      challenges := map c | c in challenges && challenges[c] > now :: challenges[c];
      challenges := challenges[challenge := SaturatingAdd(now, CHALLENGE_LIFETIME)];
    }

    method ConsumeChallenge(challenge: string, now: u64) returns (r: Result<(), AttestError>)
      modifies this
      ensures Now() == TakeChallenge(old(Now()), challenge)
      ensures r == if ChallengeFresh(old(Now()), challenge, now) then Ok(()) else Err(InvalidRequest)
    {
      var expiry := if challenge in challenges then Some(challenges[challenge]) else None;
      challenges := challenges - {challenge};
      if expiry.Some? && expiry.value > now {
        return Ok(());
      }
      return Err(InvalidRequest);
    }

    method SaveInstances(env: Env, writes: bool)
      modifies this
      ensures Now() == Saved(env, old(Now()), writes)
    {
      if env.persistent && writes {
        file := Some(env.write(instances));
      }
    }

    method Register(env: Env, keyId: string, instance: Instance, writes: bool)
      modifies this
      ensures Now() == InsertInstance(env, old(Now()), keyId, instance, writes)
    {
      instances := instances[keyId := instance];
      SaveInstances(env, writes);
    }

    method VerifyAppAttestAssertion(env: Env, keyId: string, a: Option<Assertion>, clientData: seq<byte>, writes: bool)
      returns (r: Result<(), AttestError>)
      modifies this
      ensures
        match CheckAssertion(env, old(Now()), keyId, a, clientData)
        case Err(e) => r == Err(e) && Now() == old(Now())
        case Ok(count) => r == Ok(()) && Now() == AdvanceCounter(env, old(Now()), keyId, count, writes)
    {
      if keyId !in instances {
        return Err(UnknownInstance);
      }
      if a.None? {
        return Err(InvalidAssertion);
      }
      var count := VerifyAssertion(env, a.value, clientData, instances[keyId]);
      if count.Err? {
        return Err(count.error);
      }
      instances := instances[keyId := instances[keyId].(signCount := count.value)];
      SaveInstances(env, writes);
      return Ok(());
    }
  }
}

module AppAttestRuns {
  import opened Prelude
  import opened AppAttest

  datatype Event =
    | EvChallenge(challenge: string, expiresAt: u64)
    | EvConsumed(challenge: string, now: u64)
    | EvRegistered(keyId: string, challenge: string, appId: string, publicKey: seq<byte>)
    | EvAccepted(keyId: string, count: u32, assertion: Assertion, clientData: seq<byte>)

  /** A registration between its two regions. */
  datatype Held = Held(request: RegisterRequest, now: u64)

  /** `synced`: no table was changed since the last successful write. */
  datatype System = System(m: Memory, tasks: map<nat, Held>, drawn: set<string>, synced: bool, history: seq<Event>)

  datatype Action =
    | Challenge(challenge: string, now: u64)
    | BeginRegister(task: nat, request: RegisterRequest, now: u64)
    | EndRegister(task: nat, writes: bool)
    | Assert(keyId: string, assertion: Option<Assertion>, clientData: seq<byte>, writes: bool)
    | Restart

  const START: System := System(Memory(map[], map[], None), map[], {}, true, [])

  function Apply(env: Env, s: System, a: Action): System {
    match a
    case Challenge(challenge, now) =>
      s.(m := IssueChallenge(s.m, challenge, now),
         drawn := s.drawn + {challenge},
         history := s.history + [EvChallenge(challenge, SaturatingAdd(now, CHALLENGE_LIFETIME))])
    case BeginRegister(task, r, now) =>
      var taken := s.(m := TakeChallenge(s.m, r.challenge));
      if !ChallengeFresh(s.m, r.challenge, now) then taken
      else taken.(tasks := s.tasks[task := Held(r, now)], history := s.history + [EvConsumed(r.challenge, now)])
    case EndRegister(task, writes) =>
      if task !in s.tasks then s
      else
        var held := s.tasks[task];
        var done := s.(tasks := s.tasks - {task});
        var checked := CheckRegistration(env, held.request, held.now);
        if checked.Err? then done
        else
          done.(m := InsertInstance(env, s.m, held.request.keyId, checked.value, writes),
                synced := env.persistent && writes,
                history := s.history + [EvRegistered(held.request.keyId, held.request.challenge,
                                                     checked.value.appId, checked.value.publicKey)])
    case Assert(keyId, assertion, clientData, writes) =>
      var checked := CheckAssertion(env, s.m, keyId, assertion, clientData);
      if checked.Err? then s
      else
        s.(m := AdvanceCounter(env, s.m, keyId, checked.value, writes),
           synced := env.persistent && writes,
           history := s.history + [EvAccepted(keyId, checked.value, assertion.value, clientData)])
    case Restart => s.(m := Restarted(env, s.m), tasks := map[], synced := true)
  }

  /** Challenges never repeat and a new request takes a new task. */
  predicate Legal(s: System, a: Action) {
    && (a.Challenge? ==> a.challenge !in s.drawn)
    && (a.BeginRegister? ==> a.task !in s.tasks)
  }

  function Run(env: Env, actions: seq<Action>): System {
    if actions == [] then START else Apply(env, Run(env, actions[..|actions| - 1]), actions[|actions| - 1])
  }

  predicate LegalRun(env: Env, actions: seq<Action>) {
    actions == []
    || (LegalRun(env, actions[..|actions| - 1]) && Legal(Run(env, actions[..|actions| - 1]), actions[|actions| - 1]))
  }

  /** No restart comes between a change of the table and the next successful write. */
  predicate RestartsSynced(env: Env, actions: seq<Action>) {
    actions == []
    || (RestartsSynced(env, actions[..|actions| - 1])
        && (actions[|actions| - 1].Restart? ==> Run(env, actions[..|actions| - 1]).synced))
  }

  lemma RunExtends(env: Env, actions: seq<Action>, a: Action)
    ensures Run(env, actions + [a]) == Apply(env, Run(env, actions), a)
    ensures LegalRun(env, actions + [a]) <==> LegalRun(env, actions) && Legal(Run(env, actions), a)
    ensures RestartsSynced(env, actions + [a])
        <==> RestartsSynced(env, actions) && (a.Restart? ==> Run(env, actions).synced)
  {
    hide Apply, Legal;
    assert (actions + [a])[..|actions + [a]| - 1] == actions;
  }

  // ---- Memory and file ----

  ghost predicate FileCurrent(env: Env, s: System) {
    s.synced ==> Restarted(env, s.m).instances == s.m.instances
  }

  lemma StepFile(env: Env, s: System, a: Action)
    requires ReadsBack(env) && FileCurrent(env, s)
    ensures FileCurrent(env, Apply(env, s, a))
  {
    hide CheckAssertion, CheckRegistration;
  }

  /** When nothing is unsaved, the file holds the table: a restart then loses no registration and no counter. */
  lemma {:induction false} FileHoldsTable(env: Env, actions: seq<Action>)
    requires ReadsBack(env)
    ensures FileCurrent(env, Run(env, actions))
    decreases |actions|
  {
    hide Apply;
    if actions != [] {
      FileHoldsTable(env, actions[..|actions| - 1]);
      StepFile(env, Run(env, actions[..|actions| - 1]), actions[|actions| - 1]);
    }
  }

  // ---- Counters ----

  /** The instance the history gives a key: as last registered, with the counter last accepted since. */
  function LastInstance(h: seq<Event>, keyId: string): Option<Instance> {
    if h == [] then None
    else
      var before := LastInstance(h[..|h| - 1], keyId);
      match h[|h| - 1]
      case EvRegistered(k, _, appId, publicKey) => if k == keyId then Some(Instance(appId, publicKey, 0)) else before
      case EvAccepted(k, count, _, _) =>
        if k == keyId && before.Some? then Some(before.value.(signCount := count)) else before
      case _ => before
  }

  function Lookup(t: Table, keyId: string): Option<Instance> {
    if keyId in t then Some(t[keyId]) else None
  }

  ghost predicate Tracks(s: System) {
    forall keyId :: Lookup(s.m.instances, keyId) == LastInstance(s.history, keyId)
  }

  /** The assertion is signed by the instance's key, and its counter is above the instance's. */
  predicate Advances(env: Env, i: Instance, count: u32, a: Assertion, clientData: seq<byte>) {
    SignedBy(env, a, clientData, i.appId, i.publicKey) && count == Count(a.authenticatorData) > i.signCount
  }

  predicate Climbing(env: Env, before: seq<Event>, e: Event) {
    e.EvAccepted? ==>
      var i := LastInstance(before, e.keyId);
      i.Some? && Advances(env, i.value, e.count, e.assertion, e.clientData)
  }

  /** Each accepted assertion is signed by the key last registered, with a counter above the one the history gives. */
  ghost predicate Climbs(env: Env, h: seq<Event>) {
    forall i: nat | i < |h| :: Climbing(env, h[..i], h[i])
  }

  lemma LastInstanceAppend(h: seq<Event>, e: Event, keyId: string)
    ensures
      LastInstance(h + [e], keyId) ==
      match e
      case EvRegistered(k, _, appId, publicKey) =>
        if k == keyId then Some(Instance(appId, publicKey, 0)) else LastInstance(h, keyId)
      case EvAccepted(k, count, _, _) =>
        if k == keyId && LastInstance(h, keyId).Some?
        then Some(LastInstance(h, keyId).value.(signCount := count))
        else LastInstance(h, keyId)
      case _ => LastInstance(h, keyId)
  {
    assert (h + [e])[..|h|] == h;
  }

  lemma ClimbsAppend(env: Env, h: seq<Event>, e: Event)
    requires Climbs(env, h) && Climbing(env, h, e)
    ensures Climbs(env, h + [e])
  {
    hide Climbing;
    forall i: nat | i < |h + [e]|
      ensures (h + [e])[..i] == if i < |h| then h[..i] else h
    {
    }
  }

  lemma StepTracks(env: Env, s: System, a: Action)
    requires Tracks(s) && Climbs(env, s.history)
    requires a.Restart? ==> Restarted(env, s.m).instances == s.m.instances
    ensures Tracks(Apply(env, s, a)) && Climbs(env, Apply(env, s, a).history)
  {
    hide VerifyAssertion, CheckRegistration, SignedBy, Count;
    var t := Apply(env, s, a);
    if t.history != s.history {
      var e := t.history[|s.history|];
      assert t.history == s.history + [e];
      forall keyId
        ensures Lookup(t.m.instances, keyId) == LastInstance(t.history, keyId)
      {
        LastInstanceAppend(s.history, e, keyId);
      }
      if e.EvAccepted? {
        AcceptedClimbs(env, s, a);
      }
      ClimbsAppend(env, s.history, e);
    }
  }

  lemma AcceptedClimbs(env: Env, s: System, a: Action)
    requires a.Assert?
    ensures
      var r := CheckAssertion(env, s.m, a.keyId, a.assertion, a.clientData);
      r.Ok? ==> && a.keyId in s.m.instances && a.assertion.Some?
                && Advances(env, s.m.instances[a.keyId], r.value, a.assertion.value, a.clientData)
  {
    hide VerifyAssertion;
    if a.keyId in s.m.instances && a.assertion.Some? {
      AssertionExactly(env, a.assertion.value, a.clientData, s.m.instances[a.keyId]);
    }
  }

  lemma {:induction false} RunTracks(env: Env, actions: seq<Action>)
    requires ReadsBack(env) && RestartsSynced(env, actions)
    ensures Tracks(Run(env, actions)) && Climbs(env, Run(env, actions).history)
    decreases |actions|
  {
    hide Apply, Restarted, Climbing;
    if actions != [] {
      RunTracks(env, actions[..|actions| - 1]);
      FileHoldsTable(env, actions[..|actions| - 1]);
      StepTracks(env, Run(env, actions[..|actions| - 1]), actions[|actions| - 1]);
    }
  }

  /** The counter of a key stays at or above `count` from its acceptance to the next registration of the key. */
  lemma {:induction false} CountHolds(env: Env, h: seq<Event>, i: nat, j: nat, keyId: string, count: u32)
    requires Climbs(env, h) && i < j <= |h| && h[i].EvAccepted? && h[i].keyId == keyId && h[i].count == count
    requires forall m :: i < m < j ==> !(h[m].EvRegistered? && h[m].keyId == keyId)
    ensures LastInstance(h[..j], keyId).Some? && count <= LastInstance(h[..j], keyId).value.signCount
    decreases j
  {
    assert h[..j] == h[..j - 1] + [h[j - 1]];
    hide SignedBy;
    assert Climbing(env, h[..j - 1], h[j - 1]);
    LastInstanceAppend(h[..j - 1], h[j - 1], keyId);
    if i < j - 1 {
      CountHolds(env, h, i, j - 1, keyId, count);
    }
  }

  /** Over any run whose restarts find everything saved: between two registrations of a key, its accepted counters
      strictly increase, restarts or not. So no assertion is accepted twice in that time. */
  lemma {:induction false} CountersIncrease(env: Env, actions: seq<Action>, i: nat, j: nat)
    requires ReadsBack(env) && RestartsSynced(env, actions)
    requires i < j < |Run(env, actions).history|
    requires
      var h := Run(env, actions).history;
      && h[i].EvAccepted? && h[j].EvAccepted? && h[i].keyId == h[j].keyId
      && (forall m :: i < m < j ==> !(h[m].EvRegistered? && h[m].keyId == h[i].keyId))
    ensures Run(env, actions).history[i].count < Run(env, actions).history[j].count
  {
    hide Run, RestartsSynced;
    RunTracks(env, actions);
    var h := Run(env, actions).history;
    CountHolds(env, h, i, j, h[i].keyId, h[i].count);
    assert Climbing(env, h[..j], h[j]);
  }

  /** Over such a run an assertion is accepted exactly if the key last registered signed it, for its application, with a
      counter above the last one accepted. */
  lemma {:induction false} AcceptedExactly(env: Env, actions: seq<Action>, keyId: string, a: Assertion,
                                           clientData: seq<byte>, writes: bool)
    requires ReadsBack(env) && RestartsSynced(env, actions)
    ensures
      var h, i := Run(env, actions).history, LastInstance(Run(env, actions).history, keyId);
      Run(env, actions + [Assert(keyId, Some(a), clientData, writes)]).history ==
      if i.Some? && SignedBy(env, a, clientData, i.value.appId, i.value.publicKey)
         && i.value.signCount < Count(a.authenticatorData)
      then h + [EvAccepted(keyId, Count(a.authenticatorData), a, clientData)]
      else h
  {
    hide Run, RestartsSynced, VerifyAssertion, SignedBy, Count;
    var s, act := Run(env, actions), Assert(keyId, Some(a), clientData, writes);
    RunTracks(env, actions);
    RunExtends(env, actions, act);
    assert Lookup(s.m.instances, keyId) == LastInstance(s.history, keyId);
    if keyId in s.m.instances {
      AssertionExactly(env, a, clientData, s.m.instances[keyId]);
    }
  }

  // ---- What stands behind a key ----

  /** The history registered the key for the application. */
  ghost predicate RegisteredAs(h: seq<Event>, keyId: string, appId: string, publicKey: seq<byte>) {
    exists challenge :: EvRegistered(keyId, challenge, appId, publicKey) in h
  }

  ghost predicate AllRegistered(h: seq<Event>, t: Table) {
    forall keyId :: keyId in t ==> RegisteredAs(h, keyId, t[keyId].appId, t[keyId].publicKey)
  }

  /** A request for that key and challenge held an attestation of it. */
  ghost predicate AttestedFor(env: Env, keyId: string, challenge: string, appId: string, publicKey: seq<byte>) {
    exists attestation, now :: Attests(env, RegisterRequest(keyId, attestation, challenge), now, appId, publicKey)
  }

  ghost predicate Founded(env: Env, h: seq<Event>, e: Event) {
    match e
    case EvRegistered(keyId, challenge, appId, publicKey) => AttestedFor(env, keyId, challenge, appId, publicKey)
    case EvAccepted(keyId, count, a, clientData) =>
      exists appId, publicKey ::
        && RegisteredAs(h, keyId, appId, publicKey) && SignedBy(env, a, clientData, appId, publicKey)
        && count == Count(a.authenticatorData)
    case _ => true
  }

  ghost predicate AllFounded(env: Env, s: System) {
    && AllRegistered(s.history, s.m.instances) && AllRegistered(s.history, Load(env, s.m.file))
    && forall e :: e in s.history ==> Founded(env, s.history, e)
  }

  lemma FoundedLater(env: Env, h: seq<Event>, e: Event, f: Event)
    requires Founded(env, h, e)
    ensures Founded(env, h + [f], e)
  {
    hide SignedBy, Count;
    if e.EvAccepted? {
      var appId, publicKey :| RegisteredAs(h, e.keyId, appId, publicKey)
                              && SignedBy(env, e.assertion, e.clientData, appId, publicKey);
      RegisteredLater(h, e.keyId, appId, publicKey, f);
    }
  }

  lemma RegisteredLater(h: seq<Event>, keyId: string, appId: string, publicKey: seq<byte>, f: Event)
    requires RegisteredAs(h, keyId, appId, publicKey)
    ensures RegisteredAs(h + [f], keyId, appId, publicKey)
  {
    var challenge :| EvRegistered(keyId, challenge, appId, publicKey) in h;
    assert EvRegistered(keyId, challenge, appId, publicKey) in h + [f];
  }

  lemma EventFounded(env: Env, s: System, a: Action)
    requires AllFounded(env, s)
    ensures
      var h := Apply(env, s, a).history;
      h == s.history || (|h| == |s.history| + 1 && h == s.history + [h[|s.history|]] && Founded(env, h, h[|s.history|]))
  {
    hide CheckRegistration, VerifyAssertion, SignedBy, Count, Attests;
    var h := Apply(env, s, a).history;
    if h != s.history {
      var e := h[|s.history|];
      assert h == s.history + [e];
      match a
      case EndRegister(task, _) =>
        var r, now := s.tasks[task].request, s.tasks[task].now;
        RegistrationExactly(env, r, now, CheckRegistration(env, r, now).value);
        assert r == RegisterRequest(r.keyId, r.attestation, r.challenge);
      case Assert(keyId, assertion, clientData, _) =>
        AssertionExactly(env, assertion.value, clientData, s.m.instances[keyId]);
        var i := s.m.instances[keyId];
        RegisteredLater(s.history, keyId, i.appId, i.publicKey, e);
      case _ =>
    }
  }

  lemma TablesFounded(env: Env, s: System, a: Action)
    requires ReadsBack(env) && AllFounded(env, s)
    ensures
      var t := Apply(env, s, a);
      AllRegistered(t.history, t.m.instances) && AllRegistered(t.history, Load(env, t.m.file))
  {
    hide CheckRegistration, VerifyAssertion, Founded;
    var t := Apply(env, s, a);
    forall keyId, appId, publicKey | RegisteredAs(s.history, keyId, appId, publicKey)
      ensures RegisteredAs(t.history, keyId, appId, publicKey)
    {
      var challenge :| EvRegistered(keyId, challenge, appId, publicKey) in s.history;
      assert EvRegistered(keyId, challenge, appId, publicKey) in t.history;
    }
    if t.history != s.history && t.history[|s.history|].EvRegistered? {
      var e := t.history[|s.history|];
      assert e in t.history && RegisteredAs(t.history, e.keyId, e.appId, e.publicKey);
    }
  }

  /** In every run, whatever writes fail and whatever restarts come: each registration has an attestation of its key
      behind it, and each accepted assertion is signed by a key registered under its key identifier, for that
      application. */
  lemma {:induction false} RunFounded(env: Env, actions: seq<Action>)
    requires ReadsBack(env)
    ensures AllFounded(env, Run(env, actions))
    decreases |actions|
  {
    hide Apply, Founded, AllRegistered;
    if actions != [] {
      var s, a := Run(env, actions[..|actions| - 1]), actions[|actions| - 1];
      RunFounded(env, actions[..|actions| - 1]);
      EventFounded(env, s, a);
      TablesFounded(env, s, a);
      var h := Apply(env, s, a).history;
      forall e | e in h
        ensures Founded(env, h, e)
      {
        if e in s.history && h != s.history {
          FoundedLater(env, s.history, e, h[|s.history|]);
        }
      }
    } else {
      NothingFounded(env);
    }
  }

  lemma NothingFounded(env: Env)
    ensures AllFounded(env, START)
  {
  }

  // ---- Challenges ----

  predicate Clash(e: Event, f: Event) {
    match (e, f)
    case (EvChallenge(c, _), EvChallenge(c', _)) => c == c'
    case (EvConsumed(c, _), EvConsumed(c', _)) => c == c'
    case (EvRegistered(_, c, _, _), EvRegistered(_, c', _, _)) => c == c'
    case _ => false
  }

  ghost predicate OnceOnly(h: seq<Event>) {
    forall i, j :: 0 <= i < j < |h| ==> !Clash(h[i], h[j])
  }

  ghost predicate FreshlyConsumed(h: seq<Event>, challenge: string, now: u64) {
    exists expiresAt: u64 :: EvChallenge(challenge, expiresAt) in h && now < expiresAt
  }

  /** What must have happened before. */
  ghost predicate Justified(h: seq<Event>, e: Event) {
    match e
    case EvConsumed(challenge, now) => FreshlyConsumed(h, challenge, now)
    case EvRegistered(_, challenge, _, _) => exists now: u64 :: EvConsumed(challenge, now) in h
    case _ => true
  }

  ghost predicate Chained(h: seq<Event>) {
    forall i: nat | i < |h| :: Justified(h[..i], h[i])
  }

  ghost predicate ChallengeHeld(tasks: map<nat, Held>, challenge: string) {
    exists t :: t in tasks && tasks[t].request.challenge == challenge
  }

  ghost predicate Spent(s: System, e: Event) {
    match e
    case EvChallenge(c, _) => c in s.drawn
    case EvConsumed(c, _) => c in s.drawn && c !in s.m.challenges
    case EvRegistered(_, c, _, _) => c in s.drawn && c !in s.m.challenges && !ChallengeHeld(s.tasks, c)
    case EvAccepted(_, _, _, _) => true
  }

  ghost predicate ChallengesSound(s: System) {
    forall c :: c in s.m.challenges ==> c in s.drawn && EvChallenge(c, s.m.challenges[c]) in s.history
  }

  /** Each held registration's challenge was consumed, and is not outstanding. */
  ghost predicate HeldConsumed(s: System) {
    forall t :: t in s.tasks ==>
      && s.tasks[t].request.challenge in s.drawn && s.tasks[t].request.challenge !in s.m.challenges
      && EvConsumed(s.tasks[t].request.challenge, s.tasks[t].now) in s.history
  }

  ghost predicate HeldApart(tasks: map<nat, Held>) {
    forall t, u :: t in tasks && u in tasks && t != u ==> tasks[t].request.challenge != tasks[u].request.challenge
  }

  ghost predicate AllSpent(s: System) {
    forall e :: e in s.history ==> Spent(s, e)
  }

  ghost predicate Sound(s: System) {
    ChallengesSound(s) && HeldConsumed(s) && HeldApart(s.tasks) && AllSpent(s)
  }

  lemma StepOutstanding(env: Env, s: System, a: Action)
    requires ChallengesSound(s) && Legal(s, a)
    ensures ChallengesSound(Apply(env, s, a))
  {
    hide CheckAssertion, CheckRegistration;
  }

  lemma StepHeld(env: Env, s: System, a: Action)
    requires ChallengesSound(s) && HeldConsumed(s) && Legal(s, a)
    ensures HeldConsumed(Apply(env, s, a))
  {
    hide CheckAssertion, CheckRegistration;
  }

  lemma StepApart(env: Env, s: System, a: Action)
    requires HeldConsumed(s) && HeldApart(s.tasks)
    ensures HeldApart(Apply(env, s, a).tasks)
  {
    hide CheckAssertion, CheckRegistration;
  }

  lemma StepSpent(env: Env, s: System, a: Action)
    requires Sound(s) && Legal(s, a)
    ensures AllSpent(Apply(env, s, a))
  {
    hide CheckAssertion, CheckRegistration;
  }

  lemma StepOnce(env: Env, s: System, a: Action)
    requires Sound(s) && Legal(s, a) && OnceOnly(s.history)
    ensures OnceOnly(Apply(env, s, a).history)
  {
    hide CheckAssertion, CheckRegistration;
    var h := Apply(env, s, a).history;
    if |h| > |s.history| {
      var e := h[|s.history|];
      forall i: nat | i < |s.history|
        ensures !Clash(s.history[i], e)
      {
        assert Spent(s, s.history[i]);
      }
    }
  }

  lemma ChainedAppend(h: seq<Event>, e: Event)
    requires Chained(h) && Justified(h, e)
    ensures Chained(h + [e])
  {
    hide Justified;
    forall i: nat | i < |h + [e]|
      ensures (h + [e])[..i] == if i < |h| then h[..i] else h
    {
    }
  }

  lemma StepJustified(env: Env, s: System, a: Action)
    requires ChallengesSound(s) && HeldConsumed(s)
    ensures
      var h := Apply(env, s, a).history;
      h == s.history || exists e :: h == s.history + [e] && Justified(s.history, e)
  {
    hide CheckAssertion, CheckRegistration;
    var h := Apply(env, s, a).history;
    if h != s.history {
      var e := h[|s.history|];
      assert h == s.history + [e];
      assert Justified(s.history, e);
    }
  }

  lemma StepChained(env: Env, s: System, a: Action)
    requires ChallengesSound(s) && HeldConsumed(s) && Chained(s.history)
    ensures Chained(Apply(env, s, a).history)
  {
    hide Apply, Justified, Chained, ChallengesSound, HeldConsumed;
    StepJustified(env, s, a);
    var h := Apply(env, s, a).history;
    if h != s.history {
      var e :| h == s.history + [e] && Justified(s.history, e);
      ChainedAppend(s.history, e);
    }
  }

  lemma {:induction false} RunChallenges(env: Env, actions: seq<Action>)
    requires LegalRun(env, actions)
    ensures var s := Run(env, actions); Sound(s) && OnceOnly(s.history) && Chained(s.history)
    decreases |actions|
  {
    hide Apply, Legal;
    if actions != [] {
      var s := Run(env, actions[..|actions| - 1]);
      RunChallenges(env, actions[..|actions| - 1]);
      StepOutstanding(env, s, actions[|actions| - 1]);
      StepHeld(env, s, actions[|actions| - 1]);
      StepApart(env, s, actions[|actions| - 1]);
      StepSpent(env, s, actions[|actions| - 1]);
      StepOnce(env, s, actions[|actions| - 1]);
      StepChained(env, s, actions[|actions| - 1]);
    }
  }

  /** The challenge `c` was handed out, then taken before it expired, all before the moment `i`. */
  ghost predicate TakenInTime(h: seq<Event>, i: nat, c: string) {
    exists a: nat, b: nat :: a < b < i <= |h| && h[a].EvChallenge? && h[a].challenge == c
                             && h[b].EvConsumed? && h[b].challenge == c && h[b].now < h[a].expiresAt
  }

  lemma RegistrationTookChallenge(h: seq<Event>, i: nat)
    requires Chained(h) && i < |h| && h[i].EvRegistered?
    ensures TakenInTime(h, i, h[i].challenge)
  {
    var c := h[i].challenge;
    assert Justified(h[..i], h[i]);
    var now: u64 :| EvConsumed(c, now) in h[..i];
    var b: nat :| b < i && h[b] == EvConsumed(c, now);
    assert Justified(h[..b], h[b]);
    var expiresAt: u64 :| EvChallenge(c, expiresAt) in h[..b] && now < expiresAt;
    var a: nat :| a < b && h[a] == EvChallenge(c, expiresAt);
  }

  /** In every legal run, with any restarts and any failed writes: a registration has behind it a challenge that was
      handed out once, taken once and before it expired, and no other registration has the same one. */
  lemma {:induction false} ChallengeBacksOneRegistration(env: Env, actions: seq<Action>, i: nat)
    requires LegalRun(env, actions)
    requires i < |Run(env, actions).history| && Run(env, actions).history[i].EvRegistered?
    ensures
      var h := Run(env, actions).history;
      && TakenInTime(h, i, h[i].challenge)
      && OnceOnly(h)
      && (forall j: nat | j < |h| && j != i && h[j].EvRegistered? :: h[j].challenge != h[i].challenge)
  {
    hide Run, LegalRun, Sound, TakenInTime, Chained;
    RunChallenges(env, actions);
    RegistrationTookChallenge(Run(env, actions).history, i);
  }

  // ---- When a write fails ----

  /** The table holds for the key an instance that the assertion verifies against, with a lower counter. */
  predicate VerifiesIn(env: Env, t: Table, keyId: string, a: Assertion, clientData: seq<byte>) {
    && keyId in t && SignedBy(env, a, clientData, t[keyId].appId, t[keyId].publicKey)
    && t[keyId].signCount < Count(a.authenticatorData)
  }

  /** The file's table does. */
  predicate FileAccepts(env: Env, m: Memory, keyId: string, a: Assertion, clientData: seq<byte>) {
    env.persistent && VerifiesIn(env, Load(env, m.file), keyId, a, clientData)
  }

  /** If the assertion is accepted as things are, it is accepted after a restart. */
  predicate Covered(env: Env, m: Memory, keyId: string, a: Assertion, clientData: seq<byte>) {
    VerifiesIn(env, m.instances, keyId, a, clientData) ==> FileAccepts(env, m, keyId, a, clientData)
  }

  /** It is accepted neither way. */
  predicate Refused(env: Env, m: Memory, keyId: string, a: Assertion, clientData: seq<byte>) {
    !VerifiesIn(env, m.instances, keyId, a, clientData) && !FileAccepts(env, m, keyId, a, clientData)
  }

  predicate Reregisters(env: Env, s: System, act: Action, keyId: string) {
    && act.EndRegister? && act.task in s.tasks && s.tasks[act.task].request.keyId == keyId
    && CheckRegistration(env, s.tasks[act.task].request, s.tasks[act.task].now).Ok?
  }

  /** The step accepts the assertion: it is logged. */
  predicate Accepts(env: Env, s: System, keyId: string, a: Assertion, clientData: seq<byte>, writes: bool) {
    |Apply(env, s, Assert(keyId, Some(a), clientData, writes)).history| > |s.history|
  }

  lemma AcceptsExactly(env: Env, s: System, keyId: string, a: Assertion, clientData: seq<byte>, writes: bool)
    ensures Accepts(env, s, keyId, a, clientData, writes) <==> VerifiesIn(env, s.m.instances, keyId, a, clientData)
    ensures Accepts(env, s, keyId, a, clientData, writes) ==>
              var t := Apply(env, s, Assert(keyId, Some(a), clientData, writes));
              && t.m == AdvanceCounter(env, s.m, keyId, Count(a.authenticatorData), writes)
              && t.history == s.history + [EvAccepted(keyId, Count(a.authenticatorData), a, clientData)]
  {
    hide VerifyAssertion, SignedBy, Count;
    if keyId in s.m.instances {
      AssertionExactly(env, a, clientData, s.m.instances[keyId]);
    }
  }

  /** A step leaves the key's instance, raises its counter, or restarts; it writes the whole table or nothing. */
  predicate KeyStep(env: Env, m: Memory, w: Memory, keyId: string) {
    || w == Restarted(env, m)
    || (&& (keyId in w.instances ==>
              && keyId in m.instances && m.instances[keyId].signCount <= w.instances[keyId].signCount
              && w.instances[keyId] == m.instances[keyId].(signCount := w.instances[keyId].signCount))
        && (w.file == m.file || (env.persistent && w.file == Some(env.write(w.instances)))))
  }

  lemma StepOfKey(env: Env, s: System, act: Action, keyId: string)
    requires !Reregisters(env, s, act, keyId)
    ensures KeyStep(env, s.m, Apply(env, s, act).m, keyId)
  {
    hide CheckRegistration, Load;
  }

  lemma StepKeepsReplay(env: Env, m: Memory, w: Memory, keyId: string, a: Assertion, clientData: seq<byte>)
    requires ReadsBack(env) && KeyStep(env, m, w, keyId)
    ensures Covered(env, m, keyId, a, clientData) ==> Covered(env, w, keyId, a, clientData)
    ensures Refused(env, m, keyId, a, clientData) ==> Refused(env, w, keyId, a, clientData)
  {
    hide SignedBy, Count;
  }

  /** From moment `n` on, no event registers the key. */
  ghost predicate Unregistered(env: Env, actions: seq<Action>, n: nat, keyId: string)
    requires n <= |actions|
  {
    var before, h := Run(env, actions[..n]).history, Run(env, actions).history;
    forall k: nat | |before| <= k < |h| :: !(h[k].EvRegistered? && h[k].keyId == keyId)
  }

  lemma StepExtends(env: Env, s: System, act: Action)
    ensures s.history <= Apply(env, s, act).history
  {
    hide CheckAssertion, CheckRegistration;
  }

  lemma {:induction false} HistoryGrows(env: Env, actions: seq<Action>, n: nat)
    requires n <= |actions|
    ensures Run(env, actions[..n]).history <= Run(env, actions).history
    decreases |actions|
  {
    hide Apply;
    if n == |actions| {
      assert actions[..n] == actions;
    } else {
      var shorter := actions[..|actions| - 1];
      assert shorter[..n] == actions[..n];
      HistoryGrows(env, shorter, n);
      StepExtends(env, Run(env, shorter), actions[|actions| - 1]);
    }
  }

  lemma ReregisteringIsLogged(env: Env, s: System, act: Action, keyId: string)
    requires Reregisters(env, s, act, keyId)
    ensures
      var h := Apply(env, s, act).history;
      |h| == |s.history| + 1 && h[|s.history|].EvRegistered? && h[|s.history|].keyId == keyId
  {
    hide CheckRegistration;
  }

  /** Without a registration of the key in between, both judgements last from moment `n` on. */
  lemma {:induction false} ReplayLasts(env: Env, actions: seq<Action>, n: nat, keyId: string, a: Assertion,
                                       clientData: seq<byte>)
    requires ReadsBack(env) && n <= |actions| && Unregistered(env, actions, n, keyId)
    ensures
      Covered(env, Run(env, actions[..n]).m, keyId, a, clientData) ==>
      Covered(env, Run(env, actions).m, keyId, a, clientData)
    ensures
      Refused(env, Run(env, actions[..n]).m, keyId, a, clientData) ==>
      Refused(env, Run(env, actions).m, keyId, a, clientData)
    decreases |actions|
  {
    hide Apply, Covered, Refused, Reregisters;
    if n == |actions| {
      assert actions[..n] == actions;
    } else {
      var shorter, act := actions[..|actions| - 1], actions[|actions| - 1];
      var s := Run(env, shorter);
      assert shorter[..n] == actions[..n];
      HistoryGrows(env, shorter, n);
      StepExtends(env, s, act);
      assert Unregistered(env, shorter, n, keyId) by {
        var h := Run(env, actions).history;
        assert forall k: nat | k < |s.history| :: h[k] == s.history[k];
      }
      ReplayLasts(env, shorter, n, keyId, a, clientData);
      if Reregisters(env, s, act, keyId) {
        ReregisteringIsLogged(env, s, act, keyId);
        assert false;
      }
      StepOfKey(env, s, act, keyId);
      StepKeepsReplay(env, s.m, Apply(env, s, act).m, keyId, a, clientData);
    }
  }

  /** Step `n` accepted the assertion, and the key has not been registered since. */
  ghost predicate AcceptedAt(env: Env, actions: seq<Action>, n: nat, keyId: string, a: Assertion,
                             clientData: seq<byte>)
  {
    && n < |actions| && actions[n].Assert?
    && actions[n].keyId == keyId && actions[n].assertion == Some(a) && actions[n].clientData == clientData
    && Accepts(env, Run(env, actions[..n]), keyId, a, clientData, actions[n].writes)
    && Unregistered(env, actions, n + 1, keyId)
  }

  /** The continuation `more` ends by accepting the same assertion, and never registers the key. */
  ghost predicate AcceptedAgain(env: Env, actions: seq<Action>, more: seq<Action>, keyId: string, a: Assertion,
                                clientData: seq<byte>)
  {
    && LegalRun(env, actions + more) && Unregistered(env, actions + more, |actions|, keyId)
    && more != [] && more[|more| - 1] == Assert(keyId, Some(a), clientData, true)
    && Accepts(env, Run(env, actions + more[..|more| - 1]), keyId, a, clientData, true)
  }

  lemma AcceptanceCovers(env: Env, s: System, keyId: string, a: Assertion, clientData: seq<byte>, writes: bool)
    requires Accepts(env, s, keyId, a, clientData, writes)
    ensures
      var t := Apply(env, s, Assert(keyId, Some(a), clientData, writes));
      !VerifiesIn(env, t.m.instances, keyId, a, clientData)
  {
    hide Apply, Accepts, SignedBy, Count;
    AcceptsExactly(env, s, keyId, a, clientData, writes);
  }

  lemma PrefixOfRun(env: Env, actions: seq<Action>, n: nat)
    requires n < |actions|
    ensures Run(env, actions[..n + 1]) == Apply(env, Run(env, actions[..n]), actions[n])
  {
    hide Apply;
    assert actions[..n + 1] == actions[..n] + [actions[n]];
    RunExtends(env, actions[..n], actions[n]);
  }

  /** What may be accepted again is accepted after a restart. */
  lemma RestartAccepts(env: Env, actions: seq<Action>, keyId: string, a: Assertion, clientData: seq<byte>)
    requires LegalRun(env, actions) && FileAccepts(env, Run(env, actions).m, keyId, a, clientData)
    ensures AcceptedAgain(env, actions, [Restart, Assert(keyId, Some(a), clientData, true)], keyId, a, clientData)
  {
    hide Run, LegalRun, RestartsSynced, SignedBy, Count, Load, Accepts;
    var again := Assert(keyId, Some(a), clientData, true);
    var more := [Restart, again];
    assert actions + more == (actions + [Restart]) + [again] && more[..1] == [Restart];
    RunExtends(env, actions, Restart);
    RunExtends(env, actions + [Restart], again);
    AcceptsExactly(env, Run(env, actions + [Restart]), keyId, a, clientData, true);
    assert (actions + more)[..|actions|] == actions;
  }

  /** After any legal run in which an assertion was accepted and its key not registered since, some legal continuation
      that does not register the key accepts it again, exactly if the file's table holds for the key an instance it
      verifies against with a lower counter. */
  lemma ReplayAfterRestart(env: Env, actions: seq<Action>, n: nat, keyId: string, a: Assertion, clientData: seq<byte>)
    requires ReadsBack(env) && LegalRun(env, actions) && AcceptedAt(env, actions, n, keyId, a, clientData)
    ensures (exists more :: AcceptedAgain(env, actions, more, keyId, a, clientData)) <==>
            FileAccepts(env, Run(env, actions).m, keyId, a, clientData)
  {
    hide Apply, Run, LegalRun, SignedBy, Count, Load, Accepts;
    if FileAccepts(env, Run(env, actions).m, keyId, a, clientData) {
      RestartAccepts(env, actions, keyId, a, clientData);
    }
    PrefixOfRun(env, actions, n);
    AcceptanceCovers(env, Run(env, actions[..n]), keyId, a, clientData, actions[n].writes);
    ReplayLasts(env, actions, n + 1, keyId, a, clientData);
    forall more | AcceptedAgain(env, actions, more, keyId, a, clientData)
      ensures FileAccepts(env, Run(env, actions).m, keyId, a, clientData)
    {
      var shorter := actions + more[..|more| - 1];
      AcceptsExactly(env, Run(env, shorter), keyId, a, clientData, true);
      UnregisteredEarlier(env, actions + more, shorter, |actions|, keyId);
      assert shorter[..|actions|] == actions;
      ReplayLasts(env, shorter, |actions|, keyId, a, clientData);
    }
  }

  lemma UnregisteredEarlier(env: Env, actions: seq<Action>, shorter: seq<Action>, n: nat, keyId: string)
    requires n <= |shorter| && shorter <= actions && Unregistered(env, actions, n, keyId)
    ensures Unregistered(env, shorter, n, keyId)
  {
    hide Run;
    assert shorter == actions[..|shorter|] && shorter[..n] == actions[..n];
    HistoryGrows(env, actions, |shorter|);
  }

  // ---- Once it is written ----

  /** Until a restart, memory refuses what it has accepted. */
  lemma {:induction false} MemoryRefuses(env: Env, actions: seq<Action>, n: nat, keyId: string, a: Assertion,
                                         clientData: seq<byte>)
    requires AcceptedAt(env, actions, n, keyId, a, clientData)
    requires forall j: nat | n < j < |actions| :: !actions[j].Restart?
    ensures !VerifiesIn(env, Run(env, actions).m.instances, keyId, a, clientData)
    decreases |actions|
  {
    hide Apply, SignedBy, Count, Reregisters, Accepts;
    var shorter, act := actions[..|actions| - 1], actions[|actions| - 1];
    var s := Run(env, shorter);
    if n == |actions| - 1 {
      AcceptanceCovers(env, s, keyId, a, clientData, act.writes);
    } else {
      assert shorter[..n] == actions[..n] && shorter[n] == actions[n];
      assert shorter[..n + 1] == actions[..n + 1];
      UnregisteredEarlier(env, actions, shorter, n + 1, keyId);
      MemoryRefuses(env, shorter, n, keyId, a, clientData);
      if Reregisters(env, s, act, keyId) {
        HistoryGrows(env, shorter, n + 1);
        ReregisteringIsLogged(env, s, act, keyId);
        assert false;
      }
      MemoryStep(env, s, act, keyId, a, clientData);
    }
  }

  lemma MemoryStep(env: Env, s: System, act: Action, keyId: string, a: Assertion, clientData: seq<byte>)
    requires !Reregisters(env, s, act, keyId) && !act.Restart? && !VerifiesIn(env, s.m.instances, keyId, a, clientData)
    ensures !VerifiesIn(env, Apply(env, s, act).m.instances, keyId, a, clientData)
  {
    hide CheckRegistration, SignedBy, Count;
    if act.Assert? && act.assertion.Some? && act.keyId in s.m.instances {
      AssertionExactly(env, act.assertion.value, act.clientData, s.m.instances[act.keyId]);
    }
  }

  /** Once, before any restart, everything was written after the acceptance, the assertion is never accepted again. */
  lemma WrittenIsFinal(env: Env, actions: seq<Action>, n: nat, k: nat, keyId: string, a: Assertion,
                       clientData: seq<byte>)
    requires ReadsBack(env) && LegalRun(env, actions) && AcceptedAt(env, actions, n, keyId, a, clientData)
    requires n < k <= |actions| && Run(env, actions[..k]).synced
    requires forall j: nat | n < j < k :: !actions[j].Restart?
    ensures forall more :: !AcceptedAgain(env, actions, more, keyId, a, clientData)
  {
    hide Apply, Run, LegalRun, SignedBy, Count, Load, Accepts;
    var earlier := actions[..k];
    assert earlier[..n] == actions[..n] && earlier[n] == actions[n] && earlier[..n + 1] == actions[..n + 1];
    UnregisteredEarlier(env, actions, earlier, n + 1, keyId);
    MemoryRefuses(env, earlier, n, keyId, a, clientData);
    FileHoldsTable(env, earlier);
    HistoryGrows(env, earlier, n + 1);
    ReplayLasts(env, actions, k, keyId, a, clientData);
    ReplayAfterRestart(env, actions, n, keyId, a, clientData);
  }

  /** A run in which one assertion is accepted twice: the write of its counter fails, and the service restarts. */
  lemma AcceptedTwice(env: Env, r: RegisterRequest, appId: string, publicKey: seq<byte>,
                      a: Assertion, clientData: seq<byte>)
    returns (actions: seq<Action>)
    requires ReadsBack(env) && env.persistent && Attests(env, r, 0, appId, publicKey)
    requires SignedBy(env, a, clientData, appId, publicKey) && Count(a.authenticatorData) > 0
    ensures LegalRun(env, actions)
    ensures
      var e := EvAccepted(r.keyId, Count(a.authenticatorData), a, clientData);
      Run(env, actions).history
      == [EvChallenge(r.challenge, 300), EvConsumed(r.challenge, 0),
          EvRegistered(r.keyId, r.challenge, appId, publicKey), e, e]
  {
    hide Run, LegalRun, RestartsSynced, Attests, SignedBy, Count, Accepts;
    var registered := [Challenge(r.challenge, 0), BeginRegister(0, r, 0), EndRegister(0, true)];
    Registers(env, r, appId, publicKey);
    var s := Run(env, registered);
    var accept := Assert(r.keyId, Some(a), clientData, false);
    RunExtends(env, registered, accept);
    RunExtends(env, registered + [accept], Restart);
    RunExtends(env, registered + [accept] + [Restart], accept);
    AcceptsExactly(env, s, r.keyId, a, clientData, false);
    var back := Run(env, registered + [accept] + [Restart]);
    assert back.m.instances == s.m.instances;
    AcceptsExactly(env, back, r.keyId, a, clientData, false);
    actions := registered + [accept] + [Restart] + [accept];
  }

  lemma Registers(env: Env, r: RegisterRequest, appId: string, publicKey: seq<byte>)
    requires ReadsBack(env) && env.persistent && Attests(env, r, 0, appId, publicKey)
    ensures
      var actions := [Challenge(r.challenge, 0), BeginRegister(0, r, 0), EndRegister(0, true)];
      var s := Run(env, actions);
      && LegalRun(env, actions)
      && s.m.instances == map[r.keyId := Instance(appId, publicKey, 0)] && Load(env, s.m.file) == s.m.instances
      && s.history == [EvChallenge(r.challenge, 300), EvConsumed(r.challenge, 0),
                       EvRegistered(r.keyId, r.challenge, appId, publicKey)]
  {
    hide Run, LegalRun, RestartsSynced, CheckRegistration, Attests;
    var one, two, three := Challenge(r.challenge, 0), BeginRegister(0, r, 0), EndRegister(0, true);
    RegistrationExactly(env, r, 0, Instance(appId, publicKey, 0));
    NothingRun(env);
    RunExtends(env, [], one);
    RunExtends(env, [one], two);
    RunExtends(env, [one] + [two], three);
    assert [] + [one] == [one] && [one] + [two] + [three] == [one, two, three];
  }

  lemma NothingRun(env: Env)
    ensures Run(env, []) == START && LegalRun(env, [])
  {
  }
}
