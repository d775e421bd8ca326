/** The three demo actors and the browser that collects their evaluations. */
module DemoActors {
  import opened Outcomes
  import opened Texts
  import opened Sequences
  import opened OrderedMaps
  import opened Protocol
  import opened Threshold
  import opened Equivocation
  import opened Wires

  // ---- the actors -----------------------------------------------------------------------

  datatype Actor = Actor(
    number: int, machineId: Text, keyFingerprint: Text, signer: Text, x: Text, y: Text, endpoint: Text)

  /** The canonical chain state an actor reads. */
  datatype Canonical = Canonical(
    bindingDigest: Text, policyStatus: int, request: ActionRequest, accounting: Accounting, history: seq<HistoryEntry>,
    occurrenceCount: nat, lastAccountingAt: int, spendCheckpoint: Text, finalizedAt: int)

  datatype Authorization = Authorization(issuedAt: nat, expiry: nat, signature: Text)

  /** The policy-dependent functions of the protocol package, for one decrypted policy, and the digest
      its owner signs to authorise ingress at an actor, given by machine id and fingerprint, within a
      time window. */
  datatype PolicyFacts = PolicyFacts(
    evaluate: (ActionRequest, SpendState) -> EvaluationResult,
    bindingDigest: Text, commitment: Text, balance: (Text, Accounting) -> Text, owner: Text,
    ingressDigest: (Text, Text, nat, nat) -> Text)

  /** Signing with an actor's key. */
  datatype Keys = Keys(sign: (Text, Text) -> Text)

  const MAX_AUTHORIZATION_WINDOW_SECONDS: nat := 3600
  const MAX_CLOCK_SKEW_SECONDS: nat := 60

  /** The bounded window of `verifyIngressAuthorization`. */
  predicate InWindow(a: Authorization, now: int) {
    && a.issuedAt <= now + MAX_CLOCK_SKEW_SECONDS && now <= a.expiry
    && a.issuedAt < a.expiry <= a.issuedAt + MAX_AUTHORIZATION_WINDOW_SECONDS
    && now <= a.issuedAt + MAX_AUTHORIZATION_WINDOW_SECONDS
  }

  predicate OwnerSigned(p: Primitives, policy: PolicyFacts, actor: Actor, a: Authorization) {
    var digest := policy.ingressDigest(actor.machineId, actor.keyFingerprint, a.issuedAt, a.expiry);
    var recovered := p.recover(digest, a.signature);
    recovered.Some? && GetAddress(p, recovered.value) == GetAddress(p, policy.owner)
  }

  /** An authorisation is good for an hour and a minute at most: no two clock readings at which
      it is accepted lie further apart, and none lies outside its own window by more than the skew. */
  lemma AuthorizationIsBounded(a: Authorization, now: int, later: int)
    requires InWindow(a, now) && InWindow(a, later)
    ensures a.issuedAt - MAX_CLOCK_SKEW_SECONDS <= now <= a.expiry
    ensures later - now <= MAX_AUTHORIZATION_WINDOW_SECONDS + MAX_CLOCK_SKEW_SECONDS
    ensures forall t :: now <= t <= later ==> InWindow(a, t)
  {
  }

  function StateFor(policy: PolicyFacts, c: Canonical): SpendState {
    SpendState(c.accounting.available, c.history, c.occurrenceCount, c.lastAccountingAt, c.spendCheckpoint,
               policy.balance(c.request.asset, c.accounting), c.request.createdAt, None, None)
  }

  /** The evaluation path of `processDemoActorRequest`. */
  function Evaluate(
    p: Primitives, keys: Keys, policy: PolicyFacts, actor: Actor, requestId: Text, a: Authorization, c: Canonical,
    now: int)
    : Result<ActorEnvelope>
  {
    if !InWindow(a, now) then Err("demo ingress authorization is stale or outside its bounded window")
    else if !OwnerSigned(p, policy, actor, a) then Err("demo ingress owner authorization is invalid")
    else if c.policyStatus != 1 then Err("demo policy is not active")
    else if c.request.createdAt > c.finalizedAt || c.finalizedAt > c.request.expiry then
      Err("canonical demo request time is invalid or expired")
    else if ToLower(c.bindingDigest) != ToLower(policy.bindingDigest) then
      Err("on-chain demo policy binding does not match ciphertext")
    else if ToLower(c.request.requestId) != ToLower(requestId)
         || ToLower(c.request.policyCommitment) != ToLower(policy.commitment) then
      Err("canonical demo request binding is invalid")
    else if ToLower(c.request.balanceCheckpoint) != ToLower(policy.balance(c.request.asset, c.accounting)) then
      Err("demo request balance checkpoint is stale")
    else
      var base := policy.evaluate(c.request, StateFor(policy, c));
      var result := base.(machineId := actor.machineId, keyFingerprint := actor.keyFingerprint);
      Ok(ActorEnvelope(actor.number,
           Envelope(result, p.evaluationDigest(result), actor.signer,
                    keys.sign(actor.signer, p.attestationDigest(result)))))
  }

  /** When an actor evaluates, and what: exactly when the owner has signed this actor's ingress for a
      window of at most an hour that now lies in, up to the skew, the policy is active, the state is
      final within the request's lifetime, and policy, request and balance are the ones asked about.
      It then signs, as itself, what the policy makes of the state it read, at the request's creation. */
  lemma EvaluatesExactly(
    p: Primitives, keys: Keys, policy: PolicyFacts, actor: Actor, requestId: Text, a: Authorization, c: Canonical,
    now: int)
    ensures var r := Evaluate(p, keys, policy, actor, requestId, a, c, now);
      var digest := policy.ingressDigest(actor.machineId, actor.keyFingerprint, a.issuedAt, a.expiry);
      var signer := p.recover(digest, a.signature);
      && (r.Ok? <==>
            && signer.Some? && GetAddress(p, signer.value) == GetAddress(p, policy.owner)
            && a.issuedAt < a.expiry <= a.issuedAt + 3600 && a.issuedAt - 60 <= now <= a.expiry
            && c.policyStatus == 1 && c.request.createdAt <= c.finalizedAt <= c.request.expiry
            && ToLower(c.bindingDigest) == ToLower(policy.bindingDigest)
            && ToLower(c.request.requestId) == ToLower(requestId)
            && ToLower(c.request.policyCommitment) == ToLower(policy.commitment)
            && ToLower(c.request.balanceCheckpoint) == ToLower(policy.balance(c.request.asset, c.accounting)))
      && (r.Ok? ==>
            var e := r.value.envelope;
            && r.value.actor == actor.number && e.signer == actor.signer
            && e.digest == p.evaluationDigest(e.result)
            && e.signature == keys.sign(actor.signer, p.attestationDigest(e.result))
            && exists st: SpendState ::
                 && Judges(st, c)
                 && e.result == policy.evaluate(c.request, st).(machineId := actor.machineId,
                                                                 keyFingerprint := actor.keyFingerprint))
  {
    hide ToLower, GetAddress;
    if Evaluate(p, keys, policy, actor, requestId, a, c, now).Ok? {
      assert Judges(StateFor(policy, c), c);
    }
  }

  /** The state is the one that was read, at the time the request was created, without readings. */
  ghost predicate Judges(st: SpendState, c: Canonical) {
    && st.availableBalance == c.accounting.available && st.history == c.history
    && st.occurrenceCount == c.occurrenceCount && st.lastAccountingAt == c.lastAccountingAt
    && st.spendCheckpoint == c.spendCheckpoint && ToLower(st.balanceCheckpoint) == ToLower(c.request.balanceCheckpoint)
    && st.now == c.request.createdAt && st.ftso == None && st.fdc == None
  }

  /** Two reads of the chain that agree on the request and on the policy's spending; they may differ
      in how far the chain was final, in the policy's status and in the accounting. */
  predicate SameSpend(c: Canonical, d: Canonical) {
    && c.request == d.request && c.history == d.history && c.occurrenceCount == d.occurrenceCount
    && c.lastAccountingAt == d.lastAccountingAt && c.spendCheckpoint == d.spendCheckpoint
  }

  /** No two accountings have the same balance checkpoint. */
  ghost predicate BalanceCommits(policy: PolicyFacts, asset: Text) {
    forall x, y :: ToLower(policy.balance(asset, x)) == ToLower(policy.balance(asset, y)) ==> x == y
  }

  /** The request commits to the accounting of the state. */
  predicate IsCurrent(policy: PolicyFacts, c: Canonical) {
    ToLower(c.request.balanceCheckpoint) == ToLower(policy.balance(c.request.asset, c.accounting))
  }

  lemma AcceptedIsCurrent(
    p: Primitives, keys: Keys, policy: PolicyFacts, x: Actor, requestId: Text, a: Authorization, c: Canonical, now: int)
    requires Evaluate(p, keys, policy, x, requestId, a, c, now).Ok?
    ensures IsCurrent(policy, c)
  {
    hide InWindow, ToLower;
  }

  /** Actors for which the request is current have read the same accounting. */
  lemma CurrentMeansSameAccounting(policy: PolicyFacts, c: Canonical, d: Canonical)
    requires SameSpend(c, d) && BalanceCommits(policy, c.request.asset) && IsCurrent(policy, c) && IsCurrent(policy, d)
    ensures c.accounting == d.accounting && StateFor(policy, c) == StateFor(policy, d)
  {
    hide ToLower;
  }

  /** Any two actors with the same policy sign the same digest, at any two times, final blocks and
      accountings at which both accept: acceptance itself fixes the accounting. */
  lemma ActorsAgree(
    p: Primitives, keys: Keys, policy: PolicyFacts, requestId: Text,
    x: Actor, a: Authorization, c: Canonical, now: int, y: Actor, b: Authorization, d: Canonical, later: int)
    requires DigestIgnoresMachine(p) && SameSpend(c, d) && BalanceCommits(policy, c.request.asset)
    requires Evaluate(p, keys, policy, x, requestId, a, c, now).Ok?
    requires Evaluate(p, keys, policy, y, requestId, b, d, later).Ok?
    ensures c.accounting == d.accounting
    ensures Evaluate(p, keys, policy, x, requestId, a, c, now).value.envelope.digest
         == Evaluate(p, keys, policy, y, requestId, b, d, later).value.envelope.digest
  {
    AcceptedIsCurrent(p, keys, policy, x, requestId, a, c, now);
    AcceptedIsCurrent(p, keys, policy, y, requestId, b, d, later);
    CurrentMeansSameAccounting(policy, c, d);
    hide InWindow, ToLower, DigestIgnoresMachine, BalanceCommits, IsCurrent, StateFor;
    var base := policy.evaluate(c.request, StateFor(policy, c));
    MachineDoesNotMatter(p, base, x.machineId, x.keyFingerprint);
    MachineDoesNotMatter(p, base, y.machineId, y.keyFingerprint);
  }

  lemma MachineDoesNotMatter(p: Primitives, r: EvaluationResult, machineId: Text, keyFingerprint: Text)
    requires DigestIgnoresMachine(p)
    ensures p.evaluationDigest(r.(machineId := machineId, keyFingerprint := keyFingerprint)) == p.evaluationDigest(r)
  {
  }

  // ---- the configuration ----------------------------------------------------------------

  /** The actor at its place, numbered in order, with an endpoint on HTTPS or on this host. */
  ghost predicate WellFormedActor(p: Primitives, actors: seq<Actor>, i: nat)
    requires i < |actors|
  {
    var a := actors[i];
    && a.number == i + 1 && IsBytes32(a.machineId) && IsBytes32(a.keyFingerprint) && IsAddress(p, a.signer)
    && IsBytes32(a.x) && IsBytes32(a.y) && p.parseUrl(a.endpoint).Some?
    && var url := p.parseUrl(a.endpoint).value;
       || url.protocol == Lit("https:")
       || (url.protocol == Lit("http:") && url.hostname in {Lit("127.0.0.1"), Lit("localhost")})
  }

  /** The four things no two actors may share. */
  function Marks(p: Primitives, a: Actor): (Text, Text, Text, Text) {
    (ToLower(a.machineId), ToLower(a.keyFingerprint), ToLower(GetAddress(p, a.signer)),
     match p.parseUrl(a.endpoint) case Some(url) => url.href case None => a.endpoint)
  }

  predicate Clash(p: Primitives, a: Actor, b: Actor) {
    var m, n := Marks(p, a), Marks(p, b);
    m.0 == n.0 || m.1 == n.1 || m.2 == n.2 || m.3 == n.3
  }

  ghost predicate SoundActors(p: Primitives, actors: seq<Actor>, n: nat)
    requires n <= |actors|
  {
    && (forall i :: 0 <= i < n ==> WellFormedActor(p, actors, i))
    && (forall i, j :: 0 <= i < j < n ==> !Clash(p, actors[i], actors[j]))
  }

  /** The marks seen so far, one set per kind. */
  datatype Seen = Seen(ids: set<Text>, fingerprints: set<Text>, signers: set<Text>, endpoints: set<Text>)

  ghost predicate Records(p: Primitives, seen: Seen, actors: seq<Actor>, n: nat)
    requires n <= |actors|
  {
    && seen.ids == (set i | 0 <= i < n :: Marks(p, actors[i]).0)
    && seen.fingerprints == (set i | 0 <= i < n :: Marks(p, actors[i]).1)
    && seen.signers == (set i | 0 <= i < n :: Marks(p, actors[i]).2)
    && seen.endpoints == (set i | 0 <= i < n :: Marks(p, actors[i]).3)
  }

  lemma ClashIsRecorded(p: Primitives, seen: Seen, actors: seq<Actor>, n: nat)
    requires n < |actors| && Records(p, seen, actors, n)
    ensures var m := Marks(p, actors[n]);
      && ((m.0 in seen.ids || m.1 in seen.fingerprints || m.2 in seen.signers || m.3 in seen.endpoints)
          <==> exists i :: 0 <= i < n && Clash(p, actors[i], actors[n]))
      && var next := Seen(seen.ids + {m.0}, seen.fingerprints + {m.1}, seen.signers + {m.2}, seen.endpoints + {m.3});
         Records(p, next, actors, n + 1)
  {
    hide Marks;
  }

  datatype Assertions = Assertions(
    hardwareTee: bool, registeredProductionMachines: bool, independentOperators: bool, sealedPersistence: bool,
    productionFccRelease: bool)

  datatype DemoConfig = DemoConfig(
    mode: Text, chainId: int, deploymentBlock: int, extensionId: Text, codeVersion: Text, actors: seq<Actor>,
    assertions: Assertions)

  /** The demo's own domain on Coston2, with nothing claimed as verified. */
  ghost predicate InDemoDomain(p: Primitives, config: DemoConfig) {
    && config.mode == Lit("SIMULATED_FCC_COSTON2_TESTNET_V1") && config.chainId == 114 && config.deploymentBlock > 0
    && config.extensionId == p.keccak(Lit("PAYGUARD_INTERACTIVE_DEMO_EXTENSION_V1"))
    && config.codeVersion == p.keccak(Lit("PAYGUARD_INTERACTIVE_DEMO_CODE_V1"))
  }

  /** `validateDemoConfig`: true when it returns. */
  method ValidateDemoConfig(p: Primitives, config: DemoConfig) returns (ok: bool)
    ensures ok <==>
      && InDemoDomain(p, config) && SoundActors(p, config.actors, |config.actors|)
      && config.assertions == Assertions(false, false, false, false, false)
  {
    hide Marks, Clash, Records, Lit, IsAddress, IsBytes32;
    if config.mode != Lit("SIMULATED_FCC_COSTON2_TESTNET_V1") || config.chainId != 114 || config.deploymentBlock <= 0
       || config.extensionId != p.keccak(Lit("PAYGUARD_INTERACTIVE_DEMO_EXTENSION_V1"))
       || config.codeVersion != p.keccak(Lit("PAYGUARD_INTERACTIVE_DEMO_CODE_V1")) {
      return false;
    }
    var actors := config.actors;
    var seen := Seen({}, {}, {}, {});
    NothingRecorded(p, actors);
    for i := 0 to |actors|
      invariant SoundActors(p, actors, i) && Records(p, seen, actors, i)
    {
      var a := actors[i];
      var endpoint := p.parseUrl(a.endpoint);
      if a.number != i + 1 || !IsBytes32(a.machineId) || !IsBytes32(a.keyFingerprint) || !IsAddress(p, a.signer)
         || !IsBytes32(a.x) || !IsBytes32(a.y) || endpoint.None? {
        assert !WellFormedActor(p, actors, i);
        return false;
      }
      if endpoint.value.protocol != Lit("https:")
         && !(endpoint.value.protocol == Lit("http:")
              && endpoint.value.hostname in {Lit("127.0.0.1"), Lit("localhost")}) {
        assert !WellFormedActor(p, actors, i);
        return false;
      }
      ClashIsRecorded(p, seen, actors, i);
      var m := Marks(p, actors[i]);
      if m.0 in seen.ids || m.1 in seen.fingerprints || m.2 in seen.signers || m.3 in seen.endpoints {
        return false;
      }
      seen := Seen(seen.ids + {m.0}, seen.fingerprints + {m.1}, seen.signers + {m.2}, seen.endpoints + {m.3});
    }
    var a := config.assertions;
    return !a.hardwareTee && !a.registeredProductionMachines && !a.independentOperators && !a.sealedPersistence
           && !a.productionFccRelease;
  }

  lemma NothingRecorded(p: Primitives, actors: seq<Actor>)
    ensures Records(p, Seen({}, {}, {}, {}), actors, 0)
  {
  }

  // ---- the browser ----------------------------------------------------------------------

  /** The checks of `collectDemoEvaluations` on a parsed envelope. */
  predicate ClientAccepts(p: Primitives, actor: Actor, request: ActionRequest, commitment: Text, a: ActorEnvelope) {
    var e, r := a.envelope, a.envelope.result;
    && a.actor == actor.number && ToLower(r.request.requestId) == ToLower(request.requestId)
    && p.encodable(r.request) && ToLower(p.requestHash(r.request)) == ToLower(p.requestHash(request))
    && ToLower(r.request.policyCommitment) == ToLower(commitment)
    && MachineOf(e) == ToLower(actor.machineId) && ToLower(r.keyFingerprint) == ToLower(actor.keyFingerprint)
    && p.resultEncodable(r) && ToLower(p.evaluationDigest(r)) == DigestOf(e)
    && GetAddress(p, e.signer) == GetAddress(p, actor.signer)
    && var recovered := p.recover(p.attestationDigest(r), e.signature);
       recovered.Some? && GetAddress(p, recovered.value) == GetAddress(p, actor.signer)
  }

  /** How an actor's endpoint answers: never, for the fetch has no time limit; by a failure to
      connect; with a body over the limit; with an error status; with a body that is no JSON of the
      right shape; or with an envelope. */
  datatype Answer = Silent | Unreachable | TooLarge | Refused | Garbled | Body(wire: WireEnvelope)

  /** The fetch and the bounded read of the body stand outside the loop's `try`; the loop goes on only
      when both complete. */
  predicate Completes(a: Answer) { !a.Silent? && !a.Unreachable? && !a.TooLarge? }

  predicate AllComplete(answers: seq<Answer>) { forall i :: 0 <= i < |answers| ==> Completes(answers[i]) }

  /** The first answer that does not complete never comes. */
  ghost predicate WaitsForever(answers: seq<Answer>) {
    exists i :: 0 <= i < |answers| && answers[i].Silent? && AllComplete(answers[..i])
  }

  /** How an asynchronous collection ends, if it does. */
  datatype Collection<+T> = NeverSettles | Threw(reason: string) | Returned(value: T)

  /** The envelope kept of one answer that completes. */
  function Gathered(
    p: Primitives, actor: Actor, request: ActionRequest, commitment: Text, answer: Answer): (r: seq<Envelope>)
    ensures |r| <= 1
  {
    if !answer.Body? then []
    else
      match ParseEnvelope(p, answer.wire)
      case None => []
      case Some(a) => if ClientAccepts(p, actor, request, commitment, a) then [a.envelope] else []
  }

  /** What the browser keeps of the answers of the actors, asked in turn. */
  function Collected(
    p: Primitives, actors: seq<Actor>, request: ActionRequest, commitment: Text, answers: seq<Answer>)
    : Collection<seq<Envelope>>
    requires |answers| == |actors|
  {
    if answers == [] then Returned([])
    else
      var n := |answers| - 1;
      var front := Collected(p, actors[..n], request, commitment, answers[..n]);
      if !front.Returned? then front
      else if answers[n].Silent? then NeverSettles
      else if answers[n].Unreachable? then Threw("fetch failed")
      else if answers[n].TooLarge? then Threw("DEMO_RESPONSE_TOO_LARGE")
      else Returned(front.value + Gathered(p, actors[n], request, commitment, answers[n]))
  }

  lemma {:induction false} FailureStays(
    p: Primitives, actors: seq<Actor>, request: ActionRequest, commitment: Text, answers: seq<Answer>, i: nat)
    requires |answers| == |actors| && i <= |actors|
    requires !Collected(p, actors[..i], request, commitment, answers[..i]).Returned?
    ensures Collected(p, actors, request, commitment, answers)
         == Collected(p, actors[..i], request, commitment, answers[..i])
    decreases |actors|
  {
    hide Gathered;
    if i == |actors| {
      assert actors[..i] == actors && answers[..i] == answers;
    } else {
      var n := |actors| - 1;
      assert actors[..n][..i] == actors[..i] && answers[..n][..i] == answers[..i];
      FailureStays(p, actors[..n], request, commitment, answers[..n], i);
    }
  }

  /** The collection settles and returns exactly when every answer completes, and never settles
      exactly when the first answer that does not complete never comes. */
  lemma {:induction false} CollectionEndsExactly(
    p: Primitives, actors: seq<Actor>, request: ActionRequest, commitment: Text, answers: seq<Answer>)
    requires |answers| == |actors|
    ensures Collected(p, actors, request, commitment, answers).Returned? <==> AllComplete(answers)
    ensures Collected(p, actors, request, commitment, answers).NeverSettles? <==> WaitsForever(answers)
    decreases |answers|
  {
    hide Gathered;
    if answers != [] {
      var n := |answers| - 1;
      CollectionEndsExactly(p, actors[..n], request, commitment, answers[..n]);
      LastAnswer(answers);
    }
  }

  lemma LastAnswer(answers: seq<Answer>)
    requires answers != []
    ensures var n := |answers| - 1;
      && (AllComplete(answers) <==> AllComplete(answers[..n]) && Completes(answers[n]))
      && (WaitsForever(answers) <==>
            WaitsForever(answers[..n]) || (AllComplete(answers[..n]) && answers[n].Silent?))
  {
    var n := |answers| - 1;
    assert forall i :: 0 <= i < n ==> answers[..n][i] == answers[i] && answers[..n][..i] == answers[..i];
    assert AllComplete(answers) <==> AllComplete(answers[..n]) && Completes(answers[n]);
    if i :| 0 <= i < |answers| && answers[i].Silent? && AllComplete(answers[..i]) && i < n {
      assert answers[..n][i].Silent? && AllComplete(answers[..n][..i]);
    }
  }

  /** The collecting loop, and the selection it ends in. */
  method CollectDemoEvaluations(
    p: Primitives, actors: seq<Actor>, request: ActionRequest, commitment: Text, answers: seq<Answer>)
    returns (r: Collection<Selection>)
    requires |answers| == |actors|
    ensures r.Returned? <==> AllComplete(answers)
    ensures r.NeverSettles? <==> WaitsForever(answers)
    ensures match Collected(p, actors, request, commitment, answers)
            case NeverSettles => r == NeverSettles
            case Threw(reason) => r == Threw(reason)
            case Returned(valid) => r == Returned(Select(LastPerMachine(valid)))
  {
    hide ClientAccepts, ParseEnvelope, Select, LastPerMachine, WaitsForever;
    CollectionEndsExactly(p, actors, request, commitment, answers);
    var valid: seq<Envelope> := [];
    for index := 0 to |actors|
      invariant Collected(p, actors[..index], request, commitment, answers[..index]) == Returned(valid)
    {
      Extend(actors, index);
      Extend(answers, index);
      assert answers[..index + 1][index] == answers[index] && actors[..index + 1][index] == actors[index];
      if !Completes(answers[index]) {
        FailureStays(p, actors, request, commitment, answers, index + 1);
        if answers[index].Silent? { return NeverSettles; }
        return Threw(if answers[index].Unreachable? then "fetch failed" else "DEMO_RESPONSE_TOO_LARGE");
      }
      assert valid + [] == valid;
      if !answers[index].Body? { continue; }
      var parsed := ParseEnvelope(p, answers[index].wire);
      if parsed.None? || !ClientAccepts(p, actors[index], request, commitment, parsed.value) { continue; }
      valid := valid + [parsed.value.envelope];
    }
    assert actors[..|actors|] == actors && answers[..|answers|] == answers;
    var selection := SelectDemoThreshold(valid);
    return Returned(selection);
  }

  /** The signing and evaluation an honest actor relies on: signatures recover to their signer,
      evaluation keeps the request and stays within the wire's forms, and so do signatures. */
  ghost predicate Honest(p: Primitives, keys: Keys, policy: PolicyFacts, actor: Actor, c: Canonical) {
    && (forall d: Text :: var s := keys.sign(actor.signer, d);
          p.recover(d, s) == Some(actor.signer) && CanonicalHex(s, 130))
    && (forall r: EvaluationResult :: CanonicalHex(p.evaluationDigest(r), 64))
    && CanonicalAddress(p, actor.signer) && CanonicalHex(actor.machineId, 64) && CanonicalHex(actor.keyFingerprint, 64)
    && actor.number in {1, 2, 3}
    && var base := policy.evaluate(c.request, StateFor(policy, c));
       var result := base.(machineId := actor.machineId, keyFingerprint := actor.keyFingerprint);
       result.request == c.request && CanonicalResult(p, result) && p.resultEncodable(result) && p.encodable(c.request)
  }

  /** What an honest actor's envelope is made of. */
  lemma EvaluatedShape(
    p: Primitives, keys: Keys, policy: PolicyFacts, actor: Actor, requestId: Text, a: Authorization, c: Canonical,
    now: int)
    requires Honest(p, keys, policy, actor, c) && Evaluate(p, keys, policy, actor, requestId, a, c, now).Ok?
    ensures var e := Evaluate(p, keys, policy, actor, requestId, a, c, now).value; var r := e.envelope.result;
      && e.actor == actor.number && e.actor in {1, 2, 3} && r.request == c.request && CanonicalResult(p, r)
      && p.resultEncodable(r)
      && r.machineId == actor.machineId && r.keyFingerprint == actor.keyFingerprint && p.encodable(c.request)
      && e.envelope.digest == p.evaluationDigest(r) && CanonicalHex(e.envelope.digest, 64)
      && e.envelope.signer == actor.signer && CanonicalAddress(p, actor.signer)
      && p.recover(p.attestationDigest(r), e.envelope.signature) == Some(actor.signer)
      && CanonicalHex(e.envelope.signature, 130)
      && ToLower(c.request.policyCommitment) == ToLower(policy.commitment)
  {
    hide InWindow, ToLower, CanonicalHex, CanonicalAddress, CanonicalResult;
  }

  lemma SameNormalForm(r: ActionRequest, s: ActionRequest)
    requires NormalRequest(r) == NormalRequest(s)
    ensures ToLower(r.requestId) == ToLower(s.requestId)
  {
    hide ToLower;
    assert NormalRequest(r).requestId == NormalRequest(s).requestId;
  }

  /** An actor's envelope survives the wire and passes the browser's checks for its request. */
  lemma HonestEnvelopeIsAccepted(
    p: Primitives, keys: Keys, policy: PolicyFacts, actor: Actor, requestId: Text, a: Authorization, c: Canonical,
    now: int, request: ActionRequest)
    requires ChecksumKeepsAddress(p) && RequestHashIdentifies(p) && Honest(p, keys, policy, actor, c)
    requires Evaluate(p, keys, policy, actor, requestId, a, c, now).Ok?
    requires p.encodable(request) && NormalRequest(request) == NormalRequest(c.request)
    ensures var e := Evaluate(p, keys, policy, actor, requestId, a, c, now).value;
      && ParseEnvelope(p, PrintEnvelope(e)) == Some(e)
      && ClientAccepts(p, actor, request, policy.commitment, e)
      && e.envelope.result.machineId == actor.machineId
  {
    hide Evaluate, Honest, ToLower, CanonicalHex, CanonicalAddress, GetAddress, CanonicalResult, ParseEnvelope,
      PrintEnvelope, ChecksumKeepsAddress;
    EvaluatedShape(p, keys, policy, actor, requestId, a, c, now);
    EnvelopeSurvivesPrinting(p, Evaluate(p, keys, policy, actor, requestId, a, c, now).value);
    assert p.requestHash(c.request) == p.requestHash(request);
    hide RequestHashIdentifies, NormalRequest;
    SameNormalForm(request, c.request);
  }

  /** The answer is what the actor makes of the request in the given state of the chain, at a time
      final block and accounting at which it accepts. */
  ghost predicate AnswersHonestly(
    p: Primitives, keys: Keys, policy: PolicyFacts, actor: Actor, requestId: Text, c: Canonical, answer: Answer)
  {
    && answer.Body? && Honest(p, keys, policy, actor, c)
    && exists a, d, now ::
         && SameSpend(c, d) && Evaluate(p, keys, policy, actor, requestId, a, d, now).Ok?
         && answer.wire == PrintEnvelope(Evaluate(p, keys, policy, actor, requestId, a, d, now).value)
  }

  /** The digest all the honest actors sign. */
  function AgreedDigest(p: Primitives, policy: PolicyFacts, c: Canonical): Text {
    p.evaluationDigest(policy.evaluate(c.request, StateFor(policy, c)))
  }

  lemma HonestAnswersAreBodies(
    p: Primitives, keys: Keys, policy: PolicyFacts, actor: Actor, requestId: Text, c: Canonical, answer: Answer)
    ensures AnswersHonestly(p, keys, policy, actor, requestId, c, answer) ==> Completes(answer)
  {
    hide Honest, Evaluate, SameSpend, PrintEnvelope;
  }

  lemma NoTwoOfThreeClash(p: Primitives, actors: seq<Actor>)
    requires |actors| == 3 && SoundActors(p, actors, 3)
    ensures !Clash(p, actors[0], actors[1]) && !Clash(p, actors[0], actors[2]) && !Clash(p, actors[1], actors[2])
  {
    hide Clash, WellFormedActor;
  }

  lemma HonestAnswerIsGathered(
    p: Primitives, keys: Keys, policy: PolicyFacts, actor: Actor, requestId: Text, c: Canonical, request: ActionRequest,
    answer: Answer) returns (e: Envelope)
    requires ChecksumKeepsAddress(p) && RequestHashIdentifies(p) && DigestIgnoresMachine(p)
    requires p.encodable(request) && NormalRequest(request) == NormalRequest(c.request)
    requires BalanceCommits(policy, c.request.asset) && IsCurrent(policy, c)
    requires AnswersHonestly(p, keys, policy, actor, requestId, c, answer)
    ensures Gathered(p, actor, request, policy.commitment, answer) == [e] && e.digest == AgreedDigest(p, policy, c)
  {
    hide ClientAccepts, ParseEnvelope, PrintEnvelope, NormalRequest, RequestHashIdentifies, ChecksumKeepsAddress,
      DigestIgnoresMachine, BalanceCommits, IsCurrent, InWindow, ToLower, CanonicalHex, CanonicalResult,
      CanonicalAddress;
    var a, d, now :|
      && SameSpend(c, d) && Evaluate(p, keys, policy, actor, requestId, a, d, now).Ok?
      && answer.wire == PrintEnvelope(Evaluate(p, keys, policy, actor, requestId, a, d, now).value);
    AcceptedIsCurrent(p, keys, policy, actor, requestId, a, d, now);
    CurrentMeansSameAccounting(policy, c, d);
    assert Honest(p, keys, policy, actor, d);
    HonestEnvelopeIsAccepted(p, keys, policy, actor, requestId, a, d, now, request);
    e := Evaluate(p, keys, policy, actor, requestId, a, d, now).value.envelope;
    MachineDoesNotMatter(p, policy.evaluate(c.request, StateFor(policy, c)), actor.machineId, actor.keyFingerprint);
  }

  /** An actor is heard only in its own name. */
  lemma GatheredIsOwn(p: Primitives, actor: Actor, request: ActionRequest, commitment: Text, answer: Answer)
    ensures forall e :: e in Gathered(p, actor, request, commitment, answer) ==>
              MachineOf(e) == ToLower(actor.machineId)
  {
    hide ParseEnvelope, ToLower, GetAddress;
  }

  lemma CollectedOfThree(
    p: Primitives, actors: seq<Actor>, request: ActionRequest, commitment: Text, answers: seq<Answer>)
    requires |answers| == |actors| == 3 && AllComplete(answers)
    ensures Collected(p, actors, request, commitment, answers)
         == Returned(Gathered(p, actors[0], request, commitment, answers[0])
                     + Gathered(p, actors[1], request, commitment, answers[1])
                     + Gathered(p, actors[2], request, commitment, answers[2]))
  {
    hide Gathered;
    assert answers[..2][..1] == [answers[0]] && actors[..2][..1] == [actors[0]];
    assert answers[..2][1] == answers[1] && actors[..2][1] == actors[1];
    assert answers[..2][..1][..0] == [] && actors[..2][..1][..0] == [];
    assert Collected(p, actors[..2][..1], request, commitment, answers[..2][..1])
        == Returned(Gathered(p, actors[0], request, commitment, answers[0])) by {
      assert [] + Gathered(p, actors[0], request, commitment, answers[0])
          == Gathered(p, actors[0], request, commitment, answers[0]);
    }
  }

  /** Of at most three envelopes, one per machine, two with the same digest decide. */
  lemma TwoOfThreeDecide(es: seq<Envelope>, x: Envelope, y: Envelope)
    requires |es| <= 3 && OnePerMachine(es) && x in es && y in es
    requires MachineOf(x) != MachineOf(y) && DigestOf(x) == DigestOf(y)
    ensures var s := Select(LastPerMachine(es)); s.status == THRESHOLD_READY && s.digest == Some(DigestOf(x))
  {
    hide Select, LastPerMachine;
    RetainedKeepsPlaces(es);
    CarriersMakeReady(es, x, y);
    SelectIsExact(es);
    TwoCarryTwo(es, DigestOf(x));
    if Select(es).digest.value != DigestOf(x) {
      TwoDigestsShareTheEnvelopes(es, Select(es).digest.value, DigestOf(x));
    }
  }

  lemma OneEachIsOnePerMachine(a: seq<Envelope>, b: seq<Envelope>, c: seq<Envelope>, m: Text, n: Text, k: Text)
    requires |a| <= 1 && |b| <= 1 && |c| <= 1 && m != n && m != k && n != k
    requires forall e :: e in a ==> MachineOf(e) == m
    requires forall e :: e in b ==> MachineOf(e) == n
    requires forall e :: e in c ==> MachineOf(e) == k
    ensures |a + b + c| <= 3 && OnePerMachine(a + b + c)
  {
    hide MachineOf;
  }

  /** With two honest answers of the three, whatever the third actor answers: the collection returns
      exactly when that answer completes, never settles exactly when it never comes, and when it
      returns, the selection is ready on the digest the honest actors agree on. */
  lemma TwoHonestAnswersDecide(
    p: Primitives, keys: Keys, policy: PolicyFacts, actors: seq<Actor>, requestId: Text, c: Canonical,
    request: ActionRequest, answers: seq<Answer>, i: nat, j: nat)
    requires ChecksumKeepsAddress(p) && RequestHashIdentifies(p) && DigestIgnoresMachine(p)
    requires BalanceCommits(policy, c.request.asset) && IsCurrent(policy, c)
    requires p.encodable(request) && NormalRequest(request) == NormalRequest(c.request)
    requires |answers| == |actors| == 3 && SoundActors(p, actors, 3) && i < j < 3
    requires AnswersHonestly(p, keys, policy, actors[i], requestId, c, answers[i])
    requires AnswersHonestly(p, keys, policy, actors[j], requestId, c, answers[j])
    ensures var r := Collected(p, actors, request, policy.commitment, answers);
      && (r.Returned? <==> Completes(answers[3 - i - j]))
      && (r.NeverSettles? <==> answers[3 - i - j].Silent?)
      && (r.Returned? ==>
            && Select(LastPerMachine(r.value)).status == THRESHOLD_READY
            && Select(LastPerMachine(r.value)).digest == Some(ToLower(AgreedDigest(p, policy, c))))
  {
    hide *;
    var x := HonestAnswerIsGathered(p, keys, policy, actors[i], requestId, c, request, answers[i]);
    var y := HonestAnswerIsGathered(p, keys, policy, actors[j], requestId, c, request, answers[j]);
    HonestAnswersAreBodies(p, keys, policy, actors[i], requestId, c, answers[i]);
    HonestAnswersAreBodies(p, keys, policy, actors[j], requestId, c, answers[j]);
    NoTwoOfThreeClash(p, actors);
    CollectionEndsExactly(p, actors, request, policy.commitment, answers);
    OthersSettle(answers, i, j);
    if Completes(answers[3 - i - j]) {
      CollectedOfThree(p, actors, request, policy.commitment, answers);
      ThreeGatheredDecide(p, actors, request, policy.commitment, answers, i, j, x, y);
    }
  }

  lemma OthersSettle(answers: seq<Answer>, i: nat, j: nat)
    requires |answers| == 3 && i < j < 3 && Completes(answers[i]) && Completes(answers[j])
    ensures AllComplete(answers) <==> Completes(answers[3 - i - j])
    ensures WaitsForever(answers) <==> answers[3 - i - j].Silent?
  {
    var k := 3 - i - j;
    if answers[k].Silent? {
      assert AllComplete(answers[..k]);
    }
  }

  lemma ThreeGatheredDecide(
    p: Primitives, actors: seq<Actor>, request: ActionRequest, commitment: Text, answers: seq<Answer>, i: nat, j: nat,
    x: Envelope, y: Envelope)
    requires |answers| == |actors| == 3 && i < j < 3
    requires !Clash(p, actors[0], actors[1]) && !Clash(p, actors[0], actors[2]) && !Clash(p, actors[1], actors[2])
    requires Gathered(p, actors[i], request, commitment, answers[i]) == [x]
    requires Gathered(p, actors[j], request, commitment, answers[j]) == [y]
    requires x.digest == y.digest
    ensures var s := Select(LastPerMachine(
                Gathered(p, actors[0], request, commitment, answers[0])
                + Gathered(p, actors[1], request, commitment, answers[1])
                + Gathered(p, actors[2], request, commitment, answers[2])));
      s.status == THRESHOLD_READY && s.digest == Some(ToLower(x.digest))
  {
    hide Gathered, ToLower, Select, LastPerMachine;
    var a := Gathered(p, actors[0], request, commitment, answers[0]);
    var b := Gathered(p, actors[1], request, commitment, answers[1]);
    var c := Gathered(p, actors[2], request, commitment, answers[2]);
    GatheredIsOwn(p, actors[0], request, commitment, answers[0]);
    GatheredIsOwn(p, actors[1], request, commitment, answers[1]);
    GatheredIsOwn(p, actors[2], request, commitment, answers[2]);
    OneEachIsOnePerMachine(a, b, c, ToLower(actors[0].machineId), ToLower(actors[1].machineId),
                           ToLower(actors[2].machineId));
    assert x in [x] && y in [y];
    assert x in a + b + c && y in a + b + c;
    TwoOfThreeDecide(a + b + c, x, y);
  }

  /** So one silent or unreachable actor, or one oversized body, undoes two honest answers, which
      would have decided had the third actor refused. */
  lemma OneFailureUndoesTwoHonestAnswers(
    p: Primitives, keys: Keys, policy: PolicyFacts, actors: seq<Actor>, requestId: Text, c: Canonical,
    request: ActionRequest, answers: seq<Answer>)
    requires ChecksumKeepsAddress(p) && RequestHashIdentifies(p) && DigestIgnoresMachine(p)
    requires BalanceCommits(policy, c.request.asset) && IsCurrent(policy, c)
    requires p.encodable(request) && NormalRequest(request) == NormalRequest(c.request)
    requires |answers| == |actors| == 3 && SoundActors(p, actors, 3) && !Completes(answers[2])
    requires AnswersHonestly(p, keys, policy, actors[0], requestId, c, answers[0])
    requires AnswersHonestly(p, keys, policy, actors[1], requestId, c, answers[1])
    ensures var r := Collected(p, actors, request, policy.commitment, answers);
      if answers[2].Silent? then r.NeverSettles? else r.Threw?
    ensures var r := Collected(p, actors, request, policy.commitment, answers[2 := Refused]);
      r.Returned? && Select(LastPerMachine(r.value)).status == THRESHOLD_READY
  {
    hide *;
    var others := answers[2 := Refused];
    TwoHonestAnswersDecide(p, keys, policy, actors, requestId, c, request, answers, 0, 1);
    TwoHonestAnswersDecide(p, keys, policy, actors, requestId, c, request, others, 0, 1);
    RefusalCompletes();
  }

  lemma RefusalCompletes()
    ensures Completes(Refused)
  {
  }
}
