/** One relay evaluation: which machine lists are accepted, which envelopes count, and what
    outcome three settled machine calls give. */
module Evaluation {
  import opened Outcomes
  import opened Texts
  import opened Sequences
  import opened Protocol
  import opened Threshold

  // ---- the machine list -----------------------------------------------------------------

  predicate IsLocalEndpoint(url: Url) {
    url.protocol == Lit("http:") && url.hostname in {Lit("localhost"), Lit("127.0.0.1"), Lit("::1")}
  }

  /** Identities of thirty-two bytes, an address, and an endpoint without credentials that is on HTTPS
      or on this host. */
  ghost predicate WellFormedMachine(p: Primitives, m: MachineDescriptor) {
    && IsHexOf(m.machineId, 64) && IsHexOf(m.keyFingerprint, 64) && IsAddress(p, m.signer)
    && p.parseUrl(m.endpoint).Some?
    && var url := p.parseUrl(m.endpoint).value;
       && url.username == [] && url.password == []
       && (url.protocol != Lit("https:") ==>
             && url.protocol == Lit("http:")
             && (url.hostname == Lit("localhost") || url.hostname == Lit("127.0.0.1") || url.hostname == Lit("::1")))
  }

  function IdOf(m: MachineDescriptor): Text { ToLower(m.machineId) }

  function FingerprintOf(m: MachineDescriptor): Text { ToLower(m.keyFingerprint) }

  function SignerOf(p: Primitives, m: MachineDescriptor): Text { ToLower(GetAddress(p, m.signer)) }

  predicate SameIdentity(p: Primitives, m: MachineDescriptor, n: MachineDescriptor) {
    IdOf(m) == IdOf(n) || FingerprintOf(m) == FingerprintOf(n) || SignerOf(p, m) == SignerOf(p, n)
  }

  /** Three machines, each well formed, sharing no id, fingerprint or signer. */
  ghost predicate FrozenMachines(p: Primitives, ms: seq<MachineDescriptor>) {
    && |ms| == 3
    && (forall i :: 0 <= i < 3 ==> WellFormedMachine(p, ms[i]))
    && (forall i, j :: 0 <= i < j < 3 ==> !SameIdentity(p, ms[i], ms[j]))
  }

  function Checksummed(p: Primitives, ms: seq<MachineDescriptor>): seq<MachineDescriptor> {
    seq(|ms|, i requires 0 <= i < |ms| => ms[i].(signer := GetAddress(p, ms[i].signer)))
  }

  function Ids(ms: seq<MachineDescriptor>): set<Text> { set m | m in ms :: IdOf(m) }

  function Fingerprints(ms: seq<MachineDescriptor>): set<Text> { set m | m in ms :: FingerprintOf(m) }

  function Signers(p: Primitives, ms: seq<MachineDescriptor>): set<Text> { set m | m in ms :: SignerOf(p, m) }

  lemma ClaimedMeansSame(p: Primitives, ms: seq<MachineDescriptor>, m: MachineDescriptor)
    ensures IdOf(m) in Ids(ms) || FingerprintOf(m) in Fingerprints(ms) || SignerOf(p, m) in Signers(p, ms)
       <==> exists i :: 0 <= i < |ms| && SameIdentity(p, ms[i], m)
    ensures Ids(ms + [m]) == Ids(ms) + {IdOf(m)}
    ensures Fingerprints(ms + [m]) == Fingerprints(ms) + {FingerprintOf(m)}
    ensures Signers(p, ms + [m]) == Signers(p, ms) + {SignerOf(p, m)}
  {
    if i :| 0 <= i < |ms| && SameIdentity(p, ms[i], m) {
      assert ms[i] in ms;
    }
  }

  /** The first machines of a list, none of them refused so far. */
  ghost predicate SoundPrefix(p: Primitives, ms: seq<MachineDescriptor>) {
    && (forall i :: 0 <= i < |ms| ==> WellFormedMachine(p, ms[i]))
    && (forall i, j :: 0 <= i < j < |ms| ==> !SameIdentity(p, ms[i], ms[j]))
  }

  lemma SoundPrefixExtends(p: Primitives, ms: seq<MachineDescriptor>, k: nat)
    requires k < |ms| && SoundPrefix(p, ms[..k])
    ensures SoundPrefix(p, ms[..k + 1]) <==>
      WellFormedMachine(p, ms[k]) && !exists i :: 0 <= i < |ms[..k]| && SameIdentity(p, ms[..k][i], ms[k])
  {
    hide WellFormedMachine, SameIdentity;
    var front, all := ms[..k], ms[..k + 1];
    assert forall i :: 0 <= i < k ==> all[i] == front[i];
    assert all[k] == ms[k];
    if SoundPrefix(p, all) {
      forall i | 0 <= i < |front| ensures !SameIdentity(p, front[i], ms[k]) {
        assert !SameIdentity(p, all[i], all[k]);
      }
    }
  }

  lemma UnsoundPrefix(p: Primitives, ms: seq<MachineDescriptor>, k: nat)
    requires k <= |ms| && !SoundPrefix(p, ms[..k])
    ensures !FrozenMachines(p, ms)
  {
    hide WellFormedMachine, SameIdentity;
  }

  method ValidateMachines(p: Primitives, machines: seq<MachineDescriptor>) returns (r: Result<seq<MachineDescriptor>>)
    ensures r.Ok? <==> FrozenMachines(p, machines)
    ensures r.Ok? ==> r.value == Checksummed(p, machines)
  {
    hide *;
    if |machines| != 3 {
      assert !FrozenMachines(p, machines) by { NotThree(p, machines); }
      return Err("exactly three frozen machines are required");
    }
    var ids: set<Text>, fingerprints: set<Text>, signers: set<Text> := {}, {}, {};
    var descriptors: seq<MachineDescriptor> := [];
    NothingClaimed(p);
    for k := 0 to 3
      invariant SoundPrefix(p, machines[..k])
      invariant ids == Ids(machines[..k]) && fingerprints == Fingerprints(machines[..k])
      invariant signers == Signers(p, machines[..k])
      invariant descriptors == Checksummed(p, machines[..k])
    {
      var machine := machines[k];
      var id, fingerprint, signer := IdOf(machine), FingerprintOf(machine), SignerOf(p, machine);
      SoundPrefixExtends(p, machines, k);
      ClaimedMeansSame(p, machines[..k], machine);
      ClaimsExtend(p, machines, k);
      var endpoint := p.parseUrl(machine.endpoint);
      WellFormedMeans(p, machine);
      if !IsHexOf(machine.machineId, 64) || !IsHexOf(machine.keyFingerprint, 64) || !IsAddress(p, machine.signer) {
        UnsoundPrefix(p, machines, k + 1);
        return Err("machine metadata is malformed");
      }
      if endpoint.None? || endpoint.value.username != [] || endpoint.value.password != []
         || (endpoint.value.protocol != Lit("https:") && !IsLocalEndpoint(endpoint.value)) {
        UnsoundPrefix(p, machines, k + 1);
        return Err("machine endpoints must use HTTPS");
      }
      if id in ids || fingerprint in fingerprints || signer in signers {
        UnsoundPrefix(p, machines, k + 1);
        return Err("machine identities, fingerprints, and signers must be distinct");
      }
      ids, fingerprints, signers := ids + {id}, fingerprints + {fingerprint}, signers + {signer};
      descriptors := descriptors + [machine.(signer := GetAddress(p, machine.signer))];
    }
    SoundThree(p, machines);
    return Ok(descriptors);
  }

  lemma WellFormedMeans(p: Primitives, m: MachineDescriptor)
    ensures WellFormedMachine(p, m) <==>
      && IsHexOf(m.machineId, 64) && IsHexOf(m.keyFingerprint, 64) && IsAddress(p, m.signer)
      && p.parseUrl(m.endpoint).Some?
      && var url := p.parseUrl(m.endpoint).value;
         url.username == [] && url.password == [] && (url.protocol == Lit("https:") || IsLocalEndpoint(url))
  {
    hide Lit, IsHexOf, IsAddress;
  }

  lemma NotThree(p: Primitives, ms: seq<MachineDescriptor>)
    requires |ms| != 3
    ensures !FrozenMachines(p, ms)
  {
  }

  lemma NothingClaimed(p: Primitives)
    ensures SoundPrefix(p, [])
    ensures Ids([]) == {} && Fingerprints([]) == {} && Signers(p, []) == {} && Checksummed(p, []) == []
  {
  }

  lemma ClaimsExtend(p: Primitives, ms: seq<MachineDescriptor>, k: nat)
    requires k < |ms|
    ensures ms[..k + 1] == ms[..k] + [ms[k]]
    ensures Checksummed(p, ms[..k + 1]) == Checksummed(p, ms[..k]) + [ms[k].(signer := GetAddress(p, ms[k].signer))]
  {
  }

  lemma SoundThree(p: Primitives, ms: seq<MachineDescriptor>)
    requires |ms| == 3
    ensures ms[..3] == ms && ms[..0] == []
    ensures SoundPrefix(p, ms) ==> FrozenMachines(p, ms)
  {
    hide WellFormedMachine, SameIdentity;
  }

  // ---- envelopes ------------------------------------------------------------------------

  /** The first machine with the given lower-case id. */
  function FindMachine(ms: seq<MachineDescriptor>, id: Text): (r: Option<MachineDescriptor>)
    ensures r.Some? ==> r.value in ms && IdOf(r.value) == id
  {
    if ms == [] then None
    else if IdOf(ms[0]) == id then Some(ms[0])
    else FindMachine(ms[1..], id)
  }

  predicate IsSignatureText(t: Text) {
    |t| > 2 && IsHexOf(t, |t| - 2)
  }

  /** The signature recovers to the machine's signer over the envelope's own result. */
  predicate SignedBy(p: Primitives, e: Envelope, m: MachineDescriptor) {
    var recovered := p.recover(p.attestationDigest(e.result), e.signature);
    recovered.Some? && GetAddress(p, recovered.value) == GetAddress(p, m.signer)
  }

  predicate IsValidEnvelope(
    p: Primitives, e: Envelope, request: ActionRequest, machines: seq<MachineDescriptor>, now: int)
  {
    && IsHexOf(e.digest, 64) && IsHexOf(e.result.machineId, 64) && IsHexOf(e.result.keyFingerprint, 64)
    && IsAddress(p, e.signer) && IsSignatureText(e.signature)
    && e.result.request.requestId == request.requestId
    && p.encodable(e.result.request) && p.requestHash(e.result.request) == p.requestHash(request)
    && p.resultEncodable(e.result) && ToLower(p.evaluationDigest(e.result)) == ToLower(e.digest)
    && e.result.issuedAt <= now <= e.result.expiry && e.result.expiry == request.expiry
    && var machine := FindMachine(machines, MachineOf(e));
       && machine.Some?
       && FingerprintOf(machine.value) == ToLower(e.result.keyFingerprint)
       && GetAddress(p, e.signer) == GetAddress(p, machine.value.signer)
       && SignedBy(p, e, machine.value)
  }

  // ---- the outcome ----------------------------------------------------------------------

  /** How one machine call settled: rejected or timed out, answered without a result, or with one. */
  datatype Reply = Rejected | Malformed | Replied(envelope: Envelope)

  datatype RelayOutcome = RelayOutcome(requestId: Text, selection: Selection, failures: nat)

  predicate Counts(p: Primitives, call: ActionRequest, machines: seq<MachineDescriptor>, reply: Reply, now: int) {
    reply.Replied? && IsValidEnvelope(p, reply.envelope, call, machines, now)
  }

  /** The valid envelopes among the replies; each reply is judged at its own clock reading. */
  function ValidReplies(
    p: Primitives, request: ActionRequest, machines: seq<MachineDescriptor>, settled: seq<Reply>, nows: seq<int>
  ): (r: seq<Envelope>)
    requires |nows| == |settled|
    ensures |r| <= |settled|
  {
    if settled == [] then []
    else
      var n := |settled| - 1;
      ValidReplies(p, request, machines, settled[..n], nows[..n])
        + (if Counts(p, request, machines, settled[n], nows[n]) then [settled[n].envelope] else [])
  }

  function OutcomeOf(
    p: Primitives, request: ActionRequest, machines: seq<MachineDescriptor>, settled: seq<Reply>, nows: seq<int>
  ): RelayOutcome
    requires |nows| == |settled|
  {
    var valid := FirstPerMachine(ValidReplies(p, request, machines, settled, nows));
    KeptAreReplies(p, request, machines, settled, nows);
    RelayOutcome(request.requestId, Select(valid), |settled| - |valid|)
  }

  lemma KeptAreReplies(
    p: Primitives, request: ActionRequest, machines: seq<MachineDescriptor>, settled: seq<Reply>, nows: seq<int>)
    requires |nows| == |settled|
    ensures |FirstPerMachine(ValidReplies(p, request, machines, settled, nows))| <= |settled|
  {
    FirstPerMachineThins(ValidReplies(p, request, machines, settled, nows), []);
  }

  lemma RepliesExtend(
    p: Primitives, request: ActionRequest, machines: seq<MachineDescriptor>, settled: seq<Reply>, nows: seq<int>,
    i: nat)
    requires |nows| == |settled| && i < |settled|
    ensures var counts := Counts(p, request, machines, settled[i], nows[i]);
      ValidReplies(p, request, machines, settled[..i + 1], nows[..i + 1])
        == ValidReplies(p, request, machines, settled[..i], nows[..i]) + (if counts then [settled[i].envelope] else [])
    ensures Counts(p, request, machines, settled[i], nows[i]) ==> settled[i].Replied?
  {
    hide IsValidEnvelope;
    Extend(settled, i);
    Extend(nows, i);
    assert settled[..i + 1][i] == settled[i] && nows[..i + 1][i] == nows[i];
  }

  lemma KeptExtends(es: seq<Envelope>, e: Envelope)
    ensures var kept := FirstPerMachine(es);
      FirstPerMachine(es + [e]) == if MachineOf(e) in MachinesOf(kept) then kept else kept + [e]
    ensures MachinesOf(FirstPerMachine(es) + [e]) == MachinesOf(FirstPerMachine(es)) + {MachineOf(e)}
  {
    assert (es + [e])[..|es|] == es;
  }

  method EvaluateOnce(
    p: Primitives, request: ActionRequest, machines: seq<MachineDescriptor>, settled: seq<Reply>, nows: seq<int>)
    returns (outcome: RelayOutcome)
    requires |nows| == |settled|
    ensures outcome == OutcomeOf(p, request, machines, settled, nows)
    ensures |outcome.selection.valid| + outcome.failures == |settled|
  {
    hide Counts, FirstPerMachine, MachinesOf, Select, IsValidEnvelope, ValidReplies;
    var valid: seq<Envelope> := [];
    var validMachines: set<Text> := {};
    var failures: nat := 0;
    NothingKept(p, request, machines);
    for i := 0 to |settled|
      invariant valid == FirstPerMachine(ValidReplies(p, request, machines, settled[..i], nows[..i]))
      invariant validMachines == MachinesOf(valid)
      invariant |valid| + failures == i
    {
      ghost var before := ValidReplies(p, request, machines, settled[..i], nows[..i]);
      RepliesExtend(p, request, machines, settled, nows, i);
      assert before + [] == before;
      var reply := settled[i];
      if !Counts(p, request, machines, reply, nows[i]) {
        failures := failures + 1;
      } else {
        KeptExtends(before, reply.envelope);
        if MachineOf(reply.envelope) in validMachines {
          failures := failures + 1;
        } else {
          validMachines := validMachines + {MachineOf(reply.envelope)};
          valid := valid + [reply.envelope];
        }
      }
    }
    assert settled[..|settled|] == settled && nows[..|nows|] == nows;
    var selection := SelectThreshold(valid);
    assert selection.valid == valid by { SelectKeepsValid(valid); }
    return RelayOutcome(request.requestId, selection, failures);
  }

  lemma NothingKept(p: Primitives, request: ActionRequest, machines: seq<MachineDescriptor>)
    ensures FirstPerMachine(ValidReplies(p, request, machines, [], [])) == [] && MachinesOf([]) == {}
  {
  }

  lemma SelectKeepsValid(valid: seq<Envelope>)
    ensures Select(valid).valid == valid
  {
  }

  // ---- what is kept, field by field -----------------------------------------------------

  /** The envelope answers the request in time: it repeats the request, was issued by now, has not
      expired, and expires with the request. */
  ghost predicate Answers(p: Primitives, request: ActionRequest, e: Envelope, now: int) {
    && e.result.request.requestId == request.requestId
    && p.encodable(e.result.request) && p.requestHash(e.result.request) == p.requestHash(request)
    && e.result.issuedAt <= now && now <= e.result.expiry && e.result.expiry == request.expiry
  }

  /** The envelope is the machine's own: it names its id, fingerprint and signer, and the machine's
      signature is over the result whose digest it states. */
  ghost predicate IsOwn(p: Primitives, m: MachineDescriptor, e: Envelope) {
    && ToLower(e.result.machineId) == ToLower(m.machineId)
    && ToLower(e.result.keyFingerprint) == ToLower(m.keyFingerprint)
    && IsAddress(p, e.signer) && GetAddress(p, e.signer) == GetAddress(p, m.signer)
    && p.resultEncodable(e.result) && ToLower(e.digest) == ToLower(p.evaluationDigest(e.result))
    && var recovered := p.recover(p.attestationDigest(e.result), e.signature);
       recovered.Some? && GetAddress(p, recovered.value) == GetAddress(p, m.signer)
  }

  ghost predicate IsUntimely(request: ActionRequest, e: Envelope, now: int) {
    now < e.result.issuedAt || now > e.result.expiry || e.result.expiry != request.expiry
  }

  /** Its texts are hex: digest and identities of thirty-two bytes, a signature of any length. */
  ghost predicate IsSpelled(e: Envelope) {
    && IsHexOf(e.digest, 64) && IsHexOf(e.result.machineId, 64) && IsHexOf(e.result.keyFingerprint, 64)
    && exists n :: n > 0 && IsHexOf(e.signature, n)
  }

  /** The reply at the place is one that some machine of the call vouches for. */
  ghost predicate AttestedAt(
    p: Primitives, request: ActionRequest, machines: seq<MachineDescriptor>, settled: seq<Reply>, nows: seq<int>,
    i: int)
  {
    && 0 <= i < |settled| && i < |nows| && settled[i].Replied? && IsSpelled(settled[i].envelope)
    && Answers(p, request, settled[i].envelope, nows[i])
    && exists m :: m in machines && IsOwn(p, m, settled[i].envelope)
  }

  /** And no earlier such reply is the same machine's. */
  ghost predicate KeptAt(
    p: Primitives, request: ActionRequest, machines: seq<MachineDescriptor>, settled: seq<Reply>, nows: seq<int>,
    i: int)
  {
    && AttestedAt(p, request, machines, settled, nows, i)
    && forall j :: 0 <= j < i && AttestedAt(p, request, machines, settled, nows, j) ==>
         ToLower(settled[j].envelope.result.machineId) != ToLower(settled[i].envelope.result.machineId)
  }

  ghost predicate DistinctIds(ms: seq<MachineDescriptor>) {
    forall i, j :: 0 <= i < j < |ms| ==> IdOf(ms[i]) != IdOf(ms[j])
  }

  lemma {:induction false} FoundIsTheOne(ms: seq<MachineDescriptor>, m: MachineDescriptor)
    requires DistinctIds(ms) && m in ms
    ensures FindMachine(ms, IdOf(m)) == Some(m)
  {
    hide ToLower;
    if ms[0] != m {
      var i :| 1 <= i < |ms| && ms[i] == m;
      assert ms[1..][i - 1] == m;
      FoundIsTheOne(ms[1..], m);
    }
  }

  lemma {:induction false} NoMachineFound(ms: seq<MachineDescriptor>, id: Text)
    requires FindMachine(ms, id).None?
    ensures forall m :: m in ms ==> IdOf(m) != id
  {
    if ms != [] {
      NoMachineFound(ms[1..], id);
      assert forall m :: m in ms ==> m == ms[0] || m in ms[1..];
    }
  }

  lemma SpelledSignature(t: Text)
    ensures IsSignatureText(t) <==> exists n :: n > 0 && IsHexOf(t, n)
  {
    if n :| n > 0 && IsHexOf(t, n) {
      assert n == |t| - 2;
    }
    if IsSignatureText(t) {
      assert |t| - 2 > 0 && IsHexOf(t, |t| - 2);
    }
  }

  lemma ValidMeansAttested(
    p: Primitives, request: ActionRequest, machines: seq<MachineDescriptor>, settled: seq<Reply>, nows: seq<int>,
    i: nat)
    requires DistinctIds(machines) && |nows| == |settled| && i < |settled|
    ensures Counts(p, request, machines, settled[i], nows[i]) <==>
      AttestedAt(p, request, machines, settled, nows, i)
  {
    hide ToLower, IsHexOf, IsSignatureText, IsAddress, GetAddress, DistinctIds;
    if settled[i].Replied? {
      var e := settled[i].envelope;
      SpelledSignature(e.signature);
      var found := FindMachine(machines, MachineOf(e));
      if m :| m in machines && IsOwn(p, m, e) {
        FoundIsTheOne(machines, m);
      }
      if found.Some? && IsValidEnvelope(p, e, request, machines, nows[i]) {
        assert IsOwn(p, found.value, e);
      }
    }
  }

  /** The places are in order, and are those of the kept replies below `n`. */
  ghost predicate ArePlaces(
    p: Primitives, request: ActionRequest, machines: seq<MachineDescriptor>, settled: seq<Reply>, nows: seq<int>,
    places: seq<nat>, n: nat)
  {
    && (forall k, l :: 0 <= k < l < |places| ==> places[k] < places[l])
    && (forall i :: i in places <==> i < n && KeptAt(p, request, machines, settled, nows, i))
  }

  /** The envelopes are those at the places. */
  ghost predicate StandAt(settled: seq<Reply>, places: seq<nat>, kept: seq<Envelope>) {
    && |kept| == |places|
    && forall k :: 0 <= k < |places| ==> places[k] < |settled| && settled[places[k]] == Replied(kept[k])
  }

  /** An attested reply below `n` is the machine's. */
  ghost predicate Spoke(
    p: Primitives, request: ActionRequest, machines: seq<MachineDescriptor>, settled: seq<Reply>, nows: seq<int>,
    n: nat, m: Text)
  {
    exists j :: 0 <= j < n && AttestedAt(p, request, machines, settled, nows, j)
                && MachineOf(settled[j].envelope) == m
  }

  /** The machines of the kept envelopes are those that spoke. */
  ghost predicate AllHeard(
    p: Primitives, request: ActionRequest, machines: seq<MachineDescriptor>, settled: seq<Reply>, nows: seq<int>,
    n: nat, kept: seq<Envelope>)
  {
    forall m :: m in MachinesOf(kept) <==> Spoke(p, request, machines, settled, nows, n, m)
  }

  lemma KeptIsNew(
    p: Primitives, request: ActionRequest, machines: seq<MachineDescriptor>, settled: seq<Reply>, nows: seq<int>,
    n: nat, kept: seq<Envelope>)
    requires n < |settled| && AllHeard(p, request, machines, settled, nows, n, kept)
    ensures KeptAt(p, request, machines, settled, nows, n) <==>
      && AttestedAt(p, request, machines, settled, nows, n)
      && MachineOf(settled[n].envelope) !in MachinesOf(kept)
  {
    hide ToLower, IsOwn, Answers, IsSpelled, MachinesOf;
    if AttestedAt(p, request, machines, settled, nows, n) {
      assert MachineOf(settled[n].envelope) in MachinesOf(kept)
        <==> Spoke(p, request, machines, settled, nows, n, MachineOf(settled[n].envelope));
    }
  }

  lemma PlacesExtend(
    p: Primitives, request: ActionRequest, machines: seq<MachineDescriptor>, settled: seq<Reply>, nows: seq<int>,
    places: seq<nat>, n: nat)
    requires ArePlaces(p, request, machines, settled, nows, places, n)
    ensures ArePlaces(p, request, machines, settled, nows,
              if KeptAt(p, request, machines, settled, nows, n) then places + [n] else places, n + 1)
  {
    hide KeptAt;
    if KeptAt(p, request, machines, settled, nows, n) {
      forall i ensures i in places + [n] <==> i < n + 1 && KeptAt(p, request, machines, settled, nows, i) {
        assert i in places + [n] <==> i in places || i == n;
      }
      assert forall k :: 0 <= k < |places| ==> places[k] in places;
    }
  }

  lemma SpokeExtends(
    p: Primitives, request: ActionRequest, machines: seq<MachineDescriptor>, settled: seq<Reply>, nows: seq<int>,
    n: nat, m: Text)
    requires n < |settled| && (AttestedAt(p, request, machines, settled, nows, n) ==> settled[n].Replied?)
    ensures Spoke(p, request, machines, settled, nows, n + 1, m) <==>
      || Spoke(p, request, machines, settled, nows, n, m)
      || (AttestedAt(p, request, machines, settled, nows, n) && MachineOf(settled[n].envelope) == m)
  {
    hide ToLower, IsOwn, Answers, IsSpelled;
  }

  lemma HearingExtends(
    p: Primitives, request: ActionRequest, machines: seq<MachineDescriptor>, settled: seq<Reply>, nows: seq<int>,
    n: nat, kept: seq<Envelope>)
    requires n < |settled| && AllHeard(p, request, machines, settled, nows, n, kept)
    requires AttestedAt(p, request, machines, settled, nows, n) ==> settled[n].Replied?
    ensures AllHeard(p, request, machines, settled, nows, n + 1,
              if KeptAt(p, request, machines, settled, nows, n) then kept + [settled[n].envelope] else kept)
  {
    KeptIsNew(p, request, machines, settled, nows, n, kept);
    forall m {
      SpokeExtends(p, request, machines, settled, nows, n, m);
    }
    if KeptAt(p, request, machines, settled, nows, n) {
      MachinesOfMore(kept, settled[n].envelope);
    }
    hide AttestedAt, KeptAt, Spoke, MachinesOf, ToLower;
  }

  lemma MachinesOfMore(es: seq<Envelope>, e: Envelope)
    ensures MachinesOf(es + [e]) == MachinesOf(es) + {MachineOf(e)}
  {
  }

  lemma {:induction false} KeptBelow(
    p: Primitives, request: ActionRequest, machines: seq<MachineDescriptor>, settled: seq<Reply>, nows: seq<int>,
    n: nat) returns (places: seq<nat>)
    requires DistinctIds(machines) && |nows| == |settled| && n <= |settled|
    ensures ArePlaces(p, request, machines, settled, nows, places, n)
    ensures var kept := FirstPerMachine(ValidReplies(p, request, machines, settled[..n], nows[..n]));
      StandAt(settled, places, kept) && AllHeard(p, request, machines, settled, nows, n, kept)
  {
    hide Counts, DistinctIds, AttestedAt, KeptAt, ArePlaces, ValidReplies, FirstPerMachine, AllHeard, MachinesOf,
      ToLower;
    if n == 0 {
      places := [];
      NothingKept(p, request, machines);
      NothingStands(p, request, machines, settled, nows);
    } else {
      var i := n - 1;
      var before := ValidReplies(p, request, machines, settled[..i], nows[..i]);
      places := KeptBelow(p, request, machines, settled, nows, i);
      RepliesExtend(p, request, machines, settled, nows, i);
      ValidMeansAttested(p, request, machines, settled, nows, i);
      assert before + [] == before;
      if AttestedAt(p, request, machines, settled, nows, i) {
        KeptExtends(before, settled[i].envelope);
      }
      KeptIsNew(p, request, machines, settled, nows, i, FirstPerMachine(before));
      PlacesExtend(p, request, machines, settled, nows, places, i);
      HearingExtends(p, request, machines, settled, nows, i, FirstPerMachine(before));
      if KeptAt(p, request, machines, settled, nows, i) { places := places + [i]; }
    }
  }

  lemma NothingStands(
    p: Primitives, request: ActionRequest, machines: seq<MachineDescriptor>, settled: seq<Reply>, nows: seq<int>)
    ensures ArePlaces(p, request, machines, settled, nows, [], 0)
    ensures AllHeard(p, request, machines, settled, nows, 0, [])
  {
  }

  /** What an evaluation keeps, in order: the replies that one of its machines vouches for, that
      answer the request, were issued when they were read and had not expired then, except repeated
      ones of a machine.  Every other reply is counted as a failure. */
  lemma KeptExactly(
    p: Primitives, request: ActionRequest, machines: seq<MachineDescriptor>, settled: seq<Reply>, nows: seq<int>)
    returns (places: seq<nat>)
    requires DistinctIds(machines) && |nows| == |settled|
    ensures forall k, l :: 0 <= k < l < |places| ==> places[k] < places[l]
    ensures forall i: nat :: i in places <==> KeptAt(p, request, machines, settled, nows, i)
    ensures var outcome := OutcomeOf(p, request, machines, settled, nows); var valid := outcome.selection.valid;
      && |valid| == |places| && outcome.failures == |settled| - |places| && outcome.requestId == request.requestId
      && forall k :: 0 <= k < |places| ==> places[k] < |settled| && settled[places[k]] == Replied(valid[k])
    ensures forall i: nat :: i < |settled| && settled[i].Replied? && IsUntimely(request, settled[i].envelope, nows[i])
              ==> i !in places
  {
    places := KeptBelow(p, request, machines, settled, nows, |settled|);
    hide FirstPerMachine, ValidReplies, Select, AttestedAt, DistinctIds;
    assert settled[..|settled|] == settled && nows[..|nows|] == nows;
    SelectKeepsValid(FirstPerMachine(ValidReplies(p, request, machines, settled, nows)));
    KeptIsBelow(p, request, machines, settled, nows);
  }

  lemma KeptIsBelow(
    p: Primitives, request: ActionRequest, machines: seq<MachineDescriptor>, settled: seq<Reply>, nows: seq<int>)
    ensures forall i: nat :: KeptAt(p, request, machines, settled, nows, i) ==> i < |settled|
  {
  }

  // ---- what an outcome guarantees -------------------------------------------------------

  lemma {:induction false} RepliesAreValid(
    p: Primitives, request: ActionRequest, machines: seq<MachineDescriptor>, settled: seq<Reply>, nows: seq<int>)
    requires |nows| == |settled|
    ensures forall e :: e in ValidReplies(p, request, machines, settled, nows) ==>
              exists now :: IsValidEnvelope(p, e, request, machines, now)
  {
    if settled != [] {
      var n := |settled| - 1;
      RepliesAreValid(p, request, machines, settled[..n], nows[..n]);
    }
  }

  /** The envelope is a machine's own: it names the machine and carries its signature. */
  ghost predicate Vouches(p: Primitives, m: MachineDescriptor, e: Envelope, digest: Text) {
    && MachineOf(e) == IdOf(m) && DigestOf(e) == digest && ToLower(p.evaluationDigest(e.result)) == digest
    && SignedBy(p, e, m)
  }

  /** A ready outcome holds envelopes of two different frozen machines, both over its digest,
      and these are the two that are submitted. */
  lemma ReadyOutcomeHasTwoVouchers(
    p: Primitives, request: ActionRequest, machines: seq<MachineDescriptor>, settled: seq<Reply>, nows: seq<int>)
    returns (i: nat, j: nat)
    requires |nows| == |settled| && |machines| == 3
    requires OutcomeOf(p, request, machines, settled, nows).selection.status == THRESHOLD_READY
    ensures var s := OutcomeOf(p, request, machines, settled, nows).selection;
      && i < 3 && j < 3 && i != j && IdOf(machines[i]) != IdOf(machines[j])
      && |s.matching| >= 2 && s.digest.Some?
      && Vouches(p, machines[i], s.matching[0], s.digest.value)
      && Vouches(p, machines[j], s.matching[1], s.digest.value)
  {
    hide IsValidEnvelope, Vouches;
    var replies := ValidReplies(p, request, machines, settled, nows);
    RepliesAreValid(p, request, machines, settled, nows);
    ReadyPair(replies);
    var s := Select(FirstPerMachine(replies));
    i := VoucherOf(p, request, machines, s.matching[0]);
    j := VoucherOf(p, request, machines, s.matching[1]);
  }

  lemma ReadyPair(replies: seq<Envelope>)
    requires Select(FirstPerMachine(replies)).status == THRESHOLD_READY
    ensures var s := Select(FirstPerMachine(replies));
      && |s.matching| >= 2 && s.digest.Some?
      && s.matching[0] in replies && s.matching[1] in replies
      && DigestOf(s.matching[0]) == DigestOf(s.matching[1]) == s.digest.value
      && MachineOf(s.matching[0]) != MachineOf(s.matching[1])
  {
    var valid := FirstPerMachine(replies);
    var s := Select(valid);
    SelectIsExact(valid);
    FirstPerMachineDistinct(replies);
    CarryingIsAFilter(valid, s.digest.value);
    CarryingKeepsDistinct(valid, s.digest.value);
    assert s.matching[0] in s.matching && s.matching[1] in s.matching;
  }

  lemma {:induction false} CarryingKeepsDistinct(es: seq<Envelope>, d: Text)
    requires OnePerMachine(es)
    ensures OnePerMachine(Carrying(es, d))
  {
    if es != [] {
      var n := |es| - 1;
      CarryingKeepsDistinct(es[..n], d);
      CarryingIsAFilter(es[..n], d);
      forall e | e in Carrying(es[..n], d) ensures MachineOf(e) != MachineOf(es[n]) {
        assert e in es[..n];
      }
    }
  }

  lemma VoucherOf(p: Primitives, request: ActionRequest, machines: seq<MachineDescriptor>, e: Envelope)
    returns (i: nat)
    requires exists now :: IsValidEnvelope(p, e, request, machines, now)
    ensures i < |machines| && IdOf(machines[i]) == MachineOf(e) && Vouches(p, machines[i], e, DigestOf(e))
  {
    var m := FindMachine(machines, MachineOf(e)).value;
    i :| 0 <= i < |machines| && machines[i] == m;
  }

  /** Quorum intersection: two evaluations of a request over the same three machines that are
      ready with different digests have a machine that signed both digests. */
  lemma QuorumsIntersect(
    p: Primitives, request: ActionRequest, machines: seq<MachineDescriptor>,
    settled1: seq<Reply>, nows1: seq<int>, settled2: seq<Reply>, nows2: seq<int>)
    requires |machines| == 3
    requires |nows1| == |settled1| && |nows2| == |settled2|
    requires OutcomeOf(p, request, machines, settled1, nows1).selection.status == THRESHOLD_READY
    requires OutcomeOf(p, request, machines, settled2, nows2).selection.status == THRESHOLD_READY
    ensures var s := OutcomeOf(p, request, machines, settled1, nows1).selection;
      var t := OutcomeOf(p, request, machines, settled2, nows2).selection;
      && s.digest.Some? && t.digest.Some?
      && exists k, e, f :: 0 <= k < 3 && e in s.matching && f in t.matching
           && Vouches(p, machines[k], e, s.digest.value) && Vouches(p, machines[k], f, t.digest.value)
  {
    var s := OutcomeOf(p, request, machines, settled1, nows1).selection;
    var t := OutcomeOf(p, request, machines, settled2, nows2).selection;
    var a, b := ReadyOutcomeHasTwoVouchers(p, request, machines, settled1, nows1);
    var c, d := ReadyOutcomeHasTwoVouchers(p, request, machines, settled2, nows2);
    assert a == c || a == d || b == c || b == d;
    assert s.matching[0] in s.matching && s.matching[1] in s.matching;
    assert t.matching[0] in t.matching && t.matching[1] in t.matching;
  }
}
