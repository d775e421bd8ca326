/** What the browser's collection proves about the demo actors, whatever they answer. */
module DemoQuorums {
  import opened Outcomes
  import opened Texts
  import opened OrderedMaps
  import opened Protocol
  import opened Threshold
  import opened Wires
  import opened DemoActors

  /** The answer parses to an envelope in the actor's name, with its id and fingerprint, about this
      request under this policy, over whose digest the actor's key has signed. */
  ghost predicate SignedFor(
    p: Primitives, actor: Actor, request: ActionRequest, commitment: Text, answer: Answer, e: Envelope)
  {
    && answer.Body? && ParseEnvelope(p, answer.wire) == Some(ActorEnvelope(actor.number, e))
    && p.encodable(e.result.request) && ToLower(p.requestHash(e.result.request)) == ToLower(p.requestHash(request))
    && ToLower(e.result.request.requestId) == ToLower(request.requestId)
    && ToLower(e.result.request.policyCommitment) == ToLower(commitment)
    && ToLower(e.result.machineId) == ToLower(actor.machineId)
    && ToLower(e.result.keyFingerprint) == ToLower(actor.keyFingerprint)
    && p.resultEncodable(e.result) && ToLower(e.digest) == ToLower(p.evaluationDigest(e.result))
    && GetAddress(p, e.signer) == GetAddress(p, actor.signer)
    && var signer := p.recover(p.attestationDigest(e.result), e.signature);
       signer.Some? && GetAddress(p, signer.value) == GetAddress(p, actor.signer)
  }

  /** What is gathered of an answer is what the actor signed, and nothing else is. */
  lemma GatheredExactly(
    p: Primitives, actor: Actor, request: ActionRequest, commitment: Text, answer: Answer, e: Envelope)
    ensures Gathered(p, actor, request, commitment, answer) == [e] <==>
      SignedFor(p, actor, request, commitment, answer, e)
  {
    hide ParseEnvelope, ToLower, GetAddress;
  }

  /** Some actor signed it. */
  ghost predicate IsSigned(
    p: Primitives, actors: seq<Actor>, request: ActionRequest, commitment: Text, answers: seq<Answer>, e: Envelope)
  {
    exists i :: 0 <= i < |actors| && i < |answers| && SignedFor(p, actors[i], request, commitment, answers[i], e)
  }

  lemma {:induction false} CollectedIsSigned(
    p: Primitives, actors: seq<Actor>, request: ActionRequest, commitment: Text, answers: seq<Answer>)
    requires |answers| == |actors| && Collected(p, actors, request, commitment, answers).Returned?
    ensures forall e :: e in Collected(p, actors, request, commitment, answers).value ==>
              IsSigned(p, actors, request, commitment, answers, e)
  {
    hide SignedFor, Gathered;
    if answers != [] {
      var n := |answers| - 1;
      CollectedIsSigned(p, actors[..n], request, commitment, answers[..n]);
      var last := Gathered(p, actors[n], request, commitment, answers[n]);
      forall e | e in Collected(p, actors, request, commitment, answers).value
        ensures IsSigned(p, actors, request, commitment, answers, e)
      {
        if e in last {
          assert last == [e];
          GatheredExactly(p, actors[n], request, commitment, answers[n], e);
        } else {
          assert IsSigned(p, actors[..n], request, commitment, answers[..n], e);
          var i :| 0 <= i < n && SignedFor(p, actors[..n][i], request, commitment, answers[..n][i], e);
          assert SignedFor(p, actors[i], request, commitment, answers[i], e);
        }
      }
    }
  }

  /** The last envelope of each machine is one of the list, of a machine of its own. */
  lemma LastPerMachineIsOwn(valid: seq<Envelope>)
    ensures OnePerMachine(LastPerMachine(valid))
    ensures forall e :: e in LastPerMachine(valid) ==> e in valid
  {
    hide LastPerMachine;
    var unique := LastPerMachine(valid);
    forall i | 0 <= i < |unique|
      ensures i < |Retained(valid).order| && MachineOf(unique[i]) == Retained(valid).order[i] && unique[i] in valid
    {
      RetainedInOrder(valid, i);
    }
  }

  lemma RetainedInOrder(valid: seq<Envelope>, i: nat)
    requires i < |LastPerMachine(valid)|
    ensures i < |Retained(valid).order| && LastPerMachine(valid)[i] in valid
    ensures MachineOf(LastPerMachine(valid)[i]) == Retained(valid).order[i]
  {
    var r := Retained(valid);
    RetainedByMachine(valid);
    assert r.order[i] in (set k | k in r.order);
  }

  /** When the collection ends ready, whatever was answered, two different actors have signed the
      selected digest, each for this request under this policy and over the digest of its result. */
  lemma ReadyHasTwoActors(
    p: Primitives, actors: seq<Actor>, request: ActionRequest, commitment: Text, answers: seq<Answer>)
    returns (i: nat, j: nat, e: Envelope, f: Envelope)
    requires |answers| == |actors| && Collected(p, actors, request, commitment, answers).Returned?
    requires Select(LastPerMachine(Collected(p, actors, request, commitment, answers).value)).status == THRESHOLD_READY
    ensures var s := Select(LastPerMachine(Collected(p, actors, request, commitment, answers).value));
      && i < |actors| && j < |actors| && ToLower(actors[i].machineId) != ToLower(actors[j].machineId)
      && e in s.matching && f in s.matching
      && SignedFor(p, actors[i], request, commitment, answers[i], e)
      && SignedFor(p, actors[j], request, commitment, answers[j], f)
      && s.digest == Some(ToLower(e.digest)) == Some(ToLower(f.digest))
  {
    CollectedIsSigned(p, actors, request, commitment, answers);
    hide Collected, Select, LastPerMachine, SignedFor;
    var valid := Collected(p, actors, request, commitment, answers).value;
    LastPerMachineIsOwn(valid);
    var s := Select(LastPerMachine(valid));
    var places := SelectionTells(LastPerMachine(valid));
    assert places[0] in places && places[1] in places;
    e, f := s.matching[0], s.matching[1];
    assert IsSigned(p, actors, request, commitment, answers, e);
    assert IsSigned(p, actors, request, commitment, answers, f);
    i :| 0 <= i < |actors| && SignedFor(p, actors[i], request, commitment, answers[i], e);
    j :| 0 <= j < |actors| && SignedFor(p, actors[j], request, commitment, answers[j], f);
    SignedInItsName(p, actors[i], request, commitment, answers[i], e);
    SignedInItsName(p, actors[j], request, commitment, answers[j], f);
  }

  lemma SignedInItsName(
    p: Primitives, actor: Actor, request: ActionRequest, commitment: Text, answer: Answer, e: Envelope)
    requires SignedFor(p, actor, request, commitment, answer, e)
    ensures MachineOf(e) == ToLower(actor.machineId)
  {
    hide ParseEnvelope;
  }
}
