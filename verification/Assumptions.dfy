/** The assumptions the lemmas make about cryptography can be met together: here are functions that
    meet them, and with them the inputs on which the code fails what one might expect of it. */
module Assumptions {
  import opened Outcomes
  import opened Texts
  import opened Json
  import opened Protocol
  import opened Threshold
  import opened Evaluation
  import opened Equivocation
  import opened Freshness
  import opened Wires
  import opened DemoActors

  // ---- a request hash without collisions ------------------------------------------------

  function RequestFields(r: ActionRequest): seq<Value> {
    [Num(r.chainId), Str(r.registry), Str(r.vault), Str(r.router), Str(r.policyId), Num(r.policyVersion),
     Str(r.policyCommitment), Str(r.requestId), Num(r.requestNonce), Num(r.attempt), Str(r.requester), Str(r.target),
     Str(r.asset), Str(r.actionType), Num(r.amount), Num(r.scheduleSlot), Num(r.occurrence), Str(r.spendCheckpoint),
     Str(r.balanceCheckpoint), Str(r.inputCommitment), Num(r.createdAt), Num(r.graceDeadline), Num(r.expiry)]
  }

  lemma FieldsDetermine(r: ActionRequest, s: ActionRequest)
    requires RequestFields(r) == RequestFields(s)
    ensures r == s
  {
    var x, y := RequestFields(r), RequestFields(s);
    assert forall i :: 0 <= i < 23 ==> x[i] == y[i];
    assert x[0] == y[0] && x[1] == y[1] && x[2] == y[2] && x[3] == y[3] && x[4] == y[4] && x[5] == y[5] && x[6] == y[6];
    assert x[7] == y[7] && x[8] == y[8] && x[9] == y[9] && x[10] == y[10] && x[11] == y[11] && x[12] == y[12];
    assert x[13] == y[13] && x[14] == y[14] && x[15] == y[15] && x[16] == y[16] && x[17] == y[17] && x[18] == y[18];
    assert x[19] == y[19] && x[20] == y[20] && x[21] == y[21] && x[22] == y[22];
  }

  lemma FieldsAreFlat(r: ActionRequest)
    ensures Flat(List(RequestFields(r)))
  {
    hide List;
    ListIsFlat(RequestFields(r));
  }

  /** The JSON text of the request's normal form. */
  function TextOf(r: ActionRequest): Text { Print(List(RequestFields(NormalRequest(r)))) }

  lemma TextIdentifies(r: ActionRequest, s: ActionRequest)
    ensures TextOf(r) == TextOf(s) <==> NormalRequest(r) == NormalRequest(s)
  {
    hide Print, RequestFields, NormalRequest, List;
    var x, y := NormalRequest(r), NormalRequest(s);
    PrintUnambiguous(List(RequestFields(x)), List(RequestFields(y)));
    FieldsAreFlat(x);
    FieldsAreFlat(y);
    ListInjective(RequestFields(x), RequestFields(y));
    if RequestFields(x) == RequestFields(y) { FieldsDetermine(x, y); }
  }

  // ---- a balance commitment without collisions ------------------------------------------

  /** So many ones and a comma. */
  function Tally(n: nat): Text { seq(n, i requires 0 <= i < n => 0x31) + [0x2C] }

  lemma TallySplits(m: nat, n: nat, s: Text, t: Text)
    requires Tally(m) + s == Tally(n) + t
    ensures m == n && s == t
  {
    var x := Tally(m) + s;
    assert x[m] == 0x2C && x[n] == 0x2C;
    assert forall i :: 0 <= i < m ==> x[i] == 0x31;
    assert forall i :: 0 <= i < n ==> x[i] == 0x31;
    assert m == n;
    assert x[m + 1..] == s && x[n + 1..] == t;
  }

  function BalanceText(a: Accounting, n: nat): Text {
    Tally(a.deposited) + (Tally(a.available) + (Tally(a.reserved) + (Tally(a.spent)
      + (Tally(a.withdrawn) + (Tally(a.refunded) + (Tally(n) + []))))))
  }

  lemma BalanceTextIdentifies(a: Accounting, b: Accounting, m: nat, n: nat)
    requires BalanceText(a, m) == BalanceText(b, n)
    ensures a == b && m == n
  {
    hide Tally;
    var a6, b6 := Tally(m) + [], Tally(n) + [];
    var a5, b5 := Tally(a.refunded) + a6, Tally(b.refunded) + b6;
    var a4, b4 := Tally(a.withdrawn) + a5, Tally(b.withdrawn) + b5;
    var a3, b3 := Tally(a.spent) + a4, Tally(b.spent) + b4;
    var a2, b2 := Tally(a.reserved) + a3, Tally(b.reserved) + b3;
    var a1, b1 := Tally(a.available) + a2, Tally(b.available) + b2;
    TallySplits(a.deposited, b.deposited, a1, b1);
    TallySplits(a.available, b.available, a2, b2);
    TallySplits(a.reserved, b.reserved, a3, b3);
    TallySplits(a.spent, b.spent, a4, b4);
    TallySplits(a.withdrawn, b.withdrawn, a5, b5);
    TallySplits(a.refunded, b.refunded, a6, b6);
    TallySplits(m, n, [], []);
  }

  /** A text that `toLowerCase` leaves alone. */
  predicate IsLow(t: Text) { forall i :: 0 <= i < |t| ==> LowerUnit(t[i]) == t[i] }

  lemma LowTextsJoin(s: Text, t: Text)
    requires IsLow(s) && IsLow(t)
    ensures IsLow(s + t) && ToLower(s + t) == s + t
  {
  }

  lemma BalanceTextIsLow(a: Accounting, n: nat)
    ensures ToLower(BalanceText(a, n)) == BalanceText(a, n)
  {
    forall k: nat ensures IsLow(Tally(k)) {}
    hide Tally, ToLower;
    var a6 := Tally(n) + [];
    LowTextsJoin(Tally(n), []);
    LowTextsJoin(Tally(a.refunded), a6);
    LowTextsJoin(Tally(a.withdrawn), Tally(a.refunded) + a6);
    LowTextsJoin(Tally(a.spent), Tally(a.withdrawn) + (Tally(a.refunded) + a6));
    LowTextsJoin(Tally(a.reserved), Tally(a.spent) + (Tally(a.withdrawn) + (Tally(a.refunded) + a6)));
    LowTextsJoin(Tally(a.available),
                 Tally(a.reserved) + (Tally(a.spent) + (Tally(a.withdrawn) + (Tally(a.refunded) + a6))));
    LowTextsJoin(Tally(a.deposited),
      Tally(a.available) + (Tally(a.reserved) + (Tally(a.spent) + (Tally(a.withdrawn) + (Tally(a.refunded) + a6)))));
  }

  lemma BalanceAssumptionHolds()
    ensures BalanceInjective(Commitments((a, n) => BalanceText(a, n), t => t))
  {
    hide BalanceText, ToLower;
    forall a, b, m: nat, n: nat | ToLower(BalanceText(a, m)) == ToLower(BalanceText(b, n)) ensures a == b && m == n {
      BalanceTextIsLow(a, m);
      BalanceTextIsLow(b, n);
      BalanceTextIdentifies(a, b, m, n);
    }
  }

  // ---- the other primitives -------------------------------------------------------------

  /** `0x` and one decimal digit repeated. */
  function DigitHex(d: nat, digits: nat): (t: Text)
    requires d < 10
    ensures CanonicalHex(t, digits) && |t| == digits + 2 && (digits > 0 ==> t[2] == 0x30 + d)
  {
    var t: Text := [0x30, 0x78] + seq(digits, i requires 0 <= i < digits => 0x30 + d);
    assert forall i :: 0 <= i < digits ==> t[2..][i] == 0x30 + d;
    assert ToLower(t) == t;
    t
  }

  function Word(d: nat): Text
    requires d < 10
  {
    DigitHex(d, 64)
  }

  function Account(d: nat): Text
    requires d < 10
  {
    DigitHex(d, 40)
  }

  /** A signature that shows its signer. */
  function Sign(signer: Text): Text { signer + seq(90, i requires 0 <= i < 90 => 0x30) }

  function Signer(signature: Text): Option<Text> { if |signature| >= 42 then Some(signature[..42]) else None }

  lemma SignatureShowsSigner(signer: Text)
    requires CanonicalHex(signer, 40)
    ensures CanonicalHex(Sign(signer), 130) && Signer(Sign(signer)) == Some(signer)
  {
    var t := Sign(signer);
    assert forall i :: 0 <= i < 130 ==> t[2..][i] == if i < 40 then signer[2..][i] else 0x30;
    assert forall i :: 0 <= i < 42 ==> ToLower(t)[i] == ToLower(signer)[i];
    assert ToLower(t) == t;
  }

  /** A digest that covers the decision, and no more of a result. */
  function DigestOfDecision(d: Decision): Text { if d == ALLOW then Word(1) else Word(2) }

  function Sample(): Primitives {
    Primitives(
      t => t, r => true, r => TextOf(r), e => true, (e: EvaluationResult) => DigestOfDecision(e.decision),
      (e: EvaluationResult) => DigestOfDecision(e.decision), (d, s) => Signer(s), t => t,
      t => Some(Url(t, Lit("https:"), [], [], Lit("localhost"))))
  }

  lemma AssumptionsHold()
    ensures KeccakInjective(Sample()) && RequestHashIdentifies(Sample())
    ensures ChecksumKeepsAddress(Sample()) && DigestIgnoresMachine(Sample())
  {
    hide TextOf, NormalRequest, DigestOfDecision, Lit, Signer;
    forall r, s ensures TextOf(r) == TextOf(s) <==> NormalRequest(r) == NormalRequest(s) {
      TextIdentifies(r, s);
    }
  }

  function SampleRequest(): ActionRequest {
    var a, w := Account(1), Word(1);
    ActionRequest(1, a, a, a, w, 1, w, w, 1, 1, a, a, a, w, 1, 0, 1, w, w, w, 1, 2, 2)
  }

  function SampleResult(r: ActionRequest, decision: Decision, d: nat): EvaluationResult
    requires d < 10
  {
    EvaluationResult(r, decision, OK, 1, Word(1), Word(1), 1, 1, 2, Word(d), Word(d))
  }

  // ---- an order that decides ------------------------------------------------------------

  function SampleMachine(d: nat): MachineDescriptor
    requires d < 10
  {
    MachineDescriptor(Word(d), Word(d), Account(d), [d])
  }

  const MACHINES: seq<MachineDescriptor> := [SampleMachine(1), SampleMachine(2), SampleMachine(3)]

  function SampleEnvelope(decision: Decision, d: nat): Envelope
    requires d < 10
  {
    Envelope(SampleResult(SampleRequest(), decision, d), DigestOfDecision(decision), Account(d), Sign(Account(d)))
  }

  lemma WordsDiffer(d: nat, e: nat)
    requires d < 10 && e < 10 && d != e
    ensures Word(d) != Word(e) && Account(d) != Account(e)
    ensures ToLower(Word(d)) == Word(d) && ToLower(Account(d)) == Account(d)
  {
  }

  /** What the sample functions do, in one place. */
  lemma SampleFacts(t: Text, e: EvaluationResult, r: ActionRequest)
    ensures var p := Sample();
      && GetAddress(p, t) == ToLower(t) && p.encodable(r) && p.resultEncodable(e)
      && p.evaluationDigest(e) == p.attestationDigest(e) == DigestOfDecision(e.decision)
      && p.recover(p.attestationDigest(e), t) == Signer(t)
      && p.parseUrl(t) == Some(Url(t, Lit("https:"), [], [], Lit("localhost")))
  {
    hide ToLower, DigestOfDecision, Signer, Lit, TextOf;
  }

  lemma MachineIsWellFormed(d: nat)
    requires d < 10
    ensures WellFormedMachine(Sample(), SampleMachine(d))
  {
    SampleFacts([d], SampleResult(SampleRequest(), ALLOW, 1), SampleRequest());
    WordIsHex(d);
    hide Sample, Word, Account, Lit, IsHexOf, ToLower;
  }

  lemma MachinesDiffer(d: nat, e: nat)
    requires d < 10 && e < 10 && d != e
    ensures !SameIdentity(Sample(), SampleMachine(d), SampleMachine(e))
  {
    WordsDiffer(d, e);
    SampleFacts(Account(d), SampleResult(SampleRequest(), ALLOW, 1), SampleRequest());
    SampleFacts(Account(e), SampleResult(SampleRequest(), ALLOW, 1), SampleRequest());
    hide Sample, Word, Account, ToLower, GetAddress;
  }

  lemma MachinesAreFrozen()
    ensures FrozenMachines(Sample(), MACHINES)
  {
    assert MACHINES == [SampleMachine(1), SampleMachine(2), SampleMachine(3)];
    hide WellFormedMachine, SameIdentity, SampleMachine, Sample, MACHINES;
    MachineIsWellFormed(1);
    MachineIsWellFormed(2);
    MachineIsWellFormed(3);
    MachinesDiffer(1, 2);
    MachinesDiffer(1, 3);
    MachinesDiffer(2, 3);
  }

  lemma WordIsHex(d: nat)
    requires d < 10
    ensures IsHexOf(Word(d), 64) && IsHexOf(Account(d), 40) && ToLower(Account(d)) == Account(d)
    ensures ToLower(Word(d)) == Word(d)
  {
  }

  lemma DigestIsWord(decision: Decision)
    ensures IsHexOf(DigestOfDecision(decision), 64)
  {
  }

  lemma FoundMachine(d: nat)
    requires d == 1 || d == 2
    ensures FindMachine(MACHINES, Word(d)) == Some(SampleMachine(d))
  {
    WordsDiffer(1, 2);
    assert MACHINES == [SampleMachine(1), SampleMachine(2), SampleMachine(3)];
    hide Word, Account, ToLower, MACHINES;
    var ms := [SampleMachine(1), SampleMachine(2), SampleMachine(3)];
    assert ms[1..][0] == SampleMachine(2);
    assert IdOf(ms[0]) == Word(1) && IdOf(ms[1]) == Word(2);
    assert FindMachine(ms[1..], Word(2)) == Some(SampleMachine(2));
  }

  lemma EnvelopeIsSigned(decision: Decision, d: nat)
    requires d < 10
    ensures var e := SampleEnvelope(decision, d);
      && SignedBy(Sample(), e, SampleMachine(d)) && IsSignatureText(e.signature)
      && GetAddress(Sample(), e.signer) == GetAddress(Sample(), SampleMachine(d).signer)
  {
    SignatureShowsSigner(Account(d));
    SampleFacts(Sign(Account(d)), SampleEnvelope(decision, d).result, SampleRequest());
    hide Sample, Word, Account, Sign, Signer, ToLower, DigestOfDecision;
  }

  lemma EnvelopeIsValid(decision: Decision, d: nat)
    requires d == 1 || d == 2
    ensures IsValidEnvelope(Sample(), SampleEnvelope(decision, d), SampleRequest(), MACHINES, 1)
  {
    EnvelopeIsSigned(decision, d);
    FoundMachine(d);
    DigestIsWord(decision);
    WordIsHex(d);
    SampleFacts(Account(d), SampleEnvelope(decision, d).result, SampleRequest());
    hide Sample, Word, Account, DigestOfDecision, Sign, Signer, FindMachine, MACHINES, ToLower, IsHexOf, SignedBy,
      IsSignatureText, GetAddress;
    assert IsAddress(Sample(), Account(d));
  }

  /** Three frozen machines and three valid replies, on which the order decides: the machine that
      signed both ALLOW and DENY is kept with the one its first descriptor's call returned. */
  lemma OrderDecides()
    ensures FrozenMachines(Sample(), MACHINES)
    ensures var x, y, z := SampleEnvelope(ALLOW, 1), SampleEnvelope(DENY, 1), SampleEnvelope(ALLOW, 2);
      var a, b, c := Judged(Replied(x), 1), Judged(Replied(y), 1), Judged(Replied(z), 1);
      && Ending(Sample(), SampleRequest(), MACHINES, [a, b, c]).status == THRESHOLD_READY
      && Ending(Sample(), SampleRequest(), MACHINES, [b, a, c]).status == SPLIT
  {
    hide IsValidEnvelope, FrozenMachines, MACHINES, Ending;
    MachinesAreFrozen();
    EnvelopeIsValid(ALLOW, 1);
    EnvelopeIsValid(DENY, 1);
    EnvelopeIsValid(ALLOW, 2);
    var x, y, z := SampleEnvelope(ALLOW, 1), SampleEnvelope(DENY, 1), SampleEnvelope(ALLOW, 2);
    WordsDiffer(1, 2);
    assert Sways(x, y, z);
    EquivocationAtTheRelay(Sample(), SampleRequest(), MACHINES, x, y, z, 1);
  }

  // ---- a demo round with two honest answers ---------------------------------------------

  function SampleActor(d: nat): Actor
    requires d < 10
  {
    Actor(d, Word(d), Word(d), Account(d), Word(d), Word(d), [d])
  }

  const ACTORS: seq<Actor> := [SampleActor(1), SampleActor(2), SampleActor(3)]

  function SampleKeys(): Keys { Keys((s, d) => Sign(s)) }

  const NOTHING: Accounting := Accounting(0, 0, 0, 0, 0, 0)

  /** A commitment to accountings, which is a word for the empty one. */
  function SampleBalance(a: Accounting): Text { if a == NOTHING then Word(1) else BalanceText(a, 0) }

  lemma SampleBalanceCommits()
    ensures forall x, y :: ToLower(SampleBalance(x)) == ToLower(SampleBalance(y)) ==> x == y
  {
    assert Word(1)[0] == 0x30;
    WordIsHex(1);
    hide Word, ToLower;
    forall x, y | ToLower(SampleBalance(x)) == ToLower(SampleBalance(y)) ensures x == y {
      BalanceTextIsLow(x, 0);
      BalanceTextIsLow(y, 0);
      BalanceTextStarts(x);
      BalanceTextStarts(y);
      if x != NOTHING && y != NOTHING { BalanceTextIdentifies(x, y, 0, 0); }
    }
  }

  lemma BalanceTextStarts(a: Accounting)
    ensures BalanceText(a, 0) != [] && BalanceText(a, 0)[0] != 0x30
  {
    assert BalanceText(a, 0)[0] == Tally(a.deposited)[0];
  }

  function SamplePolicy(): PolicyFacts {
    PolicyFacts((r, s) => SampleResult(r, ALLOW, 1), Word(1), Word(1), (o, a) => SampleBalance(a), Account(1),
                (m, f, from, to) => [])
  }

  function SampleState(): Canonical {
    Canonical(Word(1), 1, SampleRequest(), Accounting(0, 0, 0, 0, 0, 0), [], 0, 0, Word(1), 1)
  }

  function SampleAnswer(d: nat): ActorEnvelope
    requires d < 10
  {
    ActorEnvelope(d, SampleEnvelope(ALLOW, d))
  }

  lemma ActorAnswers(d: nat)
    requires 1 <= d <= 3
    ensures var a := Authorization(1, 61, Sign(Account(1)));
      Evaluate(Sample(), SampleKeys(), SamplePolicy(), SampleActor(d), Word(1), a, SampleState(), 1)
        == Ok(SampleAnswer(d))
  {
    WordIsHex(1);
    SignatureShowsSigner(Account(1));
    hide Word, Account, TextOf, Lit, Sign, Signer, ToLower, IsHexOf;
  }

  lemma ActorIsHonest(d: nat)
    requires 1 <= d <= 3
    ensures Honest(Sample(), SampleKeys(), SamplePolicy(), SampleActor(d), SampleState())
  {
    SignatureShowsSigner(Account(d));
    ResultIsCanonical(d);
    forall decision ensures CanonicalHex(DigestOfDecision(decision), 64) {}
    hide Word, Account, TextOf, Lit, Sign, Signer, ToLower, IsHexOf, DigestOfDecision, CanonicalResult, CanonicalHex;
  }

  lemma AddressIsCanonical(d: nat)
    requires d < 10
    ensures CanonicalAddress(Sample(), Account(d))
  {
    SampleFacts(Account(d), SampleResult(SampleRequest(), ALLOW, 1), SampleRequest());
    hide Sample, Word, ToLower, SampleResult, SampleRequest;
  }

  lemma RequestIsCanonical()
    ensures CanonicalRequest(Sample(), SampleRequest())
  {
    WordIsHex(1);
    AddressIsCanonical(1);
    hide Sample, Word, Account, ToLower, IsHexOf, GetAddress;
  }

  lemma ResultIsCanonical(d: nat)
    requires d < 10
    ensures CanonicalResult(Sample(), SampleResult(SampleRequest(), ALLOW, d))
    ensures CanonicalAddress(Sample(), Account(d)) && CanonicalHex(Word(d), 64)
  {
    WordIsHex(1);
    WordIsHex(d);
    AddressIsCanonical(d);
    RequestIsCanonical();
    hide Sample, SampleRequest, CanonicalRequest, CanonicalAddress, Word, Account, ToLower, IsHexOf;
  }

  lemma ActorIsWellFormed(d: nat)
    requires 1 <= d <= 3
    ensures WellFormedActor(Sample(), ACTORS, d - 1)
  {
    assert ACTORS == [SampleActor(1), SampleActor(2), SampleActor(3)];
    SampleFacts([d], SampleResult(SampleRequest(), ALLOW, 1), SampleRequest());
    WordIsHex(d);
    hide Sample, Word, Account, Lit, IsHexOf, ToLower, ACTORS;
  }

  lemma ActorsDiffer(d: nat, e: nat)
    requires d < 10 && e < 10 && d != e
    ensures !Clash(Sample(), SampleActor(d), SampleActor(e))
  {
    WordsDiffer(d, e);
    SampleFacts(Account(d), SampleResult(SampleRequest(), ALLOW, 1), SampleRequest());
    SampleFacts(Account(e), SampleResult(SampleRequest(), ALLOW, 1), SampleRequest());
    SampleFacts([d], SampleResult(SampleRequest(), ALLOW, 1), SampleRequest());
    SampleFacts([e], SampleResult(SampleRequest(), ALLOW, 1), SampleRequest());
    hide Sample, Word, Account, ToLower, GetAddress, Lit;
  }

  lemma ActorsAreSound()
    ensures SoundActors(Sample(), ACTORS, 3)
  {
    assert ACTORS == [SampleActor(1), SampleActor(2), SampleActor(3)];
    hide WellFormedActor, Clash, SampleActor, Sample, ACTORS;
    ActorIsWellFormed(1);
    ActorIsWellFormed(2);
    ActorIsWellFormed(3);
    ActorsDiffer(1, 2);
    ActorsDiffer(1, 3);
    ActorsDiffer(2, 3);
  }

  lemma SampleAnswersHonestly(d: nat)
    requires 1 <= d <= 3
    ensures AnswersHonestly(Sample(), SampleKeys(), SamplePolicy(), SampleActor(d), Word(1), SampleState(),
              Body(PrintEnvelope(SampleAnswer(d))))
  {
    hide Honest, Evaluate, PrintEnvelope, Word, Sample, SampleKeys, SamplePolicy, SampleActor, SampleState,
      SampleAnswer;
    ActorIsHonest(d);
    ActorAnswers(d);
  }

  /** The premises about a round of the demo can be met together, and then the third actor's being
      unreachable, or silent, undoes two honest answers. */
  lemma UnreachableActorUndoesTheRound()
    ensures SoundActors(Sample(), ACTORS, 3)
    ensures var answers := [Body(PrintEnvelope(SampleAnswer(1))), Body(PrintEnvelope(SampleAnswer(2))), Unreachable];
      && AnswersHonestly(Sample(), SampleKeys(), SamplePolicy(), ACTORS[0], Word(1), SampleState(), answers[0])
      && AnswersHonestly(Sample(), SampleKeys(), SamplePolicy(), ACTORS[1], Word(1), SampleState(), answers[1])
      && Collected(Sample(), ACTORS, SampleRequest(), Word(1), answers).Threw?
      && Collected(Sample(), ACTORS, SampleRequest(), Word(1), answers[2 := Silent]).NeverSettles?
  {
    assert ACTORS == [SampleActor(1), SampleActor(2), SampleActor(3)];
    assert SampleState().request == SampleRequest() && SamplePolicy().commitment == Word(1);
    assert Sample().encodable(SampleRequest());
    hide *;
    AssumptionsHold();
    ActorsAreSound();
    SampleAnswersHonestly(1);
    SampleAnswersHonestly(2);
    var answers := [Body(PrintEnvelope(SampleAnswer(1))), Body(PrintEnvelope(SampleAnswer(2))), Unreachable];
    NeitherCompletes();
    SampleIsCurrent();
    OneFailureUndoesTwoHonestAnswers(
      Sample(), SampleKeys(), SamplePolicy(), ACTORS, Word(1), SampleState(), SampleRequest(), answers);
    OneFailureUndoesTwoHonestAnswers(
      Sample(), SampleKeys(), SamplePolicy(), ACTORS, Word(1), SampleState(), SampleRequest(), answers[2 := Silent]);
  }

  lemma NeitherCompletes()
    ensures !Completes(Unreachable) && !Completes(Silent)
  {
  }

  lemma SampleIsCurrent()
    ensures BalanceCommits(SamplePolicy(), SampleState().request.asset) && IsCurrent(SamplePolicy(), SampleState())
  {
    SampleBalanceCommits();
    hide ToLower, BalanceText, Word, Account;
  }
}
