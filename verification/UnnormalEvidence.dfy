/** Evidence that the audit encoder accepts although it, or its request snapshot, is not in normal form. */
module UnnormalEvidence {
  import opened Outcomes
  import opened Texts
  import opened Protocol
  import opened Wires
  import opened Custody
  import opened Evidence
  import opened Assumptions

  /** A transaction hash in upper-case hex. */
  function UpperWord(): (t: Text)
    ensures IsHexOf(t, 64) && ToLower(t) != t && IsWord(t)
  {
    var t: Text := [0x30, 0x78] + seq(64, i requires 0 <= i < 64 => 0x41);
    assert forall i :: 0 <= i < 64 ==> t[2..][i] == 0x41;
    assert t[2] == 0x41 && ToLower(t)[2] == 0x61 && ZERO_BYTES32[2] == 0x30;
    t
  }

  lemma DigitWords(d: nat)
    requires 0 < d < 10
    ensures IsWord(Word(d)) && ToLower(Word(d)) == Word(d)
    ensures IsPublicAddress(Sample(), Account(d)) && GetAddress(Sample(), Account(d)) == Account(d)
  {
    WordIsHex(d);
    SampleFacts(Account(d), SampleResult(SampleRequest(), ALLOW, 1), SampleRequest());
    assert Word(d)[2] == 0x30 + d && Account(d)[2] == 0x30 + d && ToLower(Account(d))[2] == Account(d)[2];
    assert ZERO_BYTES32[2] == 0x30 && ZERO_ADDRESS[2] == 0x30;
    hide Sample, IsHexOf, ToLower, GetAddress;
  }

  /** A snapshot of which the last field is free. */
  function SampleSnapshot(others: Text): Snapshot {
    var a, w := Account(1), Word(1);
    Snapshot(1, a, a, a, w, 1, w, ZERO_BYTES32, IsAllowed, Some(ALLOW), Some(OK), 1, w, 1, 1, 2, w, others)
  }

  /** A request codec that, like the real one, puts texts into lower case when it decodes and not
      when it encodes. */
  function SampleCodec(): Codec {
    Codec(w => Some(SampleSnapshot(ToLower(w))), (s: Snapshot) => s.others, Word(1), (e, m, k) => Word(1))
  }

  function SamplePolicy(): Policy {
    var a, w := Account(1), Word(1);
    Policy(1, a, a, a, w, 1, w, w, w, w, ThreeWords(), ThreeWords(), 3, 2, 7)
  }

  /** Allowed and not executed. */
  function SampleEvidence(hash: Text, others: Text): Evidence {
    var w := Word(1);
    Evidence(1, 1, hash, SamplePolicy(), SampleSnapshot(others), ALLOW, OK, w, w, 1, 1, 2, w, [w, Word(2)], NoInput,
             false, NotExecuted, ZERO_BYTES32, Accounting(0, 0, 0, 0, 0, 0))
  }

  function ThreeWords(): seq<Text> { [Word(1), Word(2), Word(3)] }

  lemma LowWords(ts: seq<Text>)
    requires |ts| == 3 && forall i :: 0 <= i < 3 ==> IsWord(ts[i]) && ToLower(ts[i]) == ts[i]
    ensures AreWords(ts) && Lowered(ts) == ts
  {
    hide IsWord, ToLower;
  }

  lemma ThreeWordsAreNormal()
    ensures AreWords(ThreeWords()) && Lowered(ThreeWords()) == ThreeWords() && Distinct(ThreeWords())
  {
    DigitWords(1);
    DigitWords(2);
    DigitWords(3);
    WordsDiffer(1, 2);
    WordsDiffer(1, 3);
    WordsDiffer(2, 3);
    hide Sample, Word, Account, IsWord, IsPublicAddress, ToLower, GetAddress, Lowered, AreWords;
    LowWords(ThreeWords());
  }

  lemma PolicyIsNormal()
    ensures PolicyForms(Sample(), SamplePolicy()) && NormalPolicy(Sample(), SamplePolicy()) == SamplePolicy()
    ensures PolicyTerms(SampleCodec(), SamplePolicy())
  {
    DigitWords(1);
    ThreeWordsAreNormal();
    hide Sample, Word, Account, IsWord, AreWords, Lowered, Distinct, IsPublicAddress, ToLower, GetAddress, ThreeWords;
  }

  lemma ZeroIsWord()
    ensures IsBytes32(ZERO_BYTES32) && ToLower(ZERO_BYTES32) == ZERO_BYTES32
  {
    ZeroHexIsLow(64);
  }

  lemma AccountingBalances()
    ensures AcceptsAccounting(Accounting(0, 0, 0, 0, 0, 0))
  {
    AccountingIsExact(Accounting(0, 0, 0, 0, 0, 0));
  }

  lemma SampleCodecIsStable()
    ensures RequestCodecStable(SampleCodec())
  {
    hide SampleSnapshot, ToLower;
    forall w: Text ensures ToLower(ToLower(w)) == ToLower(w) { ToLowerIdempotent(w); }
    assert forall s: Text :: SampleSnapshot(s).others == s by { OthersOf(); }
  }

  lemma SampleCodecIgnoresSigners()
    ensures DigestIgnoresSigners(SampleCodec())
  {
  }

  lemma OthersOf()
    ensures forall s: Text :: SampleSnapshot(s).others == s
  {
  }

  lemma SampleFits(hash: Text, others: Text)
    ensures var c, e := SampleCodec(), SampleEvidence(hash, others);
      Fits(c, e) && Reread(c, e) == SampleSnapshot(ToLower(others))
  {
    hide Word, Account, ToLower, ZERO_BYTES32, ThreeWords;
  }

  lemma SampleForms(hash: Text, others: Text)
    requires IsWord(hash)
    ensures Forms(Sample(), SampleEvidence(hash, others))
  {
    PolicyIsNormal();
    DigitWords(1);
    DigitWords(2);
    ZeroIsWord();
    hide Sample, Word, Account, IsWord, PolicyForms, NormalPolicy, PolicyTerms, ZERO_BYTES32, IsHexOf, ToLower,
      SamplePolicy, SampleSnapshot;
  }

  lemma TwoWordsAreNormal()
    ensures Lowered([Word(1), Word(2)]) == [Word(1), Word(2)]
  {
    DigitWords(1);
    DigitWords(2);
    hide Word, ToLower, Account, Sample, IsWord, IsPublicAddress, GetAddress;
    var ws := [Word(1), Word(2)];
    assert Lowered(ws) == ws;
  }

  lemma NormalOfSample(hash: Text, others: Text)
    ensures Normal(Sample(), SampleEvidence(hash, others)) == SampleEvidence(ToLower(hash), others)
  {
    PolicyIsNormal();
    DigitWords(1);
    ZeroIsWord();
    TwoWordsAreNormal();
    hide Sample, Word, Account, IsWord, PolicyForms, NormalPolicy, PolicyTerms, ZERO_BYTES32, IsHexOf, ToLower, Lowered,
      SamplePolicy, SampleSnapshot, IsPublicAddress, GetAddress;
  }

  lemma SampleDomain(others: Text)
    ensures PolicyTerms(SampleCodec(), SamplePolicy()) && SameDomain(Sample(), SampleSnapshot(others), SamplePolicy())
    ensures SamplePolicy().machineIds == [Word(1), Word(2), Word(3)] == SamplePolicy().keyFingerprints
  {
    PolicyIsNormal();
    hide Sample, Word, Account, IsWord, PolicyForms, NormalPolicy, PolicyTerms, ToLower, GetAddress, ZERO_BYTES32;
  }

  lemma SampleOutcome(hash: Text, others: Text)
    ensures SameOutcome(SampleEvidence(hash, others))
    ensures StatusFits(SampleSnapshot(others), NotExecuted, ZERO_BYTES32)
  {
    DigitWords(1);
    hide Sample, Word, Account, IsWord, ToLower, GetAddress, ZERO_BYTES32, SamplePolicy;
  }

  lemma SampleIsCoherent(hash: Text, others: Text)
    ensures Coherent(Sample(), SampleCodec(), SampleEvidence(hash, others))
  {
    SampleDomain(others);
    SampleOutcome(hash, others);
    DigitWords(1);
    WordsDiffer(1, 2);
    AccountingBalances();
    hide Sample, Word, Account, IsWord, PolicyTerms, SameDomain, SameOutcome, StatusFits, SamplePolicy, ZERO_BYTES32,
      IsHexOf, ToLower, AcceptsAccounting, GetAddress, IsPublicAddress;
  }

  lemma SampleIsEncoded(hash: Text, others: Text)
    requires IsWord(hash)
    ensures EncodeEvidence(Sample(), SampleCodec(), SampleEvidence(hash, others)).Some?
  {
    var e := SampleEvidence(hash, others);
    SampleFits(hash, others);
    SampleForms(hash, ToLower(others));
    NormalOfSample(hash, ToLower(others));
    SampleIsCoherent(ToLower(hash), ToLower(others));
    assert e.(request := SampleSnapshot(ToLower(others))) == SampleEvidence(hash, ToLower(others));
    hide Sample, SampleCodec, SampleEvidence, Readable, Raw, Forms, Normal, Coherent, Fits, PrintEvidence, ToLower,
      Reread, SampleSnapshot, IsWord;
    EvidencePrints(SampleCodec(), e);
  }

  /** The two conditions of a fixed point, on the sample. */
  lemma SampleConditions(hash: Text, others: Text)
    ensures var p, c, e := Sample(), SampleCodec(), SampleEvidence(hash, others);
      && Fits(c, e) && c.encode(e.request) == others && c.encode(Reread(c, e)) == ToLower(others)
      && (Normal(p, e) == e <==> ToLower(hash) == hash)
  {
    SampleFits(hash, others);
    NormalOfSample(hash, others);
    hide Fits, Reread, Normal, ToLower, Word, Account, SamplePolicy;
    assert SampleEvidence(hash, others).evidenceTransactionHash == hash;
    assert SampleEvidence(ToLower(hash), others).evidenceTransactionHash == ToLower(hash);
  }

  /** The evidence is encoded, and so is what its encoding decodes to, as the same wire. */
  predicate Fixed(p: Primitives, c: Codec, e: Evidence) {
    match EncodeEvidence(p, c, e)
    case None => false
    case Some(w) =>
      match DecodeEvidence(p, c, w)
      case None => false
      case Some(d) => EncodeEvidence(p, c, d) == Some(w)
  }

  /** Encoding the sample is a fixed point exactly when both its own hash and its snapshot's field are
      in lower case. */
  lemma SampleIsFixedExactly(hash: Text, others: Text)
    requires IsWord(hash)
    ensures EncodeEvidence(Sample(), SampleCodec(), SampleEvidence(hash, others)).Some?
    ensures Fixed(Sample(), SampleCodec(), SampleEvidence(hash, others)) <==>
      ToLower(hash) == hash && ToLower(others) == others
  {
    hide *;
    AssumptionsHold();
    SampleCodecIsStable();
    SampleIsEncoded(hash, others);
    SampleConditions(hash, others);
    FixedMeans(Sample(), SampleCodec(), SampleEvidence(hash, others));
    EncoderFixesNormalEvidence(Sample(), SampleCodec(), SampleEvidence(hash, others));
  }

  lemma FixedMeans(p: Primitives, c: Codec, e: Evidence)
    requires EncodeEvidence(p, c, e).Some?
    ensures var w := EncodeEvidence(p, c, e).value;
      && DecodeEvidence(p, c, w).Some?
      && (Fixed(p, c, e) <==> EncodeEvidence(p, c, DecodeEvidence(p, c, w).value) == Some(w))
  {
    hide DecodeEvidence, PrintEvidence;
  }

  /** With its transaction hash in upper case. */
  function OwnFieldUpper(): Evidence { SampleEvidence(UpperWord(), []) }

  /** With a field of its request snapshot in upper case. */
  function SnapshotUpper(): Evidence { SampleEvidence(Word(1), [0x41]) }

  /** The failure is real, in two ways: with one field of its own in upper case, and with one field
      of its request snapshot in upper case though its own fields are normal, evidence is encoded
      and its encoding is not fixed. */
  lemma UnnormalEvidenceIsEncoded()
    ensures EncodeEvidence(Sample(), SampleCodec(), OwnFieldUpper()).Some?
    ensures !Fixed(Sample(), SampleCodec(), OwnFieldUpper())
    ensures EncodeEvidence(Sample(), SampleCodec(), SnapshotUpper()).Some?
    ensures !Fixed(Sample(), SampleCodec(), SnapshotUpper()) && Normal(Sample(), SnapshotUpper()) == SnapshotUpper()
  {
    assert ToLower([0x41])[0] == 0x61;
    assert OwnFieldUpper() == SampleEvidence(UpperWord(), []) && SnapshotUpper() == SampleEvidence(Word(1), [0x41]);
    hide *;
    DigitWords(1);
    SampleIsFixedExactly(UpperWord(), []);
    SampleIsFixedExactly(Word(1), [0x41]);
    SampleConditions(Word(1), [0x41]);
  }
}
