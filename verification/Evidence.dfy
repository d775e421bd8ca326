/** Public audit evidence: decoding with all its cross-checks, and encoding.  The snapshot of the
    request inside it has a codec of its own, which is taken as given. */
module Evidence {
  import opened Outcomes
  import opened Texts
  import opened Protocol
  import opened Wires
  import opened Custody

  datatype RequestStatus = IsPending | IsAllowed | IsDenied | IsExecuted | IsExpired | IsCancelled

  datatype ExecutionStatus = WasDenied | NotExecuted | WasExecuted | HasExpired | WasCancelled

  datatype InputKind = NoInput | FtsoInput | FdcInput

  /** The fields of a request snapshot that the evidence is checked against. */
  datatype Snapshot = Snapshot(
    chainId: nat, registry: Text, vault: Text, router: Text, policyId: Text, policyVersion: nat, policyCommitment: Text,
    inputCommitment: Text, status: RequestStatus, decision: Option<Decision>, publicReasonClass: Option<Reason>,
    approvedAmount: nat, approvedNonce: Text, approvedAttempt: nat, approvedIssuedAt: nat, approvedExpiry: nat,
    approvedCheckpoint: Text, others: Text)

  datatype Policy = Policy(
    chainId: nat, registry: Text, vault: Text, router: Text, policyId: Text, policyVersion: nat, policyCommitment: Text,
    schema: Text, extensionId: Text, codeVersion: Text, machineIds: seq<Text>, keyFingerprints: seq<Text>,
    custodyThreshold: nat, resultThreshold: nat, custodyReceiptBitmap: nat)

  datatype Evidence = Evidence(
    schemaVersion: nat, evidenceBlock: nat, evidenceTransactionHash: Text, policy: Policy, request: Snapshot,
    decision: Decision, publicReasonClass: Reason, resultDigest: Text, resultNonce: Text, resultAttempt: nat,
    resultIssuedAt: nat, resultExpiry: nat, resultingCheckpoint: Text, signers: seq<Text>, inputKind: InputKind,
    inputFinalized: bool, executionStatus: ExecutionStatus, executionTransactionHash: Text, conservation: Accounting)

  datatype WireAccounting = WireAccounting(
    deposited: Text, available: Text, reserved: Text, spent: Text, withdrawn: Text, refunded: Text)

  datatype WirePolicy = WirePolicy(
    chainId: Text, registry: Text, vault: Text, router: Text, policyId: Text, policyVersion: Text,
    policyCommitment: Text,
    schema: Text, extensionId: Text, codeVersion: Text, machineIds: seq<Text>, keyFingerprints: seq<Text>,
    custodyThreshold: Text, resultThreshold: Text, custodyReceiptBitmap: Text)

  /** None stands for an enumeration text that is not supported. */
  datatype WireEvidence = WireEvidence(
    schemaVersion: Text, evidenceBlock: Text, evidenceTransactionHash: Text, policy: WirePolicy, request: Text,
    decision: Option<Decision>, publicReasonClass: Option<Reason>, resultDigest: Text, resultNonce: Text,
    resultAttempt: Text, resultIssuedAt: Text, resultExpiry: Text, resultingCheckpoint: Text, signers: seq<Text>,
    inputKind: Option<InputKind>,
    inputFinalized: bool, executionStatus: Option<ExecutionStatus>, executionTransactionHash: Text,
    conservation: WireAccounting, conservationAssertion: bool)

  /** The request codec, the policy schema, and the digest of a result with a machine named. */
  datatype Codec = Codec(
    decode: Text -> Option<Snapshot>, encode: Snapshot -> Text, schema: Text, digest: (Evidence, Text, Text) -> Text)

  ghost predicate RequestCodecStable(c: Codec) {
    forall w :: c.decode(w).Some? ==> c.decode(c.encode(c.decode(w).value)) == c.decode(w)
  }

  // ---- conservation ---------------------------------------------------------------------

  predicate ReadableAccounting(w: WireAccounting) {
    && IsDecimal(w.deposited, MAX_UINT256) && IsDecimal(w.available, MAX_UINT256) && IsDecimal(w.reserved, MAX_UINT256)
    && IsDecimal(w.spent, MAX_UINT256) && IsDecimal(w.withdrawn, MAX_UINT256) && IsDecimal(w.refunded, MAX_UINT256)
  }

  function RawAccounting(w: WireAccounting): Accounting
    requires ReadableAccounting(w)
  {
    Accounting(ReadNat(w.deposited), ReadNat(w.available), ReadNat(w.reserved), ReadNat(w.spent),
               ReadNat(w.withdrawn), ReadNat(w.refunded))
  }

  /** The folding sum, which stops with a failure as soon as it leaves the width. */
  function BoundedSum(ns: seq<nat>): Option<nat> {
    if ns == [] then Some(0)
    else
      match BoundedSum(ns[..|ns| - 1])
      case None => None
      case Some(sum) => if sum + ns[|ns| - 1] > MAX_UINT256 then None else Some(sum + ns[|ns| - 1])
  }

  predicate AcceptsAccounting(a: Accounting) {
    BoundedSum([a.available, a.reserved, a.spent, a.withdrawn, a.refunded]) == Some(a.deposited)
  }

  function Total(ns: seq<nat>): nat { if ns == [] then 0 else Total(ns[..|ns| - 1]) + ns[|ns| - 1] }

  lemma {:induction false} BoundedSumIsTotal(ns: seq<nat>)
    ensures BoundedSum(ns) == if Total(ns) <= MAX_UINT256 then Some(Total(ns)) else None
  {
    if ns != [] { BoundedSumIsTotal(ns[..|ns| - 1]); }
  }

  /** The overflow guard refuses nothing that the equation would let through. */
  lemma AccountingIsExact(a: Accounting)
    requires a.deposited <= MAX_UINT256
    ensures AcceptsAccounting(a) <==> Conserved(a)
  {
    var ns: seq<nat> := [a.available, a.reserved, a.spent, a.withdrawn, a.refunded];
    BoundedSumIsTotal(ns);
    var four: seq<nat> := [a.available, a.reserved, a.spent, a.withdrawn];
    var three: seq<nat> := [a.available, a.reserved, a.spent];
    var two: seq<nat>, one: seq<nat> := [a.available, a.reserved], [a.available];
    assert ns[..4] == four && four[..3] == three && three[..2] == two && two[..1] == one && one[..0] == [];
    assert Total(one) == a.available;
    assert Total(two) == a.available + a.reserved;
    assert Total(three) == a.available + a.reserved + a.spent;
    assert Total(four) == Total(two) + a.spent + a.withdrawn;
  }

  // ---- decoding -------------------------------------------------------------------------

  predicate ReadablePolicy(w: WirePolicy) {
    && IsDecimal(w.chainId, MAX_UINT256) && IsDecimal(w.policyVersion, MAX_UINT32)
    && IsDecimal(w.custodyThreshold, MAX_UINT8)
    && IsDecimal(w.resultThreshold, MAX_UINT8) && IsDecimal(w.custodyReceiptBitmap, 7)
  }

  predicate Readable(c: Codec, w: WireEvidence) {
    && IsDecimal(w.schemaVersion, 1) && IsDecimal(w.evidenceBlock, MAX_UINT64) && ReadablePolicy(w.policy)
    && c.decode(w.request).Some? && w.decision.Some? && w.publicReasonClass.Some?
    && IsDecimal(w.resultAttempt, MAX_UINT32) && IsDecimal(w.resultIssuedAt, MAX_UINT64)
    && IsDecimal(w.resultExpiry, MAX_UINT64)
    && w.inputKind.Some? && w.executionStatus.Some? && ReadableAccounting(w.conservation) && w.conservationAssertion
  }

  function RawPolicy(w: WirePolicy): Policy
    requires ReadablePolicy(w)
  {
    Policy(ReadNat(w.chainId), w.registry, w.vault, w.router, w.policyId, ReadNat(w.policyVersion),
           w.policyCommitment, w.schema,
           w.extensionId, w.codeVersion, w.machineIds, w.keyFingerprints, ReadNat(w.custodyThreshold),
           ReadNat(w.resultThreshold), ReadNat(w.custodyReceiptBitmap))
  }

  function Raw(c: Codec, w: WireEvidence): Evidence
    requires Readable(c, w)
  {
    Evidence(ReadNat(w.schemaVersion), ReadNat(w.evidenceBlock), w.evidenceTransactionHash, RawPolicy(w.policy),
             c.decode(w.request).value, w.decision.value, w.publicReasonClass.value, w.resultDigest, w.resultNonce,
             ReadNat(w.resultAttempt), ReadNat(w.resultIssuedAt), ReadNat(w.resultExpiry), w.resultingCheckpoint,
             w.signers, w.inputKind.value, w.inputFinalized, w.executionStatus.value, w.executionTransactionHash,
             RawAccounting(w.conservation))
  }

  predicate PolicyForms(p: Primitives, y: Policy) {
    && IsPublicAddress(p, y.registry) && IsPublicAddress(p, y.vault) && IsPublicAddress(p, y.router)
    && IsWord(y.policyId) && IsWord(y.policyCommitment) && IsWord(y.schema) && IsWord(y.extensionId)
    && IsWord(y.codeVersion)
    && AreWords(y.machineIds) && AreWords(y.keyFingerprints)
  }

  predicate Forms(p: Primitives, e: Evidence) {
    && PolicyForms(p, e.policy) && IsWord(e.evidenceTransactionHash) && IsWord(e.resultDigest) && IsWord(e.resultNonce)
    && IsWord(e.resultingCheckpoint) && |e.signers| == 2 && IsWord(e.signers[0]) && IsWord(e.signers[1])
    && IsBytes32(e.executionTransactionHash)
  }

  function NormalPolicy(p: Primitives, y: Policy): Policy {
    y.(registry := GetAddress(p, y.registry), vault := GetAddress(p, y.vault), router := GetAddress(p, y.router),
       policyId := ToLower(y.policyId), policyCommitment := ToLower(y.policyCommitment), schema := ToLower(y.schema),
       extensionId := ToLower(y.extensionId), codeVersion := ToLower(y.codeVersion),
       machineIds := Lowered(y.machineIds), keyFingerprints := Lowered(y.keyFingerprints))
  }

  function Normal(p: Primitives, e: Evidence): Evidence {
    e.(policy := NormalPolicy(p, e.policy), evidenceTransactionHash := ToLower(e.evidenceTransactionHash),
       resultDigest := ToLower(e.resultDigest), resultNonce := ToLower(e.resultNonce),
       resultingCheckpoint := ToLower(e.resultingCheckpoint), signers := Lowered(e.signers),
       executionTransactionHash := ToLower(e.executionTransactionHash))
  }

  predicate PolicyTerms(c: Codec, y: Policy) {
    && y.chainId > 0 && y.policyVersion > 0 && ToLower(y.schema) == ToLower(c.schema)
    && Distinct(y.machineIds) && Distinct(y.keyFingerprints)
    && y.custodyThreshold == 3 && y.resultThreshold == 2 && y.custodyReceiptBitmap == 7
  }

  predicate SameDomain(p: Primitives, r: Snapshot, y: Policy) {
    && r.chainId == y.chainId && GetAddress(p, r.registry) == GetAddress(p, y.registry)
    && GetAddress(p, r.vault) == GetAddress(p, y.vault) && GetAddress(p, r.router) == GetAddress(p, y.router)
    && ToLower(r.policyId) == ToLower(y.policyId) && r.policyVersion == y.policyVersion
    && ToLower(r.policyCommitment) == ToLower(y.policyCommitment)
  }

  predicate SameOutcome(e: Evidence) {
    var r := e.request;
    && r.decision == Some(e.decision) && r.publicReasonClass == Some(e.publicReasonClass)
    && e.resultNonce == ToLower(r.approvedNonce) && e.resultAttempt == r.approvedAttempt
    && e.resultIssuedAt == r.approvedIssuedAt && e.resultExpiry == r.approvedExpiry
    && e.resultingCheckpoint == ToLower(r.approvedCheckpoint)
  }

  predicate StatusFits(r: Snapshot, status: ExecutionStatus, hash: Text) {
    && (status == WasExecuted <==> hash != ZERO_BYTES32)
    && match status
       case WasExecuted => r.status == IsExecuted
       case WasDenied => r.status == IsDenied
       case NotExecuted => r.status == IsAllowed
       case HasExpired => r.status == IsExpired
       case WasCancelled => r.status == IsCancelled
  }

  /** The checks between the fields of normalised evidence. */
  predicate Coherent(p: Primitives, c: Codec, e: Evidence) {
    && e.schemaVersion == 1 && e.evidenceBlock > 0 && PolicyTerms(c, e.policy) && SameDomain(p, e.request, e.policy)
    && SameOutcome(e)
    && |e.signers| == 2 && e.signers[0] != e.signers[1] && e.signers[0] in e.policy.machineIds
    && e.signers[1] in e.policy.machineIds
    && (e.inputKind == NoInput <==> e.request.inputCommitment == ZERO_BYTES32)
    && (e.inputFinalized <==> e.inputKind != NoInput)
    && StatusFits(e.request, e.executionStatus, e.executionTransactionHash) && AcceptsAccounting(e.conservation)
    && |e.policy.keyFingerprints| == 3
    && ToLower(c.digest(e, e.signers[0], e.policy.keyFingerprints[0])) == e.resultDigest
  }

  /** `decodePublicAuditEvidence`; None is a throw. */
  function DecodeEvidence(p: Primitives, c: Codec, w: WireEvidence): Option<Evidence> {
    if Readable(c, w) && Forms(p, Raw(c, w)) && Coherent(p, c, Normal(p, Raw(c, w))) then Some(Normal(p, Raw(c, w)))
    else None
  }

  // ---- encoding -------------------------------------------------------------------------

  function PrintPolicy(y: Policy): WirePolicy {
    WirePolicy(PrintNat(y.chainId), y.registry, y.vault, y.router, y.policyId, PrintNat(y.policyVersion),
               y.policyCommitment, y.schema,
               y.extensionId, y.codeVersion, y.machineIds, y.keyFingerprints, PrintNat(y.custodyThreshold),
               PrintNat(y.resultThreshold), PrintNat(y.custodyReceiptBitmap))
  }

  function PrintAccounting(a: Accounting): WireAccounting {
    WireAccounting(PrintNat(a.deposited), PrintNat(a.available), PrintNat(a.reserved), PrintNat(a.spent),
                   PrintNat(a.withdrawn), PrintNat(a.refunded))
  }

  function PrintEvidence(c: Codec, e: Evidence): WireEvidence {
    WireEvidence(PrintNat(e.schemaVersion), PrintNat(e.evidenceBlock), e.evidenceTransactionHash, PrintPolicy(e.policy),
                 c.encode(e.request), Some(e.decision), Some(e.publicReasonClass), e.resultDigest, e.resultNonce,
                 PrintNat(e.resultAttempt), PrintNat(e.resultIssuedAt), PrintNat(e.resultExpiry),
                 e.resultingCheckpoint, e.signers,
                 Some(e.inputKind), e.inputFinalized, Some(e.executionStatus), e.executionTransactionHash,
                 PrintAccounting(e.conservation), true)
  }

  /** `encodePublicAuditEvidence`: unlike the custody encoder it only checks that its output can be
      decoded, and returns it as it is. */
  function EncodeEvidence(p: Primitives, c: Codec, e: Evidence): Option<WireEvidence> {
    if DecodeEvidence(p, c, PrintEvidence(c, e)).Some? then Some(PrintEvidence(c, e)) else None
  }

  // ---- round trips ----------------------------------------------------------------------

  predicate AccountingFits(a: Accounting) {
    && a.deposited <= MAX_UINT256 && a.available <= MAX_UINT256 && a.reserved <= MAX_UINT256 && a.spent <= MAX_UINT256
    && a.withdrawn <= MAX_UINT256 && a.refunded <= MAX_UINT256
  }

  predicate PolicyFits(y: Policy) {
    && y.chainId <= MAX_UINT256 && y.policyVersion <= MAX_UINT32 && y.custodyThreshold <= MAX_UINT8
    && y.resultThreshold <= MAX_UINT8
    && y.custodyReceiptBitmap <= 7
  }

  /** Numbers within their widths, and a request snapshot that its decoder reads back. */
  predicate Fits(c: Codec, e: Evidence) {
    && e.schemaVersion <= 1 && e.evidenceBlock <= MAX_UINT64 && PolicyFits(e.policy) && e.resultAttempt <= MAX_UINT32
    && e.resultIssuedAt <= MAX_UINT64 && e.resultExpiry <= MAX_UINT64 && AccountingFits(e.conservation)
    && c.decode(c.encode(e.request)).Some?
  }

  /** What the request snapshot becomes by being encoded and decoded. */
  function Reread(c: Codec, e: Evidence): Snapshot
    requires Fits(c, e)
  {
    c.decode(c.encode(e.request)).value
  }

  lemma RawFits(c: Codec, w: WireEvidence)
    requires RequestCodecStable(c) && Readable(c, w)
    ensures Fits(c, Raw(c, w)) && Reread(c, Raw(c, w)) == Raw(c, w).request
  {
    hide IsCanonicalDecimal, ReadNat;
  }

  lemma PolicyPrints(y: Policy)
    requires PolicyFits(y)
    ensures ReadablePolicy(PrintPolicy(y)) && RawPolicy(PrintPolicy(y)) == y
  {
    hide IsCanonicalDecimal, ReadNat, PrintNat;
    PrintedDecimal(y.chainId, MAX_UINT256);
    PrintedDecimal(y.policyVersion, MAX_UINT32);
    PrintedDecimal(y.custodyThreshold, MAX_UINT8);
    PrintedDecimal(y.resultThreshold, MAX_UINT8);
    PrintedDecimal(y.custodyReceiptBitmap, 7);
  }

  lemma AccountingPrints(a: Accounting)
    requires AccountingFits(a)
    ensures ReadableAccounting(PrintAccounting(a)) && RawAccounting(PrintAccounting(a)) == a
  {
    hide IsCanonicalDecimal, ReadNat, PrintNat;
    PrintedDecimal(a.deposited, MAX_UINT256);
    PrintedDecimal(a.available, MAX_UINT256);
    PrintedDecimal(a.reserved, MAX_UINT256);
    PrintedDecimal(a.spent, MAX_UINT256);
    PrintedDecimal(a.withdrawn, MAX_UINT256);
    PrintedDecimal(a.refunded, MAX_UINT256);
  }

  lemma EvidencePrints(c: Codec, e: Evidence)
    requires Fits(c, e)
    ensures Readable(c, PrintEvidence(c, e)) && Raw(c, PrintEvidence(c, e)) == e.(request := Reread(c, e))
  {
    hide IsCanonicalDecimal, ReadNat, PrintNat, PrintPolicy, PrintAccounting, ReadablePolicy, RawPolicy,
      ReadableAccounting, RawAccounting, PolicyFits, AccountingFits;
    PolicyPrints(e.policy);
    AccountingPrints(e.conservation);
    PrintedDecimal(e.schemaVersion, 1);
    PrintedDecimal(e.evidenceBlock, MAX_UINT64);
    PrintedDecimal(e.resultAttempt, MAX_UINT32);
    PrintedDecimal(e.resultIssuedAt, MAX_UINT64);
    PrintedDecimal(e.resultExpiry, MAX_UINT64);
  }

  lemma NormalPolicyIsStable(p: Primitives, y: Policy)
    requires ChecksumKeepsAddress(p) && PolicyForms(p, y)
    ensures PolicyForms(p, NormalPolicy(p, y)) && NormalPolicy(p, NormalPolicy(p, y)) == NormalPolicy(p, y)
  {
    hide IsPublicAddress, IsHexOf, IsWord, AreWords, Lowered, ToLower, GetAddress, ChecksumKeepsAddress;
    AddressIsNormal(p, y.registry);
    AddressIsNormal(p, y.vault);
    AddressIsNormal(p, y.router);
    WordIsNormal(y.policyId);
    WordIsNormal(y.policyCommitment);
    WordIsNormal(y.schema);
    WordIsNormal(y.extensionId);
    WordIsNormal(y.codeVersion);
    LoweredTwice(y.machineIds);
    LoweredTwice(y.keyFingerprints);
  }

  lemma NormalIsStable(p: Primitives, e: Evidence)
    requires ChecksumKeepsAddress(p) && Forms(p, e)
    ensures Forms(p, Normal(p, e)) && Normal(p, Normal(p, e)) == Normal(p, e)
  {
    hide PolicyForms, NormalPolicy, IsHexOf, IsWord, ToLower, ChecksumKeepsAddress;
    NormalPolicyIsStable(p, e.policy);
    WordIsNormal(e.evidenceTransactionHash);
    WordIsNormal(e.resultDigest);
    WordIsNormal(e.resultNonce);
    WordIsNormal(e.resultingCheckpoint);
    WordIsNormal(e.signers[0]);
    WordIsNormal(e.signers[1]);
    LoweredIsCanonical(e.executionTransactionHash, 64);
    LoweredTwice(e.signers);
  }

  lemma NormalKeepsNumbers(p: Primitives, c: Codec, e: Evidence)
    requires Fits(c, e)
    ensures Fits(c, Normal(p, e)) && Reread(c, Normal(p, e)) == Reread(c, e)
  {
  }

  lemma PrintedPolicyFits(y: Policy)
    requires ReadablePolicy(PrintPolicy(y))
    ensures PolicyFits(y)
  {
    PrintNatRoundTrip(y.chainId);
    PrintNatRoundTrip(y.policyVersion);
    PrintNatRoundTrip(y.custodyThreshold);
    PrintNatRoundTrip(y.resultThreshold);
    PrintNatRoundTrip(y.custodyReceiptBitmap);
    hide IsCanonicalDecimal, ReadNat, PrintNat;
  }

  lemma PrintedAccountingFits(a: Accounting)
    requires ReadableAccounting(PrintAccounting(a))
    ensures AccountingFits(a)
  {
    PrintNatRoundTrip(a.deposited);
    PrintNatRoundTrip(a.available);
    PrintNatRoundTrip(a.reserved);
    PrintNatRoundTrip(a.spent);
    PrintNatRoundTrip(a.withdrawn);
    PrintNatRoundTrip(a.refunded);
    hide IsCanonicalDecimal, ReadNat, PrintNat;
  }

  /** What can be encoded fits. */
  lemma PrintedFits(c: Codec, e: Evidence)
    requires Readable(c, PrintEvidence(c, e))
    ensures Fits(c, e)
  {
    PrintNatRoundTrip(e.schemaVersion);
    PrintNatRoundTrip(e.evidenceBlock);
    PrintNatRoundTrip(e.resultAttempt);
    PrintNatRoundTrip(e.resultIssuedAt);
    PrintNatRoundTrip(e.resultExpiry);
    hide IsCanonicalDecimal, ReadNat, PrintNat, ReadablePolicy, PrintPolicy, PolicyFits, ReadableAccounting,
      PrintAccounting, AccountingFits;
    PrintedPolicyFits(e.policy);
    PrintedAccountingFits(e.conservation);
  }

  /** Whatever evidence is accepted can be encoded, and what is encoded is decoded to it again. */
  lemma EvidenceIsIdempotent(p: Primitives, c: Codec, w: WireEvidence)
    requires ChecksumKeepsAddress(p) && RequestCodecStable(c) && DecodeEvidence(p, c, w).Some?
    ensures var e := DecodeEvidence(p, c, w).value;
      && EncodeEvidence(p, c, e).Some?
      && DecodeEvidence(p, c, EncodeEvidence(p, c, e).value) == Some(e)
  {
    hide Readable, Raw, Forms, Coherent, Fits, Reread, PrintEvidence, ChecksumKeepsAddress,
      RequestCodecStable, NormalPolicy;
    var e := DecodeEvidence(p, c, w).value;
    RawFits(c, w);
    NormalKeepsNumbers(p, c, Raw(c, w));
    assert e.(request := Reread(c, e)) == e;
    hide Normal;
    NormalIsStable(p, Raw(c, w));
    EvidencePrints(c, e);
  }

  /** The evidence as its own encoding decodes to. */
  lemma EncodedDecodes(p: Primitives, c: Codec, e: Evidence)
    requires EncodeEvidence(p, c, e).Some?
    ensures Fits(c, e)
    ensures DecodeEvidence(p, c, PrintEvidence(c, e)) == Some(Normal(p, e).(request := Reread(c, e)))
  {
    hide Readable, Raw, Forms, Coherent, Fits, Reread, PrintEvidence, NormalPolicy;
    PrintedFits(c, e);
    EvidencePrints(c, e);
  }

  /** Equal texts are printed for equal evidence, up to what the request codec does not tell apart. */
  lemma SamePrint(c: Codec, e: Evidence, f: Evidence)
    requires Fits(c, e) && Fits(c, f)
    ensures PrintEvidence(c, e) == PrintEvidence(c, f) <==>
      e.(request := f.request) == f && c.encode(e.request) == c.encode(f.request)
  {
    hide Readable, Raw, Fits, Reread;
    if PrintEvidence(c, e) == PrintEvidence(c, f) {
      EvidencePrints(c, e);
      EvidencePrints(c, f);
      assert e.(request := Reread(c, e)).(request := f.request) == f.(request := Reread(c, f)).(request := f.request);
    }
    hide PrintPolicy, PrintAccounting, PrintNat;
  }

  /** The encoder returns what it was given as a wire, so its output is a fixed point of decoding and
      encoding exactly when the evidence's own fields are in normal form and the request snapshot is
      encoded as what it decodes to is. */
  lemma EncoderFixesNormalEvidence(p: Primitives, c: Codec, e: Evidence)
    requires ChecksumKeepsAddress(p) && RequestCodecStable(c) && EncodeEvidence(p, c, e).Some?
    ensures Fits(c, e)
    ensures var w := EncodeEvidence(p, c, e).value;
      (EncodeEvidence(p, c, DecodeEvidence(p, c, w).value) == Some(w))
      <==> (Normal(p, e) == e && c.encode(Reread(c, e)) == c.encode(e.request))
  {
    hide Readable, Raw, Forms, Coherent, Fits, Reread, PrintEvidence, ChecksumKeepsAddress,
      RequestCodecStable, NormalPolicy;
    EncodedDecodes(p, c, e);
    var n := Normal(p, e).(request := Reread(c, e));
    EvidenceIsIdempotent(p, c, PrintEvidence(c, e));
    EncodedDecodes(p, c, n);
    SamePrint(c, n, e);
    assert Normal(p, e).request == e.request;
    assert n.(request := e.request) == Normal(p, e);
  }

  // ---- what acceptance means ------------------------------------------------------------

  /** The policy part: a version of the supported schema, three machines with three keys, all different,
      three of whom hold the policy and two of whom decide. */
  ghost predicate PolicyHolds(c: Codec, y: Policy) {
    && y.chainId >= 1 && y.policyVersion >= 1 && ToLower(y.schema) == ToLower(c.schema)
    && |y.machineIds| == 3 && (forall i, j :: 0 <= i < j < 3 ==> y.machineIds[i] != y.machineIds[j])
    && |y.keyFingerprints| == 3 && (forall i, j :: 0 <= i < j < 3 ==> y.keyFingerprints[i] != y.keyFingerprints[j])
    && y.custodyThreshold == 3 && y.resultThreshold == 2 && y.custodyReceiptBitmap == 0x7
  }

  /** The policy part is of the policy the request names. */
  ghost predicate NamesPolicy(p: Primitives, r: Snapshot, y: Policy) {
    && (r.chainId, r.policyVersion) == (y.chainId, y.policyVersion)
    && (GetAddress(p, r.registry), GetAddress(p, r.vault), GetAddress(p, r.router))
       == (GetAddress(p, y.registry), GetAddress(p, y.vault), GetAddress(p, y.router))
    && (ToLower(r.policyId), ToLower(r.policyCommitment)) == (ToLower(y.policyId), ToLower(y.policyCommitment))
  }

  /** The result is the one the router approved, two different machines of the policy signed it, and
      its digest is that of the evidence. */
  ghost predicate ResultHolds(c: Codec, e: Evidence) {
    && e.request.(decision := Some(e.decision), publicReasonClass := Some(e.publicReasonClass),
                  approvedAttempt := e.resultAttempt, approvedIssuedAt := e.resultIssuedAt,
                  approvedExpiry := e.resultExpiry) == e.request
    && e.resultNonce == ToLower(e.request.approvedNonce)
    && e.resultingCheckpoint == ToLower(e.request.approvedCheckpoint)
    && |e.signers| == 2 && e.signers[0] != e.signers[1] && (forall m :: m in e.signers ==> m in e.policy.machineIds)
    && |e.policy.keyFingerprints| == 3
    && ToLower(c.digest(e, e.signers[0], e.policy.keyFingerprints[0])) == e.resultDigest
  }

  /** The router's status is the one that goes with the execution status, and a transaction is named for
      an execution and only for one. */
  ghost predicate StatusHolds(e: Evidence) {
    && (e.executionStatus == WasExecuted <==> e.request.status == IsExecuted)
    && (e.executionStatus == WasDenied <==> e.request.status == IsDenied)
    && (e.executionStatus == NotExecuted <==> e.request.status == IsAllowed)
    && (e.executionStatus == HasExpired <==> e.request.status == IsExpired)
    && (e.executionStatus == WasCancelled <==> e.request.status == IsCancelled)
    && (e.executionTransactionHash != ZERO_BYTES32 <==> e.request.status == IsExecuted)
  }

  lemma StatusIsHeld(e: Evidence)
    ensures StatusFits(e.request, e.executionStatus, e.executionTransactionHash) <==> StatusHolds(e)
  {
    hide ZERO_BYTES32;
  }

  lemma PolicyIsHeld(c: Codec, y: Policy)
    ensures PolicyTerms(c, y) <==> PolicyHolds(c, y)
  {
    hide ToLower;
  }

  lemma ResultIsHeld(c: Codec, e: Evidence)
    ensures ResultHolds(c, e) <==>
      && SameOutcome(e)
      && |e.signers| == 2 && e.signers[0] != e.signers[1] && e.signers[0] in e.policy.machineIds
      && e.signers[1] in e.policy.machineIds
      && |e.policy.keyFingerprints| == 3
      && ToLower(c.digest(e, e.signers[0], e.policy.keyFingerprints[0])) == e.resultDigest
  {
    hide ToLower;
  }

  lemma CoherentMeansAgreeing(p: Primitives, c: Codec, e: Evidence)
    requires e.conservation.deposited <= MAX_UINT256
    ensures Coherent(p, c, e) <==>
      && e.schemaVersion == 1 && e.evidenceBlock >= 1 && PolicyHolds(c, e.policy)
      && NamesPolicy(p, e.request, e.policy) && ResultHolds(c, e) && StatusHolds(e)
      && e.inputFinalized == (e.inputKind != NoInput) == (e.request.inputCommitment != ZERO_BYTES32)
      && Conserved(e.conservation)
  {
    AccountingIsExact(e.conservation);
    StatusIsHeld(e);
    PolicyIsHeld(c, e.policy);
    ResultIsHeld(c, e);
    assert SameDomain(p, e.request, e.policy) <==> NamesPolicy(p, e.request, e.policy) by { hide ToLower, GetAddress; }
    hide PolicyTerms, PolicyHolds, StatusFits, StatusHolds, AcceptsAccounting, Conserved, SameOutcome, ResultHolds,
      SameDomain, NamesPolicy, ToLower, GetAddress, ZERO_BYTES32;
  }

  /** Of wires that can be read and whose texts have the right forms, exactly those are accepted whose
      parts agree: policy, request, result, inputs and status, and an accounting that balances. */
  lemma AcceptedMeansAgreeing(p: Primitives, c: Codec, w: WireEvidence)
    requires Readable(c, w) && Forms(p, Raw(c, w))
    ensures var e := Normal(p, Raw(c, w));
      DecodeEvidence(p, c, w) ==
        if && e.schemaVersion == 1 && e.evidenceBlock >= 1 && PolicyHolds(c, e.policy)
           && NamesPolicy(p, e.request, e.policy) && ResultHolds(c, e) && StatusHolds(e)
           && e.inputFinalized == (e.inputKind != NoInput) == (e.request.inputCommitment != ZERO_BYTES32)
           && Conserved(e.conservation)
        then Some(e) else None
  {
    DepositedFits(p, c, w);
    hide Readable, Forms, Raw, Normal;
    CoherentMeansAgreeing(p, c, Normal(p, Raw(c, w)));
    hide Coherent, PolicyHolds, NamesPolicy, ResultHolds, StatusHolds, Conserved, ZERO_BYTES32;
  }

  lemma DepositedFits(p: Primitives, c: Codec, w: WireEvidence)
    requires Readable(c, w)
    ensures Normal(p, Raw(c, w)).conservation.deposited <= MAX_UINT256
  {
    hide IsCanonicalDecimal, ReadNat, NormalPolicy, RawPolicy;
  }

  /** Accepted evidence is spelled in one way: checksummed addresses, lower-case words, none of them
      zero; and its wire asserts conservation. */
  lemma AcceptedIsSpelled(p: Primitives, c: Codec, w: WireEvidence)
    requires ChecksumKeepsAddress(p) && DecodeEvidence(p, c, w).Some?
    ensures w.conservationAssertion
    ensures var e := DecodeEvidence(p, c, w).value; var y := e.policy;
      && IsAccount(p, y.registry) && IsAccount(p, y.vault) && IsAccount(p, y.router)
      && IsLowerWord(y.policyId) && IsLowerWord(y.policyCommitment) && IsLowerWord(y.schema)
      && IsLowerWord(y.extensionId) && IsLowerWord(y.codeVersion)
      && AreLowerWords(y.machineIds) && AreLowerWords(y.keyFingerprints)
      && IsLowerWord(e.evidenceTransactionHash) && IsLowerWord(e.resultDigest) && IsLowerWord(e.resultNonce)
      && IsLowerWord(e.resultingCheckpoint) && |e.signers| == 2 && IsLowerWord(e.signers[0])
      && IsLowerWord(e.signers[1]) && CanonicalHex(e.executionTransactionHash, 64)
  {
    var r := Raw(c, w);
    PolicyIsSpelled(p, c, r.policy);
    WordIsSpelled(r.evidenceTransactionHash);
    WordIsSpelled(r.resultDigest);
    WordIsSpelled(r.resultNonce);
    WordIsSpelled(r.resultingCheckpoint);
    WordIsSpelled(r.signers[0]);
    WordIsSpelled(r.signers[1]);
    LoweredIsCanonical(r.executionTransactionHash, 64);
    hide Raw, PolicyForms, NormalPolicy, IsHexOf, IsWord, IsLowerWord, AreLowerWords, IsAccount, ToLower, CanonicalHex,
      PolicyTerms, SameDomain, SameOutcome, StatusFits, AcceptsAccounting, ChecksumKeepsAddress, ReadablePolicy,
      ReadableAccounting, IsDecimal;
  }

  lemma WordIsSpelled(t: Text)
    ensures IsWord(t) ==> IsLowerWord(ToLower(t))
  {
    hide IsHexOf, ToLower, ZERO_BYTES32;
    if IsWord(t) {
      WordIsNormal(t);
      LowerWordMeans(ToLower(t));
    }
  }

  lemma AddressIsSpelled(p: Primitives, t: Text)
    requires ChecksumKeepsAddress(p) && IsPublicAddress(p, t)
    ensures IsAccount(p, GetAddress(p, t))
  {
    hide IsPublicAddress, CanonicalAddress, GetAddress, IsAccount, ChecksumKeepsAddress;
    AddressIsNormal(p, t);
    AccountMeans(p, GetAddress(p, t));
  }

  lemma WordsAreSpelled(ts: seq<Text>)
    requires AreWords(ts) && Distinct(Lowered(ts))
    ensures AreLowerWords(Lowered(ts))
  {
    hide IsWord, ToLower, IsLowerWord;
    LoweredTwice(ts);
    LowerWordsMean(Lowered(ts));
  }

  lemma PolicyIsSpelled(p: Primitives, c: Codec, y: Policy)
    requires ChecksumKeepsAddress(p) && PolicyForms(p, y) && PolicyTerms(c, NormalPolicy(p, y))
    ensures var n := NormalPolicy(p, y);
      && IsAccount(p, n.registry) && IsAccount(p, n.vault) && IsAccount(p, n.router)
      && IsLowerWord(n.policyId) && IsLowerWord(n.policyCommitment) && IsLowerWord(n.schema)
      && IsLowerWord(n.extensionId) && IsLowerWord(n.codeVersion)
      && AreLowerWords(n.machineIds) && AreLowerWords(n.keyFingerprints)
  {
    hide IsPublicAddress, IsAccount, IsWord, IsLowerWord, AreWords, AreLowerWords, Distinct, Lowered, ToLower,
      GetAddress, ChecksumKeepsAddress;
    AddressIsSpelled(p, y.registry);
    AddressIsSpelled(p, y.vault);
    AddressIsSpelled(p, y.router);
    WordIsSpelled(y.policyId);
    WordIsSpelled(y.policyCommitment);
    WordIsSpelled(y.schema);
    WordIsSpelled(y.extensionId);
    WordIsSpelled(y.codeVersion);
    WordsAreSpelled(y.machineIds);
    WordsAreSpelled(y.keyFingerprints);
  }

  /** The result digest does not cover who is named as its signer. */
  ghost predicate DigestIgnoresSigners(c: Codec) {
    forall e: Evidence, signers: seq<Text>, m: Text, f: Text, n: Text, g: Text ::
      c.digest(e, m, f) == c.digest(e.(signers := signers), n, g)
  }

  /** The digest is checked with the first signer's id and the first machine's key, which need not belong
      together.  It does no harm where the digest covers neither: the signers may be named in any
      order. */
  lemma SignerOrderDoesNotMatter(p: Primitives, c: Codec, w: WireEvidence)
    requires DigestIgnoresSigners(c) && |w.signers| == 2
    ensures var v := w.(signers := [w.signers[1], w.signers[0]]);
      && (DecodeEvidence(p, c, w).Some? <==> DecodeEvidence(p, c, v).Some?)
      && (DecodeEvidence(p, c, w).Some? ==>
            var e := DecodeEvidence(p, c, w).value;
            |e.signers| == 2 && DecodeEvidence(p, c, v) == Some(e.(signers := [e.signers[1], e.signers[0]])))
  {
    var v := w.(signers := [w.signers[1], w.signers[0]]);
    if Readable(c, w) {
      RawEitherWay(p, c, w);
      hide Readable, Raw, Forms, Coherent, DigestIgnoresSigners, NormalPolicy, ToLower;
      CoherentEitherWay(p, c, Normal(p, Raw(c, w)), Normal(p, Raw(c, v)));
    } else {
      hide ReadablePolicy, ReadableAccounting, IsDecimal;
    }
  }

  lemma RawEitherWay(p: Primitives, c: Codec, w: WireEvidence)
    requires Readable(c, w) && |w.signers| == 2
    ensures var v := w.(signers := [w.signers[1], w.signers[0]]);
      && Readable(c, v) && Raw(c, v) == Raw(c, w).(signers := v.signers) && Raw(c, w).signers == w.signers
      && (Forms(p, Raw(c, w)) <==> Forms(p, Raw(c, v)))
  {
    hide ReadablePolicy, ReadableAccounting, IsDecimal, PolicyForms, IsWord, IsBytes32, RawPolicy, RawAccounting,
      ReadNat;
  }

  lemma CoherentEitherWay(p: Primitives, c: Codec, d: Evidence, e: Evidence)
    requires DigestIgnoresSigners(c) && |d.signers| == 2 && e == d.(signers := [d.signers[1], d.signers[0]])
    ensures Coherent(p, c, d) <==> Coherent(p, c, e)
  {
    hide PolicyTerms, SameDomain, StatusFits, AcceptsAccounting, ToLower, ZERO_BYTES32, DigestIgnoresSigners;
    SameDigest(c, d, e);
  }

  lemma SameDigest(c: Codec, d: Evidence, e: Evidence)
    requires DigestIgnoresSigners(c) && e == d.(signers := e.signers)
    ensures forall m, f, n, g :: c.digest(d, m, f) == c.digest(e, n, g)
  {
  }
}
