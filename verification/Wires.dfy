/** Fields of the JSON wire formats: how each kind of text is accepted and normalised, and which
    values are left unchanged by being printed and parsed again. */
module Wires {
  import opened Outcomes
  import opened Texts
  import opened Protocol

  const MAX_SAFE_INTEGER: nat := 0x20_0000_0000_0000 - 1

  /** A canonical decimal text of a number up to the bound. */
  predicate IsDecimal(t: Text, max: nat) { IsCanonicalDecimal(t) && ReadNat(t) <= max }

  predicate IsBytes32(t: Text) { IsHexOf(t, 64) }

  predicate IsSignature(t: Text) { IsHexOf(t, 130) }

  predicate IsUnsigned(n: int) { 0 <= n <= MAX_SAFE_INTEGER }

  /** Hex that `toLowerCase` leaves alone. */
  predicate CanonicalHex(t: Text, digits: nat) { IsHexOf(t, digits) && ToLower(t) == t }

  /** An address in checksummed form. */
  predicate CanonicalAddress(p: Primitives, t: Text) { IsHexOf(t, 40) && GetAddress(p, t) == t }

  lemma PrintedDecimal(n: nat, max: nat)
    ensures n <= max ==> IsDecimal(PrintNat(n), max)
    ensures IsCanonicalDecimal(PrintNat(n)) && ReadNat(PrintNat(n)) == n
  {
    PrintNatRoundTrip(n);
  }

  lemma LoweredIsCanonical(t: Text, digits: nat)
    requires IsHexOf(t, digits)
    ensures CanonicalHex(ToLower(t), digits)
  {
    LowerKeepsHex(t, digits);
    ToLowerIdempotent(t);
  }

  lemma ChecksummedIsCanonical(p: Primitives, t: Text)
    requires ChecksumKeepsAddress(p) && IsHexOf(t, 40)
    ensures CanonicalAddress(p, GetAddress(p, t))
  {
    GetAddressStable(p, t);
  }

  // ---- requests -------------------------------------------------------------------------

  /** An action request on the wire: bigints as decimal texts, small numbers as JSON numbers. */
  datatype WireRequest = WireRequest(
    chainId: Text, registry: Text, vault: Text, router: Text, policyId: Text, policyVersion: int,
    policyCommitment: Text, requestId: Text, requestNonce: Text, attempt: int, requester: Text, target: Text,
    asset: Text, actionType: Text, amount: Text, scheduleSlot: Text, occurrence: int, spendCheckpoint: Text,
    balanceCheckpoint: Text, inputCommitment: Text, createdAt: Text, graceDeadline: Text, expiry: Text)

  predicate AcceptsAddresses(p: Primitives, w: WireRequest) {
    && IsAddress(p, w.registry) && IsAddress(p, w.vault) && IsAddress(p, w.router)
    && IsAddress(p, w.requester) && IsAddress(p, w.target) && IsAddress(p, w.asset)
  }

  predicate AcceptsWords(w: WireRequest) {
    && IsBytes32(w.policyId) && IsBytes32(w.policyCommitment) && IsBytes32(w.requestId) && IsBytes32(w.actionType)
    && IsBytes32(w.spendCheckpoint) && IsBytes32(w.balanceCheckpoint) && IsBytes32(w.inputCommitment)
  }

  predicate AcceptsNumbers(w: WireRequest) {
    && IsCanonicalDecimal(w.chainId) && IsCanonicalDecimal(w.requestNonce) && IsCanonicalDecimal(w.amount)
    && IsDecimal(w.scheduleSlot, MAX_UINT64) && IsDecimal(w.createdAt, MAX_UINT64)
    && IsDecimal(w.graceDeadline, MAX_UINT64) && IsDecimal(w.expiry, MAX_UINT64)
    && IsUnsigned(w.policyVersion) && IsUnsigned(w.attempt) && IsUnsigned(w.occurrence)
  }

  predicate AcceptsRequest(p: Primitives, w: WireRequest) {
    AcceptsAddresses(p, w) && AcceptsWords(w) && AcceptsNumbers(w)
  }

  function ParseRequest(p: Primitives, w: WireRequest): ActionRequest
    requires AcceptsRequest(p, w)
  {
    ActionRequest(
      ReadNat(w.chainId), GetAddress(p, w.registry), GetAddress(p, w.vault), GetAddress(p, w.router),
      ToLower(w.policyId), w.policyVersion, ToLower(w.policyCommitment), ToLower(w.requestId), ReadNat(w.requestNonce),
      w.attempt, GetAddress(p, w.requester), GetAddress(p, w.target), GetAddress(p, w.asset), ToLower(w.actionType),
      ReadNat(w.amount), ReadNat(w.scheduleSlot), w.occurrence, ToLower(w.spendCheckpoint),
      ToLower(w.balanceCheckpoint), ToLower(w.inputCommitment), ReadNat(w.createdAt), ReadNat(w.graceDeadline),
      ReadNat(w.expiry))
  }

  function PrintRequest(r: ActionRequest): WireRequest {
    WireRequest(
      PrintNat(r.chainId), r.registry, r.vault, r.router, r.policyId, r.policyVersion, r.policyCommitment, r.requestId,
      PrintNat(r.requestNonce), r.attempt, r.requester, r.target, r.asset, r.actionType, PrintNat(r.amount),
      PrintNat(r.scheduleSlot), r.occurrence, r.spendCheckpoint, r.balanceCheckpoint, r.inputCommitment,
      PrintNat(r.createdAt), PrintNat(r.graceDeadline), PrintNat(r.expiry))
  }

  predicate CanonicalAddresses(p: Primitives, r: ActionRequest) {
    && CanonicalAddress(p, r.registry) && CanonicalAddress(p, r.vault) && CanonicalAddress(p, r.router)
    && CanonicalAddress(p, r.requester) && CanonicalAddress(p, r.target) && CanonicalAddress(p, r.asset)
  }

  predicate CanonicalWords(r: ActionRequest) {
    && CanonicalHex(r.policyId, 64) && CanonicalHex(r.policyCommitment, 64) && CanonicalHex(r.requestId, 64)
    && CanonicalHex(r.actionType, 64) && CanonicalHex(r.spendCheckpoint, 64) && CanonicalHex(r.balanceCheckpoint, 64)
    && CanonicalHex(r.inputCommitment, 64)
  }

  predicate WithinWidths(r: ActionRequest) {
    && r.scheduleSlot <= MAX_UINT64 && r.createdAt <= MAX_UINT64 && r.graceDeadline <= MAX_UINT64
    && r.expiry <= MAX_UINT64
    && IsUnsigned(r.policyVersion) && IsUnsigned(r.attempt) && IsUnsigned(r.occurrence)
  }

  /** A request in the form that every reader of it produces. */
  predicate CanonicalRequest(p: Primitives, r: ActionRequest) {
    CanonicalAddresses(p, r) && CanonicalWords(r) && WithinWidths(r)
  }

  lemma PrintedNumbers(r: ActionRequest)
    requires WithinWidths(r)
    ensures AcceptsNumbers(PrintRequest(r))
    ensures ReadNat(PrintNat(r.chainId)) == r.chainId && ReadNat(PrintNat(r.requestNonce)) == r.requestNonce
    ensures ReadNat(PrintNat(r.amount)) == r.amount && ReadNat(PrintNat(r.scheduleSlot)) == r.scheduleSlot
    ensures ReadNat(PrintNat(r.createdAt)) == r.createdAt && ReadNat(PrintNat(r.graceDeadline)) == r.graceDeadline
    ensures ReadNat(PrintNat(r.expiry)) == r.expiry
  {
    hide PrintNat, ReadNat, IsCanonicalDecimal;
    PrintedDecimal(r.chainId, r.chainId);
    PrintedDecimal(r.requestNonce, r.requestNonce);
    PrintedDecimal(r.amount, r.amount);
    PrintedDecimal(r.scheduleSlot, MAX_UINT64);
    PrintedDecimal(r.createdAt, MAX_UINT64);
    PrintedDecimal(r.graceDeadline, MAX_UINT64);
    PrintedDecimal(r.expiry, MAX_UINT64);
  }

  /** Parsing undoes printing on canonical requests. */
  lemma RequestSurvivesPrinting(p: Primitives, r: ActionRequest)
    requires CanonicalRequest(p, r)
    ensures AcceptsRequest(p, PrintRequest(r)) && ParseRequest(p, PrintRequest(r)) == r
  {
    hide PrintNat, ReadNat, IsCanonicalDecimal, ToLower, IsHexOf, IsUnsigned, AcceptsNumbers, WithinWidths;
    PrintedNumbers(r);
  }

  /** Parsing produces nothing but canonical requests. */
  lemma ParsedRequestIsCanonical(p: Primitives, w: WireRequest)
    requires ChecksumKeepsAddress(p) && AcceptsRequest(p, w)
    ensures CanonicalRequest(p, ParseRequest(p, w))
  {
    ParsedAddressesAreCanonical(p, w);
    ParsedWordsAreCanonical(p, w);
  }

  lemma ParsedAddressesAreCanonical(p: Primitives, w: WireRequest)
    requires ChecksumKeepsAddress(p) && AcceptsRequest(p, w)
    ensures CanonicalAddresses(p, ParseRequest(p, w))
  {
    hide GetAddress, IsHexOf, ToLower, CanonicalAddress, ChecksumKeepsAddress, IsCanonicalDecimal, ReadNat;
    forall t: Text | IsHexOf(t, 40) ensures CanonicalAddress(p, GetAddress(p, t)) { ChecksummedIsCanonical(p, t); }
  }

  lemma ParsedWordsAreCanonical(p: Primitives, w: WireRequest)
    requires AcceptsRequest(p, w)
    ensures CanonicalWords(ParseRequest(p, w))
  {
    hide GetAddress, IsHexOf, ToLower, CanonicalHex, IsCanonicalDecimal, ReadNat;
    forall t: Text | IsHexOf(t, 64) ensures CanonicalHex(ToLower(t), 64) { LoweredIsCanonical(t, 64); }
  }

  // ---- evaluation envelopes -------------------------------------------------------------

  /** An actor's envelope on the wire; None is a decision or reason text that is not one. */
  datatype WireEnvelope = WireEnvelope(
    actor: int, request: WireRequest, decision: Option<Decision>, publicReasonClass: Option<Reason>,
    reservedAmount: Text,
    resultingCheckpoint: Text, resultNonce: Text, attempt: int, issuedAt: Text, expiry: Text, machineId: Text,
    keyFingerprint: Text, digest: Text, signer: Text, signature: Text)

  datatype ActorEnvelope = ActorEnvelope(actor: int, envelope: Envelope)

  predicate AcceptsEnvelope(p: Primitives, w: WireEnvelope) {
    && w.actor in {1, 2, 3} && AcceptsRequest(p, w.request) && w.decision.Some? && w.publicReasonClass.Some?
    && IsCanonicalDecimal(w.reservedAmount) && IsBytes32(w.resultingCheckpoint) && IsBytes32(w.resultNonce)
    && IsUnsigned(w.attempt) && IsDecimal(w.issuedAt, MAX_UINT64) && IsDecimal(w.expiry, MAX_UINT64)
    && IsBytes32(w.machineId) && IsBytes32(w.keyFingerprint) && IsBytes32(w.digest)
    && IsAddress(p, w.signer) && IsSignature(w.signature)
  }

  /** `parseDemoEvaluationEnvelope`; None is a throw. */
  function ParseEnvelope(p: Primitives, w: WireEnvelope): Option<ActorEnvelope> {
    if !AcceptsEnvelope(p, w) then None
    else Some(ActorEnvelope(w.actor, Envelope(
      EvaluationResult(ParseRequest(p, w.request), w.decision.value, w.publicReasonClass.value,
                       ReadNat(w.reservedAmount),
                       ToLower(w.resultingCheckpoint), ToLower(w.resultNonce), w.attempt, ReadNat(w.issuedAt),
                       ReadNat(w.expiry), ToLower(w.machineId), ToLower(w.keyFingerprint)),
      ToLower(w.digest), GetAddress(p, w.signer), ToLower(w.signature))))
  }

  function PrintEnvelope(a: ActorEnvelope): WireEnvelope {
    var e, r := a.envelope, a.envelope.result;
    WireEnvelope(a.actor, PrintRequest(r.request), Some(r.decision), Some(r.publicReasonClass),
                 PrintNat(r.reservedAmount),
                 r.resultingCheckpoint, r.resultNonce, r.attempt, PrintNat(r.issuedAt), PrintNat(r.expiry), r.machineId,
                 r.keyFingerprint, e.digest, e.signer, e.signature)
  }

  predicate CanonicalResult(p: Primitives, r: EvaluationResult) {
    && CanonicalRequest(p, r.request)
    && CanonicalHex(r.resultingCheckpoint, 64) && CanonicalHex(r.resultNonce, 64)
    && IsUnsigned(r.attempt) && r.issuedAt <= MAX_UINT64 && r.expiry <= MAX_UINT64
    && CanonicalHex(r.machineId, 64) && CanonicalHex(r.keyFingerprint, 64)
  }

  predicate CanonicalEnvelope(p: Primitives, a: ActorEnvelope) {
    && a.actor in {1, 2, 3} && CanonicalResult(p, a.envelope.result)
    && CanonicalHex(a.envelope.digest, 64) && CanonicalAddress(p, a.envelope.signer)
    && CanonicalHex(a.envelope.signature, 130)
  }

  /** The envelopes that survive being printed and parsed are exactly the canonical ones. */
  lemma EnvelopeSurvivesPrinting(p: Primitives, a: ActorEnvelope)
    requires ChecksumKeepsAddress(p)
    ensures ParseEnvelope(p, PrintEnvelope(a)) == Some(a) <==> CanonicalEnvelope(p, a)
  {
    if CanonicalEnvelope(p, a) {
      CanonicalEnvelopeSurvives(p, a);
    }
    if ParseEnvelope(p, PrintEnvelope(a)) == Some(a) {
      ParsedEnvelopeIsCanonical(p, PrintEnvelope(a));
    }
  }

  lemma CanonicalEnvelopeSurvives(p: Primitives, a: ActorEnvelope)
    requires CanonicalEnvelope(p, a)
    ensures ParseEnvelope(p, PrintEnvelope(a)) == Some(a)
  {
    hide PrintNat, ReadNat, IsCanonicalDecimal, IsHexOf, IsUnsigned, ToLower, PrintRequest, ParseRequest,
      CanonicalRequest, AcceptsRequest;
    var r := a.envelope.result;
    RequestSurvivesPrinting(p, r.request);
    PrintedDecimal(r.reservedAmount, r.reservedAmount);
    PrintedDecimal(r.issuedAt, MAX_UINT64);
    PrintedDecimal(r.expiry, MAX_UINT64);
  }

  lemma ParsedEnvelopeIsCanonical(p: Primitives, w: WireEnvelope)
    requires ChecksumKeepsAddress(p) && AcceptsEnvelope(p, w)
    ensures CanonicalEnvelope(p, ParseEnvelope(p, w).value)
  {
    hide GetAddress, IsHexOf, ToLower, CanonicalHex, CanonicalAddress, IsCanonicalDecimal, ReadNat, CanonicalRequest,
      AcceptsRequest, ParseRequest;
    ParsedRequestIsCanonical(p, w.request);
    LoweredIsCanonical(w.resultingCheckpoint, 64);
    LoweredIsCanonical(w.resultNonce, 64);
    LoweredIsCanonical(w.machineId, 64);
    LoweredIsCanonical(w.keyFingerprint, 64);
    LoweredIsCanonical(w.digest, 64);
    LoweredIsCanonical(w.signature, 130);
    ChecksummedIsCanonical(p, w.signer);
  }
}
