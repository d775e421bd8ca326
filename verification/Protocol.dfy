/** The protocol's public records, and the cryptographic and library functions the code calls. */
module Protocol {
  import opened Outcomes
  import opened Texts

  datatype ActionRequest = ActionRequest(
    chainId: nat, registry: Text, vault: Text, router: Text, policyId: Text, policyVersion: nat,
    policyCommitment: Text, requestId: Text, requestNonce: nat, attempt: nat, requester: Text,
    target: Text, asset: Text, actionType: Text, amount: nat, scheduleSlot: nat, occurrence: nat,
    spendCheckpoint: Text, balanceCheckpoint: Text, inputCommitment: Text, createdAt: nat,
    graceDeadline: nat, expiry: nat)

  datatype Decision = ALLOW | DENY

  datatype Reason =
    | OK | POLICY_DENIED | MALFORMED | WRONG_DOMAIN | STALE_INPUT | DEPENDENCY_UNAVAILABLE | EXPIRED
    | STOPPED | INSUFFICIENT_BALANCE | CAP_EXCEEDED | OCCURRENCE_EXCEEDED | TARGET_DENIED
    | REQUESTER_DENIED | ACTION_DENIED | FTSO_INVALID | COOLDOWN | FDC_INVALID

  datatype EvaluationResult = EvaluationResult(
    request: ActionRequest, decision: Decision, publicReasonClass: Reason, reservedAmount: nat,
    resultingCheckpoint: Text, resultNonce: Text, attempt: nat, issuedAt: nat, expiry: nat,
    machineId: Text, keyFingerprint: Text)

  datatype Envelope = Envelope(result: EvaluationResult, digest: Text, signer: Text, signature: Text)

  datatype MachineDescriptor =
    MachineDescriptor(machineId: Text, keyFingerprint: Text, signer: Text, endpoint: Text)

  datatype FtsoSnapshot =
    FtsoSnapshot(feedId: Text, value: int, decimals: int, timestamp: int, checkpoint: Text)

  datatype FdcSnapshot = FdcSnapshot(
    attestationType: Text, sourceId: Text, transactionId: Text, proofOwner: Text, consumer: Text,
    inputCommitment: Text, proofCommitment: Text, sourceAddressHash: Text, receivingAddressHash: Text,
    receivedAmount: nat, hasMemoData: bool, memoDataHash: Text, hasDestinationTag: bool,
    destinationTag: nat, blockNumber: nat, blockTimestamp: nat, transactionConsumed: bool,
    proofConsumed: bool, requestId: Text, routerRequestHash: Text, routerRequestStatus: nat)

  datatype HistoryEntry = HistoryEntry(
    request: ActionRequest, accountedAt: int, ftso: Option<FtsoSnapshot>, fdc: Option<FdcSnapshot>)

  datatype SpendState = SpendState(
    availableBalance: int, history: seq<HistoryEntry>, occurrenceCount: int, lastAccountingAt: int,
    spendCheckpoint: Text, balanceCheckpoint: Text, now: int, ftso: Option<FtsoSnapshot>,
    fdc: Option<FdcSnapshot>)

  datatype Accounting = Accounting(
    deposited: nat, available: nat, reserved: nat, spent: nat, withdrawn: nat, refunded: nat)

  /** What the router stores for a request, as its `getRequest` returns it. */
  datatype StoredRequest = StoredRequest(
    request: ActionRequest, requestHash: Text, status: nat, matchingCount: nat, approvedIssuedAt: nat)

  const PENDING: nat := 1
  const ALLOWED: nat := 2
  const DENIED: nat := 3
  const EXECUTED: nat := 4

  predicate Conserved(a: Accounting) {
    a.deposited == a.available + a.reserved + a.spent + a.withdrawn + a.refunded
  }

  /** What `new URL(text)` exposes. */
  datatype Url = Url(href: Text, protocol: Text, username: Text, password: Text, hostname: Text)

  /** The functions the code takes from elsewhere.  Nothing is known of them except what a
      lemma asks for by one of the predicates below.  Hashing a record that is not encodable
      throws. */
  datatype Primitives = Primitives(
    keccak: Text -> Text,
    encodable: ActionRequest -> bool,
    requestHash: ActionRequest -> Text,
    resultEncodable: EvaluationResult -> bool,
    evaluationDigest: EvaluationResult -> Text,
    attestationDigest: EvaluationResult -> Text,
    recover: (Text, Text) -> Option<Text>,
    checksum: Text -> Text,
    parseUrl: Text -> Option<Url>)

  // ---- addresses ------------------------------------------------------------------------

  /** `getAddress` on a text of the right shape: the checksummed form of its lower case. */
  function GetAddress(p: Primitives, t: Text): Text { p.checksum(ToLower(t)) }

  /** `isAddress`: forty hex digits, all lower case or with the right checksum. */
  predicate IsAddress(p: Primitives, t: Text) {
    IsHexOf(t, 40) && (ToLower(t) == t || GetAddress(p, t) == t)
  }

  /** EIP-55 changes letter case only. */
  ghost predicate ChecksumKeepsAddress(p: Primitives) {
    forall t: Text :: IsHexOf(t, 40) && ToLower(t) == t ==>
      IsHexOf(p.checksum(t), 40) && ToLower(p.checksum(t)) == t
  }

  lemma GetAddressStable(p: Primitives, t: Text)
    requires ChecksumKeepsAddress(p) && IsHexOf(t, 40)
    ensures ToLower(GetAddress(p, t)) == ToLower(t)
    ensures IsAddress(p, GetAddress(p, t)) && GetAddress(p, GetAddress(p, t)) == GetAddress(p, t)
  {
    LowerKeepsHex(t, 40);
    ToLowerIdempotent(t);
  }

  // ---- collision freedom ----------------------------------------------------------------

  ghost predicate KeccakInjective(p: Primitives) {
    forall a, b :: p.keccak(a) == p.keccak(b) ==> a == b
  }

  /** The request up to the letter case of its hex fields, which ABI encoding drops. */
  function NormalRequest(r: ActionRequest): ActionRequest {
    r.(registry := ToLower(r.registry), vault := ToLower(r.vault), router := ToLower(r.router),
       policyId := ToLower(r.policyId), policyCommitment := ToLower(r.policyCommitment),
       requestId := ToLower(r.requestId), requester := ToLower(r.requester),
       target := ToLower(r.target), asset := ToLower(r.asset), actionType := ToLower(r.actionType),
       spendCheckpoint := ToLower(r.spendCheckpoint),
       balanceCheckpoint := ToLower(r.balanceCheckpoint),
       inputCommitment := ToLower(r.inputCommitment))
  }

  ghost predicate RequestHashIdentifies(p: Primitives) {
    forall r, s :: p.encodable(r) && p.encodable(s) ==>
      (p.requestHash(r) == p.requestHash(s) <==> NormalRequest(r) == NormalRequest(s))
  }

  /** The evaluation digest covers every field of a result except who computed it. */
  ghost predicate DigestIgnoresMachine(p: Primitives) {
    forall r: EvaluationResult, machineId: Text, keyFingerprint: Text ::
      p.evaluationDigest(r.(machineId := machineId, keyFingerprint := keyFingerprint)) == p.evaluationDigest(r)
  }
}
