/** The public custody bundle: three receipts over one policy binding, decoded from and encoded
    to its wire form. */
module Custody {
  import opened Outcomes
  import opened Texts
  import opened Protocol
  import opened Wires

  datatype Binding = Binding(
    chainId: nat, registry: Text, vault: Text, router: Text, owner: Text, policyId: Text, policyVersion: nat,
    policyCommitment: Text, schema: Text, extensionId: Text, codeVersion: Text, machineIds: seq<Text>,
    keyFingerprints: seq<Text>, custodyThreshold: nat, resultThreshold: nat, policyNonce: nat)

  datatype WireBinding = WireBinding(
    chainId: Text, registry: Text, vault: Text, router: Text, owner: Text, policyId: Text, policyVersion: Text,
    policyCommitment: Text, schema: Text, extensionId: Text, codeVersion: Text, machineIds: seq<Text>,
    keyFingerprints: seq<Text>, custodyThreshold: Text, resultThreshold: Text, policyNonce: Text)

  datatype Receipt = Receipt(
    machineId: Text, keyFingerprint: Text, submissionNonce: Text, receiptNonce: nat, issuedAt: nat, expiry: nat,
    digest: Text, signer: Text, signature: Text)

  datatype WireReceipt = WireReceipt(
    machineId: Text, keyFingerprint: Text, submissionNonce: Text, receiptNonce: Text, issuedAt: Text, expiry: Text,
    digest: Text, signer: Text, signature: Text)

  datatype Bundle = Bundle(binding: Binding, receipts: seq<Receipt>, bundleHash: Text)

  datatype WireBundle = WireBundle(binding: WireBinding, receipts: seq<WireReceipt>, bundleHash: Text)

  /** What a receipt's digest and attestation cover besides the binding. */
  datatype Core = Core(
    machineId: Text, keyFingerprint: Text, submissionNonce: Text, receiptNonce: nat, issuedAt: nat, expiry: nat)

  datatype Hashes = Hashes(
    schema: Text, digest: (Binding, Core) -> Text, attestation: (Binding, Core) -> Text, bundle: seq<Text> -> Text)

  // ---- fields ---------------------------------------------------------------------------

  predicate IsWord(t: Text) { IsBytes32(t) && ToLower(t) != ZERO_BYTES32 }

  predicate IsPublicAddress(p: Primitives, t: Text) { IsAddress(p, t) && GetAddress(p, t) != ZERO_ADDRESS }

  predicate AreWords(ts: seq<Text>) { |ts| == 3 && IsWord(ts[0]) && IsWord(ts[1]) && IsWord(ts[2]) }

  function Lowered(ts: seq<Text>): (r: seq<Text>)
    ensures |r| == |ts| && forall i :: 0 <= i < |ts| ==> r[i] == ToLower(ts[i])
  {
    seq(|ts|, i requires 0 <= i < |ts| => ToLower(ts[i]))
  }

  /** The three texts are three different ones. */
  predicate Distinct(ts: seq<Text>) { |ts| == 3 && ts[0] != ts[1] && ts[0] != ts[2] && ts[1] != ts[2] }

  // ---- bindings -------------------------------------------------------------------------

  predicate AcceptsIdentity(p: Primitives, b: Binding) {
    && IsPublicAddress(p, b.registry) && IsPublicAddress(p, b.vault) && IsPublicAddress(p, b.router)
    && IsPublicAddress(p, b.owner)
    && IsWord(b.policyId) && IsWord(b.policyCommitment) && IsWord(b.schema) && IsWord(b.extensionId)
    && IsWord(b.codeVersion)
    && AreWords(b.machineIds) && AreWords(b.keyFingerprints)
  }

  predicate AcceptsTerms(h: Hashes, b: Binding) {
    && 0 < b.chainId <= MAX_UINT256 && 0 < b.policyVersion <= MAX_UINT32 && 0 < b.policyNonce <= MAX_UINT64
    && b.custodyThreshold == 3 && b.resultThreshold == 2 && ToLower(b.schema) == h.schema
    && Distinct(Lowered(b.machineIds)) && Distinct(Lowered(b.keyFingerprints))
  }

  function Canonical(p: Primitives, b: Binding): Binding {
    b.(registry := GetAddress(p, b.registry), vault := GetAddress(p, b.vault), router := GetAddress(p, b.router),
       owner := GetAddress(p, b.owner), policyId := ToLower(b.policyId),
       policyCommitment := ToLower(b.policyCommitment),
       schema := ToLower(b.schema), extensionId := ToLower(b.extensionId), codeVersion := ToLower(b.codeVersion),
       machineIds := Lowered(b.machineIds), keyFingerprints := Lowered(b.keyFingerprints))
  }

  /** `normalizeBinding`; None is a throw. */
  function NormalizeBinding(p: Primitives, h: Hashes, b: Binding): Option<Binding> {
    if AcceptsIdentity(p, b) && AcceptsTerms(h, b) then Some(Canonical(p, b)) else None
  }

  predicate ReadableBinding(w: WireBinding) {
    && IsDecimal(w.chainId, MAX_UINT256) && IsDecimal(w.policyVersion, MAX_UINT32)
    && IsDecimal(w.custodyThreshold, MAX_UINT8)
    && IsDecimal(w.resultThreshold, MAX_UINT8) && IsDecimal(w.policyNonce, MAX_UINT64)
  }

  /** The wire's texts as they stand, with its numbers read. */
  function RawBinding(w: WireBinding): Binding
    requires ReadableBinding(w)
  {
    Binding(ReadNat(w.chainId), w.registry, w.vault, w.router, w.owner, w.policyId, ReadNat(w.policyVersion),
            w.policyCommitment,
            w.schema, w.extensionId, w.codeVersion, w.machineIds, w.keyFingerprints, ReadNat(w.custodyThreshold),
            ReadNat(w.resultThreshold), ReadNat(w.policyNonce))
  }

  /** `decodeBinding` normalises every field as it reads it, and then normalises the whole. */
  function DecodeBinding(p: Primitives, h: Hashes, w: WireBinding): Option<Binding> {
    if !ReadableBinding(w) || !AcceptsIdentity(p, RawBinding(w)) then None
    else NormalizeBinding(p, h, Canonical(p, RawBinding(w)))
  }

  function PrintBinding(b: Binding): WireBinding {
    WireBinding(PrintNat(b.chainId), b.registry, b.vault, b.router, b.owner, b.policyId, PrintNat(b.policyVersion),
                b.policyCommitment, b.schema, b.extensionId, b.codeVersion, b.machineIds, b.keyFingerprints,
                PrintNat(b.custodyThreshold), PrintNat(b.resultThreshold), PrintNat(b.policyNonce))
  }

  function EncodeBinding(p: Primitives, h: Hashes, b: Binding): Option<WireBinding> {
    match NormalizeBinding(p, h, b) case None => None case Some(c) => Some(PrintBinding(c))
  }

  // ---- receipts -------------------------------------------------------------------------

  function CoreOf(r: Receipt): Core {
    Core(ToLower(r.machineId), ToLower(r.keyFingerprint), ToLower(r.submissionNonce), r.receiptNonce, r.issuedAt,
         r.expiry)
  }

  predicate AcceptsReceipt(h: Hashes, r: Receipt, b: Binding, i: nat) {
    && IsWord(r.machineId) && IsWord(r.keyFingerprint) && IsWord(r.submissionNonce) && IsWord(r.digest)
    && IsHexOf(r.signer, 40)
    && i < |b.machineIds| && i < |b.keyFingerprints|
    && ToLower(r.machineId) == b.machineIds[i] && ToLower(r.keyFingerprint) == b.keyFingerprints[i]
    && r.receiptNonce == b.policyNonce && r.issuedAt < r.expiry <= MAX_UINT64
    && ToLower(r.digest) == h.digest(b, CoreOf(r))
  }

  /** `validateReceipt`; the signature is passed on as it is. */
  function ValidateReceipt(p: Primitives, h: Hashes, r: Receipt, b: Binding, i: nat): Option<Receipt> {
    if !AcceptsReceipt(h, r, b, i) then None
    else Some(r.(machineId := ToLower(r.machineId), keyFingerprint := ToLower(r.keyFingerprint),
                 submissionNonce := ToLower(r.submissionNonce), digest := ToLower(r.digest),
                 signer := GetAddress(p, r.signer)))
  }

  predicate ReadableReceipt(p: Primitives, w: WireReceipt) {
    && IsDecimal(w.receiptNonce, MAX_UINT64) && IsDecimal(w.issuedAt, MAX_UINT64) && IsDecimal(w.expiry, MAX_UINT64)
    && IsWord(w.machineId) && IsWord(w.keyFingerprint) && IsWord(w.submissionNonce) && IsWord(w.digest)
    && IsPublicAddress(p, w.signer) && IsSignature(w.signature)
  }

  function ReadReceipt(p: Primitives, w: WireReceipt): Receipt
    requires ReadableReceipt(p, w)
  {
    Receipt(ToLower(w.machineId), ToLower(w.keyFingerprint), ToLower(w.submissionNonce), ReadNat(w.receiptNonce),
            ReadNat(w.issuedAt), ReadNat(w.expiry), ToLower(w.digest), GetAddress(p, w.signer), ToLower(w.signature))
  }

  function DecodeReceipt(p: Primitives, h: Hashes, w: WireReceipt, b: Binding, i: nat): Option<Receipt> {
    if ReadableReceipt(p, w) then ValidateReceipt(p, h, ReadReceipt(p, w), b, i) else None
  }

  function PrintReceipt(r: Receipt): WireReceipt {
    WireReceipt(r.machineId, r.keyFingerprint, r.submissionNonce, PrintNat(r.receiptNonce), PrintNat(r.issuedAt),
                PrintNat(r.expiry), r.digest, r.signer, r.signature)
  }

  predicate SignedReceipt(p: Primitives, h: Hashes, r: Receipt, b: Binding) {
    var core := Core(r.machineId, r.keyFingerprint, r.submissionNonce, r.receiptNonce, r.issuedAt, r.expiry);
    var recovered := p.recover(h.attestation(b, core), r.signature);
    recovered.Some? && GetAddress(p, recovered.value) == GetAddress(p, r.signer)
  }

  // ---- bundles --------------------------------------------------------------------------

  /** `assertReceiptSet`: one nonce and one time window, in the binding's machine order. */
  predicate SameWindow(rs: seq<Receipt>, b: Binding) {
    && |rs| == 3 && |b.machineIds| == 3 && |b.keyFingerprints| == 3
    && forall i :: 0 <= i < 3 ==>
         && rs[i].machineId == b.machineIds[i] && rs[i].keyFingerprint == b.keyFingerprints[i]
         && rs[i].submissionNonce == rs[0].submissionNonce && rs[i].issuedAt == rs[0].issuedAt
         && rs[i].expiry == rs[0].expiry
  }

  /** `policyCustodyBundleHash` normalises and validates what it hashes once more. */
  function BundleHash(p: Primitives, h: Hashes, b: Binding, rs: seq<Receipt>): Option<Text> {
    match NormalizeBinding(p, h, b)
    case None => None
    case Some(n) =>
      if |rs| != 3 then None
      else
        var x, y := ValidateReceipt(p, h, rs[0], n, 0), ValidateReceipt(p, h, rs[1], n, 1);
        var z := ValidateReceipt(p, h, rs[2], n, 2);
        if x.None? || y.None? || z.None? || !SameWindow([x.value, y.value, z.value], n) then None
        else Some(h.bundle([x.value.digest, y.value.digest, z.value.digest]))
  }

  /** `decodePublicPolicyCustodyBundle`; None is a throw. */
  function Decode(p: Primitives, h: Hashes, w: WireBundle): Option<Bundle> {
    match DecodeBinding(p, h, w.binding)
    case None => None
    case Some(b) =>
      if |w.receipts| != 3 then None
      else
        var x, y := DecodeReceipt(p, h, w.receipts[0], b, 0), DecodeReceipt(p, h, w.receipts[1], b, 1);
        var z := DecodeReceipt(p, h, w.receipts[2], b, 2);
        if x.None? || y.None? || z.None? then None
        else
          var rs := [x.value, y.value, z.value];
          var signed := SignedReceipt(p, h, rs[0], b) && SignedReceipt(p, h, rs[1], b) && SignedReceipt(p, h, rs[2], b);
          if !SameWindow(rs, b) || !signed then None
          else if !IsWord(w.bundleHash) || BundleHash(p, h, b, rs) != Some(ToLower(w.bundleHash)) then None
          else Some(Bundle(b, rs, ToLower(w.bundleHash)))
  }

  function PrintReceipts(rs: seq<Receipt>): seq<WireReceipt> {
    seq(|rs|, i requires 0 <= i < |rs| => PrintReceipt(rs[i]))
  }

  function PrintBundle(b: Bundle): WireBundle {
    WireBundle(PrintBinding(b.binding), PrintReceipts(b.receipts), b.bundleHash)
  }

  /** `encodePublicPolicyCustodyBundle`: it decodes what it has encoded, and encodes that. */
  function Encode(p: Primitives, h: Hashes, bundle: Bundle): Option<WireBundle> {
    match EncodeBinding(p, h, bundle.binding)
    case None => None
    case Some(wire) =>
      match Decode(p, h, WireBundle(wire, PrintReceipts(bundle.receipts), bundle.bundleHash))
      case None => None
      case Some(canonical) =>
        match EncodeBinding(p, h, canonical.binding)
        case None => None
        case Some(again) => Some(WireBundle(again, PrintReceipts(canonical.receipts), canonical.bundleHash))
  }

  // ---- normal forms ---------------------------------------------------------------------

  predicate NormalIdentity(p: Primitives, b: Binding) {
    && CanonicalAddress(p, b.registry) && CanonicalAddress(p, b.vault) && CanonicalAddress(p, b.router)
    && CanonicalAddress(p, b.owner)
    && CanonicalHex(b.policyId, 64) && CanonicalHex(b.policyCommitment, 64) && CanonicalHex(b.schema, 64)
    && CanonicalHex(b.extensionId, 64) && CanonicalHex(b.codeVersion, 64)
    && Lowered(b.machineIds) == b.machineIds && Lowered(b.keyFingerprints) == b.keyFingerprints
  }

  /** A binding that normalisation accepts and leaves alone. */
  predicate NormalBinding(p: Primitives, h: Hashes, b: Binding) {
    NormalIdentity(p, b) && AcceptsIdentity(p, b) && AcceptsTerms(h, b)
  }

  lemma LoweredTwice(ts: seq<Text>)
    ensures Lowered(Lowered(ts)) == Lowered(ts)
    ensures AreWords(ts) ==> AreWords(Lowered(ts))
  {
    forall i | 0 <= i < |ts| ensures ToLower(ToLower(ts[i])) == ToLower(ts[i]) { ToLowerIdempotent(ts[i]); }
    if AreWords(ts) {
      WordIsNormal(ts[0]);
      WordIsNormal(ts[1]);
      WordIsNormal(ts[2]);
    }
  }

  lemma WordIsNormal(t: Text)
    requires IsWord(t)
    ensures IsWord(ToLower(t)) && CanonicalHex(ToLower(t), 64)
  {
    hide IsHexOf;
    LoweredIsCanonical(t, 64);
  }

  lemma AddressIsNormal(p: Primitives, t: Text)
    requires ChecksumKeepsAddress(p) && IsPublicAddress(p, t)
    ensures IsPublicAddress(p, GetAddress(p, t)) && CanonicalAddress(p, GetAddress(p, t))
  {
    hide IsHexOf, ChecksumKeepsAddress;
    GetAddressStable(p, t);
    ChecksummedIsCanonical(p, t);
  }

  lemma CanonicalIsNormal(p: Primitives, b: Binding)
    requires ChecksumKeepsAddress(p) && AcceptsIdentity(p, b)
    ensures NormalIdentity(p, Canonical(p, b)) && AcceptsIdentity(p, Canonical(p, b))
  {
    hide IsPublicAddress, CanonicalAddress, IsWord, CanonicalHex, AreWords, Lowered, ToLower, GetAddress,
      ChecksumKeepsAddress;
    AddressIsNormal(p, b.registry);
    AddressIsNormal(p, b.vault);
    AddressIsNormal(p, b.router);
    AddressIsNormal(p, b.owner);
    WordIsNormal(b.policyId);
    WordIsNormal(b.policyCommitment);
    WordIsNormal(b.schema);
    WordIsNormal(b.extensionId);
    WordIsNormal(b.codeVersion);
    LoweredTwice(b.machineIds);
    LoweredTwice(b.keyFingerprints);
  }

  lemma NormalIsFixed(p: Primitives, b: Binding)
    requires NormalIdentity(p, b)
    ensures Canonical(p, b) == b
  {
    hide IsHexOf, Lowered, ToLower, GetAddress;
  }

  lemma DecodedBindingIsNormal(p: Primitives, h: Hashes, w: WireBinding)
    requires ChecksumKeepsAddress(p) && DecodeBinding(p, h, w).Some?
    ensures NormalBinding(p, h, DecodeBinding(p, h, w).value)
    ensures DecodeBinding(p, h, w).value == Canonical(p, RawBinding(w))
  {
    hide AcceptsTerms, AcceptsIdentity, NormalIdentity, Canonical, ReadableBinding, RawBinding, ChecksumKeepsAddress;
    CanonicalIsNormal(p, RawBinding(w));
    NormalIsFixed(p, Canonical(p, RawBinding(w)));
  }

  lemma NormalBindingPrints(p: Primitives, h: Hashes, b: Binding)
    requires NormalBinding(p, h, b)
    ensures DecodeBinding(p, h, PrintBinding(b)) == Some(b) && EncodeBinding(p, h, b) == Some(PrintBinding(b))
    ensures NormalizeBinding(p, h, b) == Some(b)
  {
    PrintedBinding(h, b);
    hide AcceptsTerms, AcceptsIdentity, NormalIdentity, Canonical, PrintBinding, RawBinding, ReadableBinding;
    NormalIsFixed(p, b);
  }

  lemma PrintedBinding(h: Hashes, b: Binding)
    requires AcceptsTerms(h, b)
    ensures ReadableBinding(PrintBinding(b)) && RawBinding(PrintBinding(b)) == b
  {
    hide PrintNat, ReadNat, IsCanonicalDecimal, Lowered, Distinct, ToLower;
    PrintedDecimal(b.chainId, MAX_UINT256);
    PrintedDecimal(b.policyVersion, MAX_UINT32);
    PrintedDecimal(b.custodyThreshold, MAX_UINT8);
    PrintedDecimal(b.resultThreshold, MAX_UINT8);
    PrintedDecimal(b.policyNonce, MAX_UINT64);
  }

  /** A receipt that validation accepts and leaves alone, with a well-formed lower-case signature. */
  predicate NormalReceipt(p: Primitives, h: Hashes, r: Receipt, b: Binding, i: nat) {
    && ValidateReceipt(p, h, r, b, i) == Some(r) && CanonicalHex(r.signature, 130) && IsPublicAddress(p, r.signer)
  }

  lemma DecodedReceiptIsNormal(p: Primitives, h: Hashes, w: WireReceipt, b: Binding, i: nat)
    requires ChecksumKeepsAddress(p) && DecodeReceipt(p, h, w, b, i).Some?
    ensures NormalReceipt(p, h, DecodeReceipt(p, h, w, b, i).value, b, i)
    ensures DecodeReceipt(p, h, w, b, i).value == ReadReceipt(p, w)
  {
    hide IsHexOf, ToLower, ReadNat, IsCanonicalDecimal, ChecksumKeepsAddress, GetAddress, IsPublicAddress, IsWord;
    WordIsNormal(w.machineId);
    WordIsNormal(w.keyFingerprint);
    WordIsNormal(w.submissionNonce);
    WordIsNormal(w.digest);
    AddressIsNormal(p, w.signer);
    LoweredIsCanonical(w.signature, 130);
  }

  lemma NormalReceiptPrints(p: Primitives, h: Hashes, r: Receipt, b: Binding, i: nat)
    requires NormalReceipt(p, h, r, b, i) && b.policyNonce <= MAX_UINT64
    ensures DecodeReceipt(p, h, PrintReceipt(r), b, i) == Some(r)
  {
    hide IsHexOf, ToLower, ReadNat, PrintNat, IsCanonicalDecimal, GetAddress, IsPublicAddress, IsWord;
    PrintedDecimal(r.receiptNonce, MAX_UINT64);
    PrintedDecimal(r.issuedAt, MAX_UINT64);
    PrintedDecimal(r.expiry, MAX_UINT64);
    NormalSigner(p, r.signer);
  }

  lemma NormalSigner(p: Primitives, t: Text)
    ensures IsPublicAddress(p, t) ==> IsHexOf(t, 40)
  {
  }

  predicate NormalBundle(p: Primitives, h: Hashes, b: Bundle) {
    && NormalBinding(p, h, b.binding) && |b.receipts| == 3
    && NormalReceipt(p, h, b.receipts[0], b.binding, 0) && NormalReceipt(p, h, b.receipts[1], b.binding, 1)
    && NormalReceipt(p, h, b.receipts[2], b.binding, 2)
    && SameWindow(b.receipts, b.binding)
    && SignedReceipt(p, h, b.receipts[0], b.binding) && SignedReceipt(p, h, b.receipts[1], b.binding)
    && SignedReceipt(p, h, b.receipts[2], b.binding)
    && IsWord(b.bundleHash) && ToLower(b.bundleHash) == b.bundleHash
    && b.bundleHash == h.bundle([b.receipts[0].digest, b.receipts[1].digest, b.receipts[2].digest])
  }

  lemma HashAssembles(p: Primitives, h: Hashes, b: Binding, rs: seq<Receipt>)
    requires |rs| == 3 && NormalizeBinding(p, h, b) == Some(b) && SameWindow(rs, b)
    requires ValidateReceipt(p, h, rs[0], b, 0) == Some(rs[0]) && ValidateReceipt(p, h, rs[1], b, 1) == Some(rs[1])
    requires ValidateReceipt(p, h, rs[2], b, 2) == Some(rs[2])
    ensures BundleHash(p, h, b, rs) == Some(h.bundle([rs[0].digest, rs[1].digest, rs[2].digest]))
  {
    hide NormalizeBinding, ValidateReceipt, SameWindow;
    assert rs == [rs[0], rs[1], rs[2]];
  }

  lemma NormalBundleHash(p: Primitives, h: Hashes, b: Binding, rs: seq<Receipt>)
    requires NormalBinding(p, h, b) && |rs| == 3 && SameWindow(rs, b)
    requires NormalReceipt(p, h, rs[0], b, 0) && NormalReceipt(p, h, rs[1], b, 1) && NormalReceipt(p, h, rs[2], b, 2)
    ensures BundleHash(p, h, b, rs) == Some(h.bundle([rs[0].digest, rs[1].digest, rs[2].digest]))
  {
    hide NormalBinding, NormalizeBinding, DecodeBinding, EncodeBinding, PrintBinding, ValidateReceipt, SameWindow,
      CanonicalHex, IsPublicAddress, BundleHash;
    NormalBindingPrints(p, h, b);
    HashAssembles(p, h, b, rs);
  }

  /** Decoding produces nothing but normal bundles. */
  lemma DecodedIsNormal(p: Primitives, h: Hashes, w: WireBundle)
    requires ChecksumKeepsAddress(p) && Decode(p, h, w).Some?
    ensures NormalBundle(p, h, Decode(p, h, w).value)
  {
    hide NormalBinding, DecodeBinding, DecodeReceipt, NormalReceipt, SameWindow, SignedReceipt, IsWord, BundleHash,
      ChecksumKeepsAddress;
    var b := DecodeBinding(p, h, w.binding).value;
    DecodedBindingIsNormal(p, h, w.binding);
    DecodedReceiptIsNormal(p, h, w.receipts[0], b, 0);
    DecodedReceiptIsNormal(p, h, w.receipts[1], b, 1);
    DecodedReceiptIsNormal(p, h, w.receipts[2], b, 2);
    var rs := Decode(p, h, w).value.receipts;
    NormalBundleHash(p, h, b, rs);
    WordIsNormal(w.bundleHash);
  }

  /** Decoding, given what its parts decode to. */
  lemma DecodeAssembles(p: Primitives, h: Hashes, w: WireBundle, b: Bundle)
    requires |b.receipts| == 3 && |w.receipts| == 3 && DecodeBinding(p, h, w.binding) == Some(b.binding)
    requires DecodeReceipt(p, h, w.receipts[0], b.binding, 0) == Some(b.receipts[0])
    requires DecodeReceipt(p, h, w.receipts[1], b.binding, 1) == Some(b.receipts[1])
    requires DecodeReceipt(p, h, w.receipts[2], b.binding, 2) == Some(b.receipts[2])
    requires SameWindow(b.receipts, b.binding) && SignedReceipt(p, h, b.receipts[0], b.binding)
    requires SignedReceipt(p, h, b.receipts[1], b.binding) && SignedReceipt(p, h, b.receipts[2], b.binding)
    requires IsWord(w.bundleHash) && ToLower(w.bundleHash) == b.bundleHash
    requires BundleHash(p, h, b.binding, b.receipts) == Some(b.bundleHash)
    ensures Decode(p, h, w) == Some(b)
  {
    hide DecodeBinding, DecodeReceipt, SameWindow, SignedReceipt, IsWord, BundleHash, ToLower;
    assert b.receipts == [b.receipts[0], b.receipts[1], b.receipts[2]];
  }

  lemma NormalBundleDecodes(p: Primitives, h: Hashes, b: Bundle)
    requires NormalBundle(p, h, b)
    ensures Decode(p, h, PrintBundle(b)) == Some(b)
    ensures NormalBinding(p, h, b.binding)
  {
    NonceFits(p, h, b.binding);
    hide NormalBinding, DecodeBinding, DecodeReceipt, NormalReceipt, SameWindow, SignedReceipt, IsWord, BundleHash,
      PrintReceipt, PrintBinding, ToLower, Decode;
    NormalBindingPrints(p, h, b.binding);
    NormalReceiptPrints(p, h, b.receipts[0], b.binding, 0);
    NormalReceiptPrints(p, h, b.receipts[1], b.binding, 1);
    NormalReceiptPrints(p, h, b.receipts[2], b.binding, 2);
    NormalBundleHash(p, h, b.binding, b.receipts);
    DecodeAssembles(p, h, PrintBundle(b), b);
  }

  lemma NonceFits(p: Primitives, h: Hashes, b: Binding)
    ensures NormalBinding(p, h, b) ==> b.policyNonce <= MAX_UINT64
  {
  }

  /** A normal bundle is what its printed form decodes to, and that form is what it encodes to. */
  lemma NormalBundlePrints(p: Primitives, h: Hashes, b: Bundle)
    requires NormalBundle(p, h, b)
    ensures Decode(p, h, PrintBundle(b)) == Some(b) && Encode(p, h, b) == Some(PrintBundle(b))
  {
    hide NormalBundle, NormalBinding, Decode, EncodeBinding, PrintBinding, PrintReceipts;
    NormalBundleDecodes(p, h, b);
    NormalBindingPrints(p, h, b.binding);
  }

  /** Whatever wire is accepted, its bundle can be encoded, what is encoded decodes to the same
      bundle, and it is a fixed point of decoding and encoding. */
  lemma CodecIsIdempotent(p: Primitives, h: Hashes, w: WireBundle)
    requires ChecksumKeepsAddress(p) && Decode(p, h, w).Some?
    ensures var b := Decode(p, h, w).value;
      && Encode(p, h, b).Some?
      && Decode(p, h, Encode(p, h, b).value) == Some(b)
      && Encode(p, h, Decode(p, h, Encode(p, h, b).value).value) == Encode(p, h, b)
  {
    hide Decode, Encode, NormalBundle, PrintBundle, ChecksumKeepsAddress;
    DecodedIsNormal(p, h, w);
    NormalBundlePrints(p, h, Decode(p, h, w).value);
  }

  /** Encoding any bundle at all, if it succeeds, gives the wire of a normal bundle. */
  lemma EncodedIsFixed(p: Primitives, h: Hashes, b: Bundle)
    requires ChecksumKeepsAddress(p) && Encode(p, h, b).Some?
    ensures var w := Encode(p, h, b).value;
      Decode(p, h, w).Some? && Encode(p, h, Decode(p, h, w).value) == Some(w)
  {
    hide Decode, NormalBundle, ChecksumKeepsAddress, EncodeBinding, NormalBinding, PrintReceipts;
    var sent := WireBundle(EncodeBinding(p, h, b.binding).value, PrintReceipts(b.receipts), b.bundleHash);
    var canonical := Decode(p, h, sent).value;
    DecodedIsNormal(p, h, sent);
    NormalBundlePrints(p, h, canonical);
    assert NormalBinding(p, h, canonical.binding) by { BundleBinding(p, h, canonical); }
    NormalBindingPrints(p, h, canonical.binding);
  }

  lemma BundleBinding(p: Primitives, h: Hashes, b: Bundle)
    requires NormalBundle(p, h, b)
    ensures NormalBinding(p, h, b.binding)
  {
  }

  // ---- letter case ----------------------------------------------------------------------

  predicate SameLetters(ts: seq<Text>, us: seq<Text>) { Lowered(ts) == Lowered(us) }

  /** The bindings differ at most in the letter case of their hex texts. */
  predicate SameBindingLetters(v: WireBinding, w: WireBinding) {
    && v.chainId == w.chainId && v.policyVersion == w.policyVersion && v.custodyThreshold == w.custodyThreshold
    && v.resultThreshold == w.resultThreshold && v.policyNonce == w.policyNonce
    && ToLower(v.registry) == ToLower(w.registry) && ToLower(v.vault) == ToLower(w.vault)
    && ToLower(v.router) == ToLower(w.router)
    && ToLower(v.owner) == ToLower(w.owner) && ToLower(v.policyId) == ToLower(w.policyId)
    && ToLower(v.policyCommitment) == ToLower(w.policyCommitment) && ToLower(v.schema) == ToLower(w.schema)
    && ToLower(v.extensionId) == ToLower(w.extensionId) && ToLower(v.codeVersion) == ToLower(w.codeVersion)
    && SameLetters(v.machineIds, w.machineIds) && SameLetters(v.keyFingerprints, w.keyFingerprints)
  }

  predicate SameReceiptLetters(v: WireReceipt, w: WireReceipt) {
    && v.receiptNonce == w.receiptNonce && v.issuedAt == w.issuedAt && v.expiry == w.expiry
    && ToLower(v.machineId) == ToLower(w.machineId) && ToLower(v.keyFingerprint) == ToLower(w.keyFingerprint)
    && ToLower(v.submissionNonce) == ToLower(w.submissionNonce) && ToLower(v.digest) == ToLower(w.digest)
    && ToLower(v.signer) == ToLower(w.signer) && ToLower(v.signature) == ToLower(w.signature)
  }

  predicate SameBundleLetters(v: WireBundle, w: WireBundle) {
    && SameBindingLetters(v.binding, w.binding) && |v.receipts| == |w.receipts|
    && (forall i :: 0 <= i < |v.receipts| ==> SameReceiptLetters(v.receipts[i], w.receipts[i]))
    && ToLower(v.bundleHash) == ToLower(w.bundleHash)
  }

  predicate Prefixed(t: Text) { |t| >= 2 && t[0] == 0x30 && t[1] == 0x78 }

  predicate ArePrefixed(ts: seq<Text>) { forall i :: 0 <= i < |ts| ==> Prefixed(ts[i]) }

  /** The spelling that letter case alone can get wrong: addresses are all lower case or carry the
      right EIP-55 checksum, and no hex text starts with `0X`. */
  predicate SpelledBinding(p: Primitives, w: WireBinding) {
    && IsAddress(p, w.registry) && IsAddress(p, w.vault) && IsAddress(p, w.router) && IsAddress(p, w.owner)
    && Prefixed(w.policyId) && Prefixed(w.policyCommitment) && Prefixed(w.schema) && Prefixed(w.extensionId)
    && Prefixed(w.codeVersion) && ArePrefixed(w.machineIds) && ArePrefixed(w.keyFingerprints)
  }

  predicate SpelledReceipt(p: Primitives, w: WireReceipt) {
    && IsAddress(p, w.signer) && Prefixed(w.machineId) && Prefixed(w.keyFingerprint) && Prefixed(w.submissionNonce)
    && Prefixed(w.digest) && Prefixed(w.signature)
  }

  predicate Spelled(p: Primitives, w: WireBundle) {
    SpelledBinding(p, w.binding) && Prefixed(w.bundleHash)
    && forall i :: 0 <= i < |w.receipts| ==> SpelledReceipt(p, w.receipts[i])
  }

  lemma HexCase(t: Text, u: Text, digits: nat)
    requires IsHexOf(t, digits) && ToLower(t) == ToLower(u)
    ensures IsHexOf(u, digits) <==> Prefixed(u)
  {
    assert |t| == |ToLower(t)| == |ToLower(u)| == |u|;
    forall i | 0 <= i < digits ensures IsHexDigit(u[2..][i]) {
      assert IsHexDigit(t[2..][i]);
      assert ToLower(t)[i + 2] == ToLower(u)[i + 2];
    }
  }

  lemma WordCase(t: Text, u: Text)
    requires IsWord(t) && ToLower(t) == ToLower(u)
    ensures IsWord(u) <==> Prefixed(u)
  {
    hide ToLower, IsHexOf;
    HexCase(t, u, 64);
  }

  lemma WordsCase(ts: seq<Text>, us: seq<Text>)
    requires AreWords(ts) && SameLetters(ts, us)
    ensures AreWords(us) <==> ArePrefixed(us)
  {
    hide ToLower, IsWord, Prefixed;
    assert |ts| == |Lowered(ts)| == |Lowered(us)| == |us|;
    forall i | 0 <= i < 3 ensures IsWord(us[i]) <==> Prefixed(us[i]) {
      assert Lowered(ts)[i] == Lowered(us)[i];
      WordCase(ts[i], us[i]);
    }
  }

  lemma AddressCase(p: Primitives, t: Text, u: Text)
    requires IsPublicAddress(p, t) && ToLower(t) == ToLower(u)
    ensures IsPublicAddress(p, u) <==> IsAddress(p, u)
    ensures GetAddress(p, t) == GetAddress(p, u)
  {
  }

  lemma IdentityCase(p: Primitives, v: WireBinding, w: WireBinding)
    requires SameBindingLetters(v, w) && ReadableBinding(v) && AcceptsIdentity(p, RawBinding(v))
    ensures ReadableBinding(w) && (AcceptsIdentity(p, RawBinding(w)) <==> SpelledBinding(p, w))
    ensures Canonical(p, RawBinding(v)) == Canonical(p, RawBinding(w))
  {
    hide ToLower, IsWord, IsAddress, IsPublicAddress, GetAddress, AreWords, Lowered, Prefixed, ArePrefixed,
      IsCanonicalDecimal, ReadNat;
    AddressCase(p, v.registry, w.registry);
    AddressCase(p, v.vault, w.vault);
    AddressCase(p, v.router, w.router);
    AddressCase(p, v.owner, w.owner);
    WordCase(v.policyId, w.policyId);
    WordCase(v.policyCommitment, w.policyCommitment);
    WordCase(v.schema, w.schema);
    WordCase(v.extensionId, w.extensionId);
    WordCase(v.codeVersion, w.codeVersion);
    WordsCase(v.machineIds, w.machineIds);
    WordsCase(v.keyFingerprints, w.keyFingerprints);
  }

  lemma BindingCase(p: Primitives, h: Hashes, v: WireBinding, w: WireBinding)
    requires SameBindingLetters(v, w) && DecodeBinding(p, h, v).Some?
    ensures DecodeBinding(p, h, w) == if SpelledBinding(p, w) then DecodeBinding(p, h, v) else None
  {
    hide SameBindingLetters, ReadableBinding, AcceptsIdentity, RawBinding, Canonical, SpelledBinding, NormalizeBinding;
    IdentityCase(p, v, w);
  }

  lemma ReceiptCase(p: Primitives, h: Hashes, v: WireReceipt, w: WireReceipt, b: Binding, i: nat)
    requires SameReceiptLetters(v, w) && DecodeReceipt(p, h, v, b, i).Some?
    ensures DecodeReceipt(p, h, w, b, i) == if SpelledReceipt(p, w) then DecodeReceipt(p, h, v, b, i) else None
  {
    hide ValidateReceipt, ToLower, IsCanonicalDecimal, ReadNat, IsWord, IsHexOf, IsAddress, IsPublicAddress,
      GetAddress, Prefixed;
    AddressCase(p, v.signer, w.signer);
    WordCase(v.machineId, w.machineId);
    WordCase(v.keyFingerprint, w.keyFingerprint);
    WordCase(v.submissionNonce, w.submissionNonce);
    WordCase(v.digest, w.digest);
    HexCase(v.signature, w.signature, 130);
  }

  /** A wire that differs from an accepted one only in the letter case of hex texts is accepted if
      and only if its addresses are valid and its prefixes are in lower case; it is then the same
      bundle, and so has the same canonical wire. */
  lemma CaseDoesNotMatter(p: Primitives, h: Hashes, v: WireBundle, w: WireBundle)
    requires SameBundleLetters(v, w) && Decode(p, h, v).Some?
    ensures Decode(p, h, w) == if Spelled(p, w) then Decode(p, h, v) else None
    ensures Spelled(p, w) ==> Encode(p, h, Decode(p, h, v).value) == Encode(p, h, Decode(p, h, w).value)
  {
    hide DecodeBinding, DecodeReceipt, SameBindingLetters, SameReceiptLetters, ToLower, SameWindow, SignedReceipt,
      IsWord, BundleHash, Encode, SpelledBinding, SpelledReceipt, Prefixed;
    BindingCase(p, h, v.binding, w.binding);
    WordCase(v.bundleHash, w.bundleHash);
    var b := DecodeBinding(p, h, v.binding).value;
    assert SameReceiptLetters(v.receipts[0], w.receipts[0]) && SameReceiptLetters(v.receipts[1], w.receipts[1])
      && SameReceiptLetters(v.receipts[2], w.receipts[2]);
    ReceiptCase(p, h, v.receipts[0], w.receipts[0], b, 0);
    ReceiptCase(p, h, v.receipts[1], w.receipts[1], b, 1);
    ReceiptCase(p, h, v.receipts[2], w.receipts[2], b, 2);
  }

  // ---- what acceptance means ------------------------------------------------------------

  /** A lower-case word of thirty-two bytes, not the zero word. */
  ghost predicate IsLowerWord(t: Text) { CanonicalHex(t, 64) && t != ZERO_BYTES32 }

  ghost predicate AreLowerWords(ts: seq<Text>) {
    |ts| == 3 && (forall i :: 0 <= i < 3 ==> IsLowerWord(ts[i])) && forall i, j :: 0 <= i < j < 3 ==> ts[i] != ts[j]
  }

  /** A checksummed address, not the zero address. */
  ghost predicate IsAccount(p: Primitives, t: Text) { CanonicalAddress(p, t) && t != ZERO_ADDRESS }

  /** A binding of the supported schema in its numbers' widths, three-of-three custody and two-of-three
      results, by three different machines with three different keys. */
  ghost predicate BindingHolds(p: Primitives, h: Hashes, b: Binding) {
    && IsAccount(p, b.registry) && IsAccount(p, b.vault) && IsAccount(p, b.router) && IsAccount(p, b.owner)
    && IsLowerWord(b.policyId) && IsLowerWord(b.policyCommitment) && IsLowerWord(b.extensionId)
    && IsLowerWord(b.codeVersion) && IsLowerWord(b.schema) && b.schema == h.schema
    && AreLowerWords(b.machineIds) && AreLowerWords(b.keyFingerprints)
    && 1 <= b.chainId <= MAX_UINT256 && 1 <= b.policyVersion < 0x1_0000_0000 && 1 <= b.policyNonce <= MAX_UINT64
    && b.custodyThreshold == 3 && b.resultThreshold == 2
  }

  /** The receipt of the binding's i-th machine, in the binding's nonce and the first receipt's window,
      with the digest of just that, signed by its signer. */
  ghost predicate ReceiptHolds(p: Primitives, h: Hashes, b: Binding, r: Receipt, i: nat, first: Receipt) {
    var core := Core(r.machineId, r.keyFingerprint, r.submissionNonce, r.receiptNonce, r.issuedAt, r.expiry);
    var signer := p.recover(h.attestation(b, core), r.signature);
    && i < |b.machineIds| && r.machineId == b.machineIds[i] && i < |b.keyFingerprints|
    && r.keyFingerprint == b.keyFingerprints[i]
    && r.receiptNonce == b.policyNonce && r.issuedAt < r.expiry <= MAX_UINT64
    && (r.submissionNonce, r.issuedAt, r.expiry) == (first.submissionNonce, first.issuedAt, first.expiry)
    && IsLowerWord(r.submissionNonce) && IsLowerWord(r.digest) && r.digest == h.digest(b, core)
    && IsAccount(p, r.signer) && CanonicalHex(r.signature, 130)
    && signer.Some? && GetAddress(p, signer.value) == r.signer
  }

  lemma LowerWordMeans(t: Text)
    ensures IsLowerWord(t) <==> IsWord(t) && ToLower(t) == t
  {
    hide IsHexOf, ToLower, ZERO_BYTES32;
  }

  lemma AccountMeans(p: Primitives, t: Text)
    ensures IsAccount(p, t) <==> IsPublicAddress(p, t) && CanonicalAddress(p, t)
  {
    hide IsHexOf, ToLower, ZERO_ADDRESS, GetAddress;
  }

  lemma LowerWordsMean(ts: seq<Text>)
    ensures AreLowerWords(ts) <==> AreWords(ts) && Lowered(ts) == ts && Distinct(Lowered(ts))
  {
    hide IsWord, IsLowerWord, ToLower;
    if |ts| == 3 {
      LowerWordMeans(ts[0]);
      LowerWordMeans(ts[1]);
      LowerWordMeans(ts[2]);
    }
    if AreWords(ts) && Lowered(ts) == ts && Distinct(Lowered(ts)) {
      assert forall i :: 0 <= i < 3 ==> Lowered(ts)[i] == ToLower(ts[i]) == ts[i];
    }
    if AreLowerWords(ts) {
      assert Lowered(ts) == ts;
    }
  }

  lemma NormalBindingHolds(p: Primitives, h: Hashes, b: Binding)
    ensures NormalBinding(p, h, b) <==> BindingHolds(p, h, b)
  {
    AccountMeans(p, b.registry);
    AccountMeans(p, b.vault);
    AccountMeans(p, b.router);
    AccountMeans(p, b.owner);
    LowerWordMeans(b.policyId);
    LowerWordMeans(b.policyCommitment);
    LowerWordMeans(b.schema);
    LowerWordMeans(b.extensionId);
    LowerWordMeans(b.codeVersion);
    LowerWordsMean(b.machineIds);
    LowerWordsMean(b.keyFingerprints);
    hide IsHexOf, ToLower, Lowered, AreWords, AreLowerWords, IsLowerWord, IsAccount, IsPublicAddress, CanonicalAddress,
      Distinct, ZERO_BYTES32;
  }

  lemma NormalReceiptHolds(p: Primitives, h: Hashes, b: Binding, r: Receipt, i: nat, first: Receipt)
    requires ChecksumKeepsAddress(p) && BindingHolds(p, h, b) && i < 3
    ensures ReceiptHolds(p, h, b, r, i, first) <==>
      && NormalReceipt(p, h, r, b, i) && SignedReceipt(p, h, r, b)
      && r.submissionNonce == first.submissionNonce && r.issuedAt == first.issuedAt && r.expiry == first.expiry
  {
    LowerWordMeans(r.machineId);
    LowerWordMeans(r.keyFingerprint);
    LowerWordMeans(r.submissionNonce);
    LowerWordMeans(r.digest);
    AccountMeans(p, r.signer);
    if IsPublicAddress(p, r.signer) { AddressIsNormal(p, r.signer); }
    assert IsLowerWord(b.machineIds[i]) && IsLowerWord(b.keyFingerprints[i]);
    hide IsHexOf, ToLower, AreLowerWords, IsLowerWord, IsWord, IsAccount, BindingHolds, ZERO_BYTES32,
      ChecksumKeepsAddress;
  }

  /** What a bundle must be for its wire to be accepted as it is: a binding that holds, the receipts of
      its three machines in order, all in one window and signed, and the hash of their digests. */
  ghost predicate BundleHolds(p: Primitives, h: Hashes, b: Bundle) {
    && BindingHolds(p, h, b.binding) && |b.receipts| == 3
    && (forall i :: 0 <= i < 3 ==> ReceiptHolds(p, h, b.binding, b.receipts[i], i, b.receipts[0]))
    && IsLowerWord(b.bundleHash)
    && b.bundleHash == h.bundle([b.receipts[0].digest, b.receipts[1].digest, b.receipts[2].digest])
  }

  /** So decoding yields nothing but bundles that hold, and every bundle that holds is what its own wire
      decodes to. */
  lemma AcceptedMeansHolding(p: Primitives, h: Hashes)
    requires ChecksumKeepsAddress(p)
    ensures forall w :: Decode(p, h, w).Some? ==> BundleHolds(p, h, Decode(p, h, w).value)
    ensures forall b :: BundleHolds(p, h, b) ==> Decode(p, h, PrintBundle(b)) == Some(b)
  {
    hide Decode, BundleHolds, NormalBundle, PrintBundle, ChecksumKeepsAddress;
    forall w | Decode(p, h, w).Some? ensures BundleHolds(p, h, Decode(p, h, w).value) {
      DecodedIsNormal(p, h, w);
      NormalBundleHolds(p, h, Decode(p, h, w).value);
    }
    forall b | BundleHolds(p, h, b) ensures Decode(p, h, PrintBundle(b)) == Some(b) {
      NormalBundleHolds(p, h, b);
      NormalBundlePrints(p, h, b);
    }
  }

  lemma ReceiptsHold(p: Primitives, h: Hashes, b: Binding, rs: seq<Receipt>)
    requires ChecksumKeepsAddress(p) && BindingHolds(p, h, b) && |rs| == 3
    ensures (forall i :: 0 <= i < 3 ==> ReceiptHolds(p, h, b, rs[i], i, rs[0])) <==>
      && NormalReceipt(p, h, rs[0], b, 0) && NormalReceipt(p, h, rs[1], b, 1) && NormalReceipt(p, h, rs[2], b, 2)
      && SignedReceipt(p, h, rs[0], b) && SignedReceipt(p, h, rs[1], b) && SignedReceipt(p, h, rs[2], b)
      && SameWindow(rs, b)
  {
    hide ReceiptHolds, NormalReceipt, SignedReceipt, BindingHolds, ChecksumKeepsAddress, SameWindow;
    NormalReceiptHolds(p, h, b, rs[0], 0, rs[0]);
    NormalReceiptHolds(p, h, b, rs[1], 1, rs[0]);
    NormalReceiptHolds(p, h, b, rs[2], 2, rs[0]);
    HoldsInPlace(p, h, b, rs[0], 0, rs[0]);
    HoldsInPlace(p, h, b, rs[1], 1, rs[0]);
    HoldsInPlace(p, h, b, rs[2], 2, rs[0]);
    ThreeMachines(p, h, b);
    OneWindow(rs, b);
    assert (forall i :: 0 <= i < 3 ==> ReceiptHolds(p, h, b, rs[i], i, rs[0])) <==>
      && ReceiptHolds(p, h, b, rs[0], 0, rs[0]) && ReceiptHolds(p, h, b, rs[1], 1, rs[0])
      && ReceiptHolds(p, h, b, rs[2], 2, rs[0]);
  }

  lemma OneWindow(rs: seq<Receipt>, b: Binding)
    requires |rs| == |b.machineIds| == |b.keyFingerprints| == 3
    ensures SameWindow(rs, b) <==> InWindowAt(rs, b, 0) && InWindowAt(rs, b, 1) && InWindowAt(rs, b, 2)
  {
  }

  ghost predicate InWindowAt(rs: seq<Receipt>, b: Binding, i: nat) {
    && i < |rs| && i < |b.machineIds| && i < |b.keyFingerprints|
    && rs[i].machineId == b.machineIds[i] && rs[i].keyFingerprint == b.keyFingerprints[i]
    && rs[i].submissionNonce == rs[0].submissionNonce && rs[i].issuedAt == rs[0].issuedAt
    && rs[i].expiry == rs[0].expiry
  }

  lemma ThreeMachines(p: Primitives, h: Hashes, b: Binding)
    requires BindingHolds(p, h, b)
    ensures |b.machineIds| == |b.keyFingerprints| == 3
  {
  }

  lemma HoldsInPlace(p: Primitives, h: Hashes, b: Binding, r: Receipt, i: nat, first: Receipt)
    ensures ReceiptHolds(p, h, b, r, i, first) ==>
      && i < |b.machineIds| && i < |b.keyFingerprints|
      && r.machineId == b.machineIds[i] && r.keyFingerprint == b.keyFingerprints[i]
  {
    hide IsLowerWord, IsAccount, CanonicalHex, GetAddress;
  }

  lemma NormalBundleHolds(p: Primitives, h: Hashes, b: Bundle)
    requires ChecksumKeepsAddress(p)
    ensures NormalBundle(p, h, b) <==> BundleHolds(p, h, b)
  {
    NormalBindingHolds(p, h, b.binding);
    LowerWordMeans(b.bundleHash);
    hide NormalBinding, BindingHolds, NormalReceipt, ReceiptHolds, SignedReceipt, SameWindow, IsWord, IsLowerWord,
      ToLower, ChecksumKeepsAddress;
    if BindingHolds(p, h, b.binding) && |b.receipts| == 3 {
      ReceiptsHold(p, h, b.binding, b.receipts);
    }
  }
}
