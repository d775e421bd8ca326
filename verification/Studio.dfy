/** Policy Studio: checking a draft and compiling it into a policy. */
module Studio {
  import opened Outcomes
  import opened Texts
  import opened Protocol
  import opened Amounts

  datatype Field =
    | PolicyName | Owner | Registry | Vault | Router | Asset | Target | Requester
    | MaxPerAction | DailyCap | StartAt | EndAt | Interval | Grace | MaxOccurrences

  datatype Draft = Draft(
    policyName: Text, owner: Text, registry: Text, vault: Text, router: Text, asset: Text, target: Text,
    payeeCanRequest: bool, requester: Text, maxPerAction: Text, dailyCap: Text, startAt: Text, endAt: Text,
    interval: Text, grace: Text, maxOccurrences: Text)

  datatype Issue = Issue(field: Field, message: string)

  datatype Policy = Policy(
    registry: Text, vault: Text, router: Text, owner: Text, policyId: Text, asset: Text, maxPerAction: nat,
    dailyCap: nat, rollingCap: nat, startAt: nat, endAt: nat, interval: nat, grace: nat, maxOccurrences: nat,
    allowTargets: seq<Text>, allowRequesters: seq<Text>, privateSalt: Text, submissionNonce: Text)

  datatype Entropy = Entropy(privateSalt: Text, submissionNonce: Text)

  // ---- fields ---------------------------------------------------------------------------

  /** `normalizeStudioAddress`; None is a throw.  The letter case of the input is not checked. */
  function NormalizeAddress(p: Primitives, t: Text): Option<Text> {
    if IsHexOf(Trim(t), 40) then Some(GetAddress(p, Trim(t))) else None
  }

  predicate IsNonZeroAddress(p: Primitives, t: Text) {
    NormalizeAddress(p, t).Some? && ToLower(NormalizeAddress(p, t).value) != ZERO_ADDRESS
  }

  function AddressField(d: Draft, f: Field): Text {
    match f
    case Owner => d.owner case Registry => d.registry case Vault => d.vault
    case Router => d.router case Asset => d.asset case _ => d.target
  }

  const ADDRESS_FIELDS: seq<Field> := [Owner, Registry, Vault, Router, Asset, Target]

  function Decimal(t: Text, bound: nat): Option<nat> {
    if IsCanonicalDecimal(t) && ReadNat(t) <= bound then Some(ReadNat(t)) else None
  }

  function TokenAmount(t: Text): Option<nat> {
    if IsTokenAmount(t) && ParseUnits(t) <= MAX_UINT256 then Some(ParseUnits(t)) else None
  }

  /** The interval and grace of a schedule: none, or a grace shorter than the interval. */
  predicate ScheduleFits(interval: nat, grace: nat) { (interval == 0 && grace == 0) || 0 < grace < interval }

  /** The number fields as they are read; None is a field that is refused by itself. */
  datatype Numbers = Numbers(
    maxPerAction: Option<nat>, dailyCap: Option<nat>, startAt: Option<nat>, endAt: Option<nat>,
    interval: Option<nat>, grace: Option<nat>, maxOccurrences: Option<nat>)

  function NumbersOf(d: Draft): Numbers {
    Numbers(TokenAmount(d.maxPerAction), TokenAmount(d.dailyCap), Decimal(d.startAt, MAX_UINT256),
            Decimal(d.endAt, MAX_UINT256),
            Decimal(d.interval, MAX_UINT256), Decimal(d.grace, MAX_UINT256), Decimal(d.maxOccurrences, MAX_UINT32))
  }

  /** What is wrong with the numbers, said field by field. */
  predicate NumberFlagged(n: Numbers, f: Field) {
    match f
    case MaxPerAction => n.maxPerAction.None? || n.maxPerAction.value == 0
    case DailyCap =>
      || n.dailyCap.None? || n.dailyCap.value == 0
      || (n.maxPerAction.Some? && n.dailyCap.value < n.maxPerAction.value)
    case StartAt => n.startAt.None?
    case EndAt => n.endAt.None? || (n.startAt.Some? && !(0 < n.startAt.value < n.endAt.value))
    case Interval => n.interval.None?
    case Grace => n.grace.None? || (n.interval.Some? && !ScheduleFits(n.interval.value, n.grace.value))
    case MaxOccurrences => n.maxOccurrences.None?
    case _ => false
  }

  const NUMBER_FIELDS: set<Field> := {MaxPerAction, DailyCap, StartAt, EndAt, Interval, Grace, MaxOccurrences}

  /** What is wrong with the draft, said field by field. */
  predicate Flagged(p: Primitives, d: Draft, f: Field) {
    if f in NUMBER_FIELDS then NumberFlagged(NumbersOf(d), f)
    else
      match f
      case PolicyName => |Trim(d.policyName)| < 3 || |Trim(d.policyName)| > 64
      case Requester => Trim(d.requester) != [] && !IsNonZeroAddress(p, d.requester)
      case _ => !IsNonZeroAddress(p, AddressField(d, f))
  }

  // ---- the validator --------------------------------------------------------------------

  function FieldsOf(issues: seq<Issue>): set<Field> { set i | i in issues :: i.field }

  function Only(bad: bool, field: Field): set<Field> { if bad then {field} else {} }

  lemma NoFields()
    ensures FieldsOf([]) == {}
  {
  }

  lemma FieldsAdded(issues: seq<Issue>, issue: Issue)
    ensures FieldsOf(issues + [issue]) == FieldsOf(issues) + {issue.field}
  {
  }

  method DecimalField(
    text: Text, field: Field, issues: seq<Issue>, bound: nat) returns (n: Option<nat>, all: seq<Issue>)
    ensures n == Decimal(text, bound)
    ensures FieldsOf(all) == FieldsOf(issues) + Only(n.None?, field)
  {
    if !IsCanonicalDecimal(text) {
      FieldsAdded(issues, Issue(field, "must be an unsigned decimal integer"));
      return None, issues + [Issue(field, "must be an unsigned decimal integer")];
    }
    if ReadNat(text) > bound {
      FieldsAdded(issues, Issue(field, "exceeds its width"));
      return None, issues + [Issue(field, "exceeds its width")];
    }
    return Some(ReadNat(text)), issues;
  }

  method TokenAmountField(text: Text, field: Field, issues: seq<Issue>) returns (n: Option<nat>, all: seq<Issue>)
    ensures n == TokenAmount(text)
    ensures FieldsOf(all) == FieldsOf(issues) + Only(n.None?, field)
  {
    if !IsTokenAmount(text) {
      FieldsAdded(issues, Issue(field, "must be a positive FTestXRP amount with at most 6 decimals"));
      return None, issues + [Issue(field, "must be a positive FTestXRP amount with at most 6 decimals")];
    }
    if ParseUnits(text) > MAX_UINT256 {
      FieldsAdded(issues, Issue(field, "exceeds the supported FTestXRP range"));
      return None, issues + [Issue(field, "exceeds the supported FTestXRP range")];
    }
    return Some(ParseUnits(text)), issues;
  }

  /** Adds the issue when its condition holds. */
  method Note(bad: bool, field: Field, message: string, issues: seq<Issue>) returns (all: seq<Issue>)
    ensures FieldsOf(all) == FieldsOf(issues) + Only(bad, field)
  {
    FieldsAdded(issues, Issue(field, message));
    return if bad then issues + [Issue(field, message)] else issues;
  }

  function BadAddresses(p: Primitives, d: Draft, fields: seq<Field>): set<Field> {
    set f | f in fields && !IsNonZeroAddress(p, AddressField(d, f))
  }

  method CheckAddresses(p: Primitives, d: Draft, issues: seq<Issue>) returns (all: seq<Issue>)
    ensures FieldsOf(all) == FieldsOf(issues) + BadAddresses(p, d, ADDRESS_FIELDS)
  {
    hide IsNonZeroAddress, FieldsOf;
    all := issues;
    for i := 0 to |ADDRESS_FIELDS|
      invariant FieldsOf(all) == FieldsOf(issues) + BadAddresses(p, d, ADDRESS_FIELDS[..i])
    {
      var f := ADDRESS_FIELDS[i];
      MoreAddresses(p, d, ADDRESS_FIELDS, i);
      all := Note(!IsNonZeroAddress(p, AddressField(d, f)), f, "must be a non-zero EVM address.", all);
    }
    assert ADDRESS_FIELDS[..|ADDRESS_FIELDS|] == ADDRESS_FIELDS;
  }

  lemma MoreAddresses(p: Primitives, d: Draft, fields: seq<Field>, i: nat)
    requires i < |fields|
    ensures BadAddresses(p, d, fields[..i + 1])
         == BadAddresses(p, d, fields[..i]) + Only(!IsNonZeroAddress(p, AddressField(d, fields[i])), fields[i])
  {
    hide IsNonZeroAddress;
    assert fields[..i + 1] == fields[..i] + [fields[i]];
  }

  lemma IdentityFlags(p: Primitives, d: Draft)
    ensures Flagged(p, d, PolicyName) <==> |Trim(d.policyName)| < 3 || |Trim(d.policyName)| > 64
    ensures Flagged(p, d, Requester) <==> Trim(d.requester) != [] && !IsNonZeroAddress(p, d.requester)
  {
    hide IsNonZeroAddress, Trim, NumberFlagged, NumbersOf;
  }

  method CheckIdentity(p: Primitives, d: Draft) returns (issues: seq<Issue>)
    ensures FieldsOf(issues) ==
      Only(Flagged(p, d, PolicyName), PolicyName) + BadAddresses(p, d, ADDRESS_FIELDS)
      + Only(Flagged(p, d, Requester), Requester)
  {
    IdentityFlags(p, d);
    hide IsNonZeroAddress, Trim, BadAddresses, ADDRESS_FIELDS, FieldsOf, Flagged, Only;
    NoFields();
    var name := Trim(d.policyName);
    issues := Note(|name| < 3 || |name| > 64, PolicyName, "Policy name must contain 3 to 64 characters.", []);
    issues := CheckAddresses(p, d, issues);
    issues := Note(Trim(d.requester) != [] && !IsNonZeroAddress(p, d.requester), Requester,
                   "Additional requester must be a non-zero EVM address.", issues);
  }

  /** The fields that cannot be read by themselves. */
  function Unreadable(n: Numbers): set<Field> {
    Only(n.maxPerAction.None?, MaxPerAction) + Only(n.dailyCap.None?, DailyCap) + Only(n.startAt.None?, StartAt)
    + Only(n.endAt.None?, EndAt) + Only(n.interval.None?, Interval) + Only(n.grace.None?, Grace)
    + Only(n.maxOccurrences.None?, MaxOccurrences)
  }

  method ReadNumbers(d: Draft, issues: seq<Issue>) returns (n: Numbers, all: seq<Issue>)
    ensures n == NumbersOf(d) && FieldsOf(all) == FieldsOf(issues) + Unreadable(n)
  {
    hide Decimal, TokenAmount, FieldsOf;
    var maxPerAction, dailyCap, startAt, endAt, interval, grace, occurrences;
    maxPerAction, all := TokenAmountField(d.maxPerAction, MaxPerAction, issues);
    dailyCap, all := TokenAmountField(d.dailyCap, DailyCap, all);
    startAt, all := DecimalField(d.startAt, StartAt, all, MAX_UINT256);
    endAt, all := DecimalField(d.endAt, EndAt, all, MAX_UINT256);
    interval, all := DecimalField(d.interval, Interval, all, MAX_UINT256);
    grace, all := DecimalField(d.grace, Grace, all, MAX_UINT256);
    occurrences, all := DecimalField(d.maxOccurrences, MaxOccurrences, all, MAX_UINT32);
    n := Numbers(maxPerAction, dailyCap, startAt, endAt, interval, grace, occurrences);
  }

  predicate AmountsClash(n: Numbers) {
    n.maxPerAction.Some? && n.dailyCap.Some? && n.dailyCap.value < n.maxPerAction.value
  }

  predicate WindowClash(n: Numbers) {
    n.startAt.Some? && n.endAt.Some? && (n.startAt.value == 0 || n.endAt.value <= n.startAt.value)
  }

  predicate ScheduleClash(n: Numbers) {
    n.interval.Some? && n.grace.Some? && !ScheduleFits(n.interval.value, n.grace.value)
  }

  /** The fields that can be read but do not go together, or are zero. */
  function Mismatched(n: Numbers): set<Field> {
    Only(n.maxPerAction == Some(0), MaxPerAction) + Only(n.dailyCap == Some(0), DailyCap)
    + Only(AmountsClash(n), DailyCap) + Only(WindowClash(n), EndAt) + Only(ScheduleClash(n), Grace)
  }

  method CompareSchedule(n: Numbers, issues: seq<Issue>) returns (all: seq<Issue>)
    ensures FieldsOf(all) == FieldsOf(issues) + Only(ScheduleClash(n), Grace)
  {
    hide FieldsOf;
    all := issues;
    if n.interval.Some? && n.grace.Some? {
      var interval, grace := n.interval.value, n.grace.value;
      if (interval == 0) != (grace == 0) {
        all := Note(true, Grace, "Interval and grace must both be zero for ad-hoc mode or both be positive.", all);
      } else {
        all := Note(interval != 0 && grace >= interval, Grace,
                    "Recurring grace must be shorter than the interval.", all);
      }
    }
  }

  lemma Regroup(s: set<Field>, a: set<Field>, b: set<Field>, c: set<Field>, d: set<Field>, e: set<Field>)
    ensures s + a + b + c + d + e == s + (a + b + c + d + e)
  {
  }

  method CompareNumbers(n: Numbers, issues: seq<Issue>) returns (all: seq<Issue>)
    ensures FieldsOf(all) == FieldsOf(issues) + Mismatched(n)
  {
    hide FieldsOf, AmountsClash, WindowClash, ScheduleClash, Only;
    all := Note(n.maxPerAction == Some(0), MaxPerAction,
                "Maximum per payment must be greater than zero FTestXRP.", issues);
    all := Note(n.dailyCap == Some(0), DailyCap, "Maximum per day must be greater than zero FTestXRP.", all);
    all := Note(AmountsClash(n), DailyCap, "Maximum per day cannot be lower than the maximum per payment.", all);
    all := Note(WindowClash(n), EndAt, "End time must be later than a non-zero start time.", all);
    all := CompareSchedule(n, all);
    Regroup(FieldsOf(issues), Only(n.maxPerAction == Some(0), MaxPerAction), Only(n.dailyCap == Some(0), DailyCap),
            Only(AmountsClash(n), DailyCap), Only(WindowClash(n), EndAt), Only(ScheduleClash(n), Grace));
  }

  /** The issues name exactly the fields that something is wrong with. */
  method ValidateStudioDraft(p: Primitives, d: Draft) returns (issues: seq<Issue>)
    ensures forall f :: f in FieldsOf(issues) <==> Flagged(p, d, f)
  {
    hide IsNonZeroAddress, Trim, NumbersOf, FieldsOf, BadAddresses, Unreadable, Mismatched, NumberFlagged;
    issues := CheckIdentity(p, d);
    var numbers;
    numbers, issues := ReadNumbers(d, issues);
    issues := CompareNumbers(numbers, issues);
    NumbersAreFlagged(numbers);
    AddressFields(p, d);
  }

  lemma NumbersAreFlagged(n: Numbers)
    ensures forall f :: f in Unreadable(n) + Mismatched(n) <==> f in NUMBER_FIELDS && NumberFlagged(n, f)
  {
  }

  lemma AddressFields(p: Primitives, d: Draft)
    ensures forall f :: f in BadAddresses(p, d, ADDRESS_FIELDS) <==>
              f in {Owner, Registry, Vault, Router, Asset, Target} && Flagged(p, d, f)
  {
    hide IsNonZeroAddress;
    assert forall f :: f in ADDRESS_FIELDS <==> f in {Owner, Registry, Vault, Router, Asset, Target};
  }

  // ---- the compiler ---------------------------------------------------------------------

  /** The candidates that are not the owner and not repetitions, in order. */
  function Requesters(candidates: seq<Text>, owner: Text): seq<Text> {
    if candidates == [] then []
    else
      var n := |candidates| - 1;
      var front := Requesters(candidates[..n], owner);
      var c := candidates[n];
      var repeated := exists v :: v in candidates[..n] && ToLower(v) == ToLower(c);
      if ToLower(c) != ToLower(owner) && !repeated then front + [c] else front
  }

  function Candidates(p: Primitives, d: Draft): seq<Text> {
    var target := NormalizeAddress(p, d.target);
    var requester := if Trim(d.requester) == [] then None else NormalizeAddress(p, d.requester);
    (if d.payeeCanRequest && target.Some? then [target.value] else [])
    + (if requester.Some? then [requester.value] else [])
  }

  /** `assertEntropy`: thirty-two bytes of hex, not the zero word. */
  predicate EntropyAccepted(t: Text) {
    |t| >= 2 && AllHex(t[2..]) && (|t| - 1) / 2 == 32 && t != ZERO_BYTES32
  }

  predicate NoIssues(p: Primitives, d: Draft) { forall f :: !Flagged(p, d, f) }

  function Normal(p: Primitives, t: Text): Text {
    match NormalizeAddress(p, t) case Some(a) => a case None => []
  }

  /** Numbers none of which is flagged. */
  predicate Sound(n: Numbers) {
    && n.maxPerAction.Some? && n.dailyCap.Some? && n.startAt.Some? && n.endAt.Some?
    && n.interval.Some? && n.grace.Some? && n.maxOccurrences.Some?
    && 0 < n.maxPerAction.value <= n.dailyCap.value && 0 < n.startAt.value < n.endAt.value
    && ScheduleFits(n.interval.value, n.grace.value)
  }

  lemma NoIssuesMeansSound(p: Primitives, d: Draft)
    requires NoIssues(p, d)
    ensures Sound(NumbersOf(d))
  {
    hide NumbersOf, IsNonZeroAddress;
    var n := NumbersOf(d);
    forall f | f in NUMBER_FIELDS ensures !NumberFlagged(n, f) {
      assert !Flagged(p, d, f);
    }
    assert MaxPerAction in NUMBER_FIELDS && DailyCap in NUMBER_FIELDS;
    assert StartAt in NUMBER_FIELDS && EndAt in NUMBER_FIELDS;
    assert Interval in NUMBER_FIELDS && Grace in NUMBER_FIELDS && MaxOccurrences in NUMBER_FIELDS;
  }

  function PolicyOf(p: Primitives, d: Draft, e: Entropy): Policy
    requires NoIssues(p, d)
  {
    NoIssuesMeansSound(p, d);
    var n := NumbersOf(d);
    Policy(Normal(p, d.registry), Normal(p, d.vault), Normal(p, d.router), Normal(p, d.owner),
           p.keccak(Lit("PAYGUARD_POLICY_ID_V1:") + Trim(d.policyName)), Normal(p, d.asset),
           n.maxPerAction.value, n.dailyCap.value, n.dailyCap.value, n.startAt.value, n.endAt.value,
           n.interval.value, n.grace.value, n.maxOccurrences.value,
           [Normal(p, d.target)], Requesters(Candidates(p, d), Normal(p, d.owner)), e.privateSalt, e.submissionNonce)
  }

  /** The compiler; the commitment to a policy whose fields do not fit their widths throws. */
  function CompileStudioDraft(p: Primitives, d: Draft, e: Entropy, commits: Policy -> bool): Result<Policy> {
    if !NoIssues(p, d) then Err("Policy draft is invalid")
    else if ToLower(e.privateSalt) == ToLower(e.submissionNonce) then
      Err("private salt and submission nonce must be distinct")
    else if !EntropyAccepted(e.privateSalt) || !EntropyAccepted(e.submissionNonce) then
      Err("entropy must be a non-zero bytes32 value")
    else if !commits(PolicyOf(p, d, e)) then Err("policy cannot be encoded")
    else Ok(PolicyOf(p, d, e))
  }

  lemma {:induction false} RequestersAreDistinct(candidates: seq<Text>, owner: Text)
    ensures var rs := Requesters(candidates, owner);
      && (forall i, j :: 0 <= i < j < |rs| ==> ToLower(rs[i]) != ToLower(rs[j]))
      && (forall r :: r in rs ==> r in candidates && ToLower(r) != ToLower(owner))
  {
    if candidates != [] {
      var n := |candidates| - 1;
      RequestersAreDistinct(candidates[..n], owner);
      assert candidates == candidates[..n] + [candidates[n]];
    }
  }

  /** No candidate other than the owner is lost. */
  lemma {:induction false} RequestersAreComplete(candidates: seq<Text>, owner: Text, c: Text)
    requires c in candidates && ToLower(c) != ToLower(owner)
    ensures exists r :: r in Requesters(candidates, owner) && ToLower(r) == ToLower(c)
  {
    var n := |candidates| - 1;
    assert candidates == candidates[..n] + [candidates[n]];
    if exists v :: v in candidates[..n] && ToLower(v) == ToLower(c) {
      var v :| v in candidates[..n] && ToLower(v) == ToLower(c);
      RequestersAreComplete(candidates[..n], owner, v);
      var r :| r in Requesters(candidates[..n], owner) && ToLower(r) == ToLower(v);
      assert r in Requesters(candidates, owner);
    } else {
      assert candidates[n] == c;
      assert c in Requesters(candidates, owner);
    }
  }

  /** What a compiled policy guarantees, whatever was typed into the draft. */
  lemma CompiledPolicyIsSound(p: Primitives, d: Draft, e: Entropy, commits: Policy -> bool)
    requires CompileStudioDraft(p, d, e, commits).Ok?
    ensures var policy := CompileStudioDraft(p, d, e, commits).value;
      && 0 < policy.maxPerAction <= policy.dailyCap <= MAX_UINT256 && policy.rollingCap == policy.dailyCap
      && 0 < policy.startAt < policy.endAt <= MAX_UINT256
      && ScheduleFits(policy.interval, policy.grace)
      && policy.maxOccurrences <= MAX_UINT32
      && ToLower(policy.privateSalt) != ToLower(policy.submissionNonce)
  {
    hide Flagged, NoIssues, Trim, Requesters, Candidates, Normal, Lit, IsTokenAmount, IsCanonicalDecimal, ToLower,
      EntropyAccepted;
    NoIssuesMeansSound(p, d);
  }

  /** Nobody is listed twice or beside their own policy, and everyone who was to be is listed. */
  lemma CompiledRequesters(p: Primitives, d: Draft, e: Entropy, commits: Policy -> bool)
    requires CompileStudioDraft(p, d, e, commits).Ok?
    ensures var policy := CompileStudioDraft(p, d, e, commits).value; var rs := policy.allowRequesters;
      && (forall i, j :: 0 <= i < j < |rs| ==> ToLower(rs[i]) != ToLower(rs[j]))
      && (forall r :: r in rs ==> ToLower(r) != ToLower(policy.owner))
      && (d.payeeCanRequest && ToLower(policy.allowTargets[0]) != ToLower(policy.owner) ==>
            exists r :: r in rs && ToLower(r) == ToLower(policy.allowTargets[0]))
      && (Trim(d.requester) != [] && ToLower(Normal(p, d.requester)) != ToLower(policy.owner) ==>
            exists r :: r in rs && ToLower(r) == ToLower(Normal(p, d.requester)))
  {
    hide Trim, GetAddress, Requesters, ToLower, NumbersOf, Lit, EntropyAccepted;
    var policy := CompileStudioDraft(p, d, e, commits).value;
    assert !Flagged(p, d, Target) && !Flagged(p, d, Requester);
    var candidates := Candidates(p, d);
    RequestersAreDistinct(candidates, policy.owner);
    if d.payeeCanRequest && ToLower(policy.allowTargets[0]) != ToLower(policy.owner) {
      assert policy.allowTargets[0] in candidates;
      RequestersAreComplete(candidates, policy.owner, policy.allowTargets[0]);
    }
    if Trim(d.requester) != [] && ToLower(Normal(p, d.requester)) != ToLower(policy.owner) {
      assert Normal(p, d.requester) in candidates;
      RequestersAreComplete(candidates, policy.owner, Normal(p, d.requester));
    }
  }

  /** The caps the studio shows are read back as the caps of the policy. */
  lemma ShownCapsAreExact(p: Primitives, d: Draft, e: Entropy, commits: Policy -> bool)
    requires CompileStudioDraft(p, d, e, commits).Ok?
    ensures var policy := CompileStudioDraft(p, d, e, commits).value;
      && TokenAmount(FormatUnits(policy.maxPerAction)) == Some(policy.maxPerAction)
      && TokenAmount(FormatUnits(policy.dailyCap)) == Some(policy.dailyCap)
  {
    CompiledPolicyIsSound(p, d, e, commits);
    var policy := CompileStudioDraft(p, d, e, commits).value;
    FormatRoundTrip(policy.maxPerAction);
    FormatRoundTrip(policy.dailyCap);
  }

  // ---- the draft and its policy, field by field -----------------------------------------

  /** A text that, trimmed, is an address in any letter case, other than the zero address. */
  ghost predicate NamesAccount(t: Text) {
    IsHexOf(Trim(t), 40) && exists i :: 2 <= i < 42 && Trim(t)[i] != 0x30
  }

  lemma ZeroIsAllZeros(t: Text)
    requires IsHexOf(t, 40)
    ensures ToLower(t) == ZERO_ADDRESS <==> forall i :: 2 <= i < 42 ==> t[i] == 0x30
  {
    if forall i :: 2 <= i < 42 ==> t[i] == 0x30 {
      assert forall i :: 0 <= i < 42 ==> ToLower(t)[i] == ZERO_ADDRESS[i];
      assert ToLower(t) == ZERO_ADDRESS;
    } else {
      var i :| 2 <= i < 42 && t[i] != 0x30;
      assert ToLower(t)[i] != ZERO_ADDRESS[i];
    }
  }

  /** The studio takes exactly these, whatever their letter case, and makes them valid addresses. */
  lemma AddressesAreNamed(p: Primitives, t: Text)
    requires ChecksumKeepsAddress(p)
    ensures IsNonZeroAddress(p, t) <==> NamesAccount(t)
    ensures NamesAccount(t) ==> IsAddress(p, Normal(p, t)) && ToLower(Normal(p, t)) == ToLower(Trim(t))
  {
    hide Trim, ToLower, ZERO_ADDRESS, IsHexOf, ChecksumKeepsAddress;
    if IsHexOf(Trim(t), 40) {
      GetAddressStable(p, Trim(t));
      ZeroIsAllZeros(Trim(t));
    }
  }

  ghost predicate NamesAccounts(d: Draft) {
    && NamesAccount(d.owner) && NamesAccount(d.registry) && NamesAccount(d.vault) && NamesAccount(d.router)
    && NamesAccount(d.asset) && NamesAccount(d.target) && (Trim(d.requester) == [] || NamesAccount(d.requester))
  }

  ghost predicate AmountsFit(d: Draft) {
    && IsTokenAmount(d.maxPerAction) && IsTokenAmount(d.dailyCap)
    && 0 < ParseUnits(d.maxPerAction) <= ParseUnits(d.dailyCap) <= MAX_UINT256
  }

  ghost predicate TimesFit(d: Draft) {
    && IsCanonicalDecimal(d.startAt) && IsCanonicalDecimal(d.endAt) && IsCanonicalDecimal(d.interval)
    && IsCanonicalDecimal(d.grace) && IsCanonicalDecimal(d.maxOccurrences)
    && 0 < ReadNat(d.startAt) < ReadNat(d.endAt) <= MAX_UINT256
    && (ReadNat(d.interval) == 0 ==> ReadNat(d.grace) == 0)
    && (ReadNat(d.interval) > 0 ==> 0 < ReadNat(d.grace) < ReadNat(d.interval) <= MAX_UINT256)
    && ReadNat(d.maxOccurrences) < 0x1_0000_0000
  }

  lemma NumbersFit(p: Primitives, d: Draft)
    ensures (forall f :: f in NUMBER_FIELDS ==> !NumberFlagged(NumbersOf(d), f)) <==> AmountsFit(d) && TimesFit(d)
  {
    hide IsTokenAmount, IsCanonicalDecimal, ParseUnits, ReadNat, Trim;
    var n := NumbersOf(d);
    assert (forall f :: f in NUMBER_FIELDS ==> !NumberFlagged(n, f)) <==>
      && !NumberFlagged(n, MaxPerAction) && !NumberFlagged(n, DailyCap) && !NumberFlagged(n, StartAt)
      && !NumberFlagged(n, EndAt) && !NumberFlagged(n, Interval) && !NumberFlagged(n, Grace)
      && !NumberFlagged(n, MaxOccurrences);
  }

  /** A draft has no issues exactly when its name has 3 to 64 characters, its addresses name accounts,
      its amounts are positive, ordered and fit a uint256, and its times, schedule and occurrences fit. */
  lemma AcceptedDrafts(p: Primitives, d: Draft)
    requires ChecksumKeepsAddress(p)
    ensures NoIssues(p, d) <==> 3 <= |Trim(d.policyName)| <= 64 && NamesAccounts(d) && AmountsFit(d) && TimesFit(d)
  {
    NumbersFit(p, d);
    AddressesAreNamed(p, d.owner);
    AddressesAreNamed(p, d.registry);
    AddressesAreNamed(p, d.vault);
    AddressesAreNamed(p, d.router);
    AddressesAreNamed(p, d.asset);
    AddressesAreNamed(p, d.target);
    AddressesAreNamed(p, d.requester);
    NoIssuesByField(p, d);
    hide IsNonZeroAddress, NamesAccount, AmountsFit, TimesFit, NumberFlagged, NumbersOf, Trim, ChecksumKeepsAddress,
      NoIssues, NUMBER_FIELDS;
  }

  lemma NoIssuesByField(p: Primitives, d: Draft)
    ensures NoIssues(p, d) <==>
      && (forall f :: f in NUMBER_FIELDS ==> !NumberFlagged(NumbersOf(d), f))
      && 3 <= |Trim(d.policyName)| <= 64 && (Trim(d.requester) == [] || IsNonZeroAddress(p, d.requester))
      && IsNonZeroAddress(p, d.owner) && IsNonZeroAddress(p, d.registry) && IsNonZeroAddress(p, d.vault)
      && IsNonZeroAddress(p, d.router) && IsNonZeroAddress(p, d.asset) && IsNonZeroAddress(p, d.target)
  {
    hide IsNonZeroAddress, NumberFlagged, NumbersOf, Trim;
    if NoIssues(p, d) {
      assert !Flagged(p, d, PolicyName) && !Flagged(p, d, Requester) && !Flagged(p, d, Owner);
      assert !Flagged(p, d, Registry) && !Flagged(p, d, Field.Vault) && !Flagged(p, d, Router);
      assert !Flagged(p, d, Asset) && !Flagged(p, d, Target);
      forall f | f in NUMBER_FIELDS ensures !NumberFlagged(NumbersOf(d), f) {
        assert !Flagged(p, d, f);
      }
    }
  }

  /** A secret of thirty-two bytes, the first of which may be spelled with one digit, not the zero word. */
  ghost predicate IsSecret(t: Text) {
    65 <= |t| <= 66 && (forall i :: 2 <= i < |t| ==> IsHexDigit(t[i])) && t != ZERO_BYTES32
  }

  lemma SecretsAreAccepted(t: Text)
    ensures EntropyAccepted(t) <==> IsSecret(t)
  {
    hide ZERO_BYTES32;
    if |t| >= 2 {
      assert forall i :: 2 <= i < |t| ==> t[2..][i - 2] == t[i];
    }
  }

  /** When a draft compiles, and to what: its accounts, the numbers its texts denote, the target alone,
      no requesters but the target, if it may request, and the one that is named, and the two secrets. */
  lemma CompilesExactly(p: Primitives, d: Draft, e: Entropy, commits: Policy -> bool)
    requires ChecksumKeepsAddress(p)
    ensures CompileStudioDraft(p, d, e, commits).Ok? <==>
      && NoIssues(p, d) && ToLower(e.privateSalt) != ToLower(e.submissionNonce)
      && IsSecret(e.privateSalt) && IsSecret(e.submissionNonce) && commits(PolicyOf(p, d, e))
    ensures CompileStudioDraft(p, d, e, commits).Ok? ==>
      var policy := CompileStudioDraft(p, d, e, commits).value;
      && HasAccounts(policy, d) && HasNumbers(policy, d)
      && policy.policyId == p.keccak(Lit("PAYGUARD_POLICY_ID_V1:") + Trim(d.policyName))
      && policy.privateSalt == e.privateSalt && policy.submissionNonce == e.submissionNonce
      && forall r :: r in policy.allowRequesters ==>
           || (d.payeeCanRequest && r == policy.allowTargets[0])
           || (Trim(d.requester) != [] && ToLower(r) == ToLower(Trim(d.requester)))
  {
    SecretsAreAccepted(e.privateSalt);
    SecretsAreAccepted(e.submissionNonce);
    hide EntropyAccepted, IsSecret, ToLower, Lit;
    if CompileStudioDraft(p, d, e, commits).Ok? {
      CompiledAccounts(p, d, e);
      CompiledNumbers(p, d, e);
      RequestersAreNamed(p, d, e);
    }
  }

  /** The policy's addresses are those of the draft, up to letter case. */
  ghost predicate HasAccounts(policy: Policy, d: Draft) {
    && ToLower(policy.registry) == ToLower(Trim(d.registry)) && ToLower(policy.vault) == ToLower(Trim(d.vault))
    && ToLower(policy.router) == ToLower(Trim(d.router)) && ToLower(policy.owner) == ToLower(Trim(d.owner))
    && ToLower(policy.asset) == ToLower(Trim(d.asset))
    && |policy.allowTargets| == 1 && ToLower(policy.allowTargets[0]) == ToLower(Trim(d.target))
  }

  ghost predicate HasNumbers(policy: Policy, d: Draft) {
    && IsTokenAmount(d.maxPerAction) && IsTokenAmount(d.dailyCap)
    && IsCanonicalDecimal(d.startAt) && IsCanonicalDecimal(d.endAt) && IsCanonicalDecimal(d.interval)
    && IsCanonicalDecimal(d.grace) && IsCanonicalDecimal(d.maxOccurrences)
    && policy.maxPerAction == ParseUnits(d.maxPerAction)
    && policy.dailyCap == policy.rollingCap == ParseUnits(d.dailyCap)
    && policy.startAt == ReadNat(d.startAt) && policy.endAt == ReadNat(d.endAt)
    && policy.interval == ReadNat(d.interval) && policy.grace == ReadNat(d.grace)
    && policy.maxOccurrences == ReadNat(d.maxOccurrences)
  }

  lemma CompiledAccounts(p: Primitives, d: Draft, e: Entropy)
    requires ChecksumKeepsAddress(p) && NoIssues(p, d)
    ensures HasAccounts(PolicyOf(p, d, e), d)
  {
    AcceptedDrafts(p, d);
    AddressesAreNamed(p, d.owner);
    AddressesAreNamed(p, d.registry);
    AddressesAreNamed(p, d.vault);
    AddressesAreNamed(p, d.router);
    AddressesAreNamed(p, d.asset);
    AddressesAreNamed(p, d.target);
    hide Normal, NamesAccount, ToLower, Trim, NumbersOf, Requesters, Candidates, Lit, AmountsFit, TimesFit, NoIssues,
      ChecksumKeepsAddress;
  }

  lemma CompiledNumbers(p: Primitives, d: Draft, e: Entropy)
    requires NoIssues(p, d)
    ensures HasNumbers(PolicyOf(p, d, e), d)
  {
    NoIssuesMeansSound(p, d);
    hide Normal, Trim, Requesters, Candidates, Lit, NoIssues, ParseUnits, ReadNat, IsTokenAmount, IsCanonicalDecimal;
  }

  lemma RequestersAreNamed(p: Primitives, d: Draft, e: Entropy)
    requires ChecksumKeepsAddress(p) && NoIssues(p, d)
    ensures var policy := PolicyOf(p, d, e);
      forall r :: r in policy.allowRequesters ==>
        || (d.payeeCanRequest && r == policy.allowTargets[0])
        || (Trim(d.requester) != [] && ToLower(r) == ToLower(Trim(d.requester)))
  {
    RequestersAreDistinct(Candidates(p, d), Normal(p, d.owner));
    AcceptedDrafts(p, d);
    AddressesAreNamed(p, d.requester);
    hide NumbersOf, Requesters, Lit, AmountsFit, TimesFit, NoIssues, ToLower, Trim, NamesAccount, ChecksumKeepsAddress,
      GetAddress;
  }

  // ---- the other amount parser ----------------------------------------------------------

  /** The vault form's parser trims its text and has no upper bound: of the texts it accepts, the
      studio's validator reads the same amount if and only if there is nothing to trim and a uint256
      holds the amount. */
  lemma AmountParsersAgreeExactly(t: Text, n: nat)
    requires ParseFTestXrpAmount(t) == Ok(n)
    ensures TokenAmount(t) == Some(n) <==> n <= MAX_UINT256 && Trim(t) == t
    ensures TokenAmount(t) == None <==> n > MAX_UINT256 || Trim(t) != t
  {
    hide Trim, ParseUnits;
    if IsTokenAmount(t) {
      EndsAreDigits(t);
      DigitsAreTrimmed(t);
    }
  }

  /** The page trims the fields of the form before it validates them, and then only the bound is
      left. */
  lemma TrimmedParsersAgreeExactly(t: Text, n: nat)
    requires ParseFTestXrpAmount(t) == Ok(n)
    ensures TokenAmount(Trim(t)) == Some(n) <==> n <= MAX_UINT256
  {
  }

  /** And every larger amount has a text on which they differ. */
  lemma VaultAmountsAreUnbounded(n: nat)
    requires n > MAX_UINT256
    ensures ParseFTestXrpAmount(FormatUnits(n)) == Ok(n) && TokenAmount(FormatUnits(n)) == None
  {
    EveryAmountCanBeEntered(n);
    FormatRoundTrip(n);
  }
}
