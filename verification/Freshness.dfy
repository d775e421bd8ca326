/** The compare-and-swap between the web client, which builds a request from the chain state it
    read, and the live relay, which checks the request against the state it reads later. */
module Freshness {
  import opened Outcomes
  import opened Texts
  import opened Protocol
  import opened History

  /** The parts of the chain state both sides read. */
  datatype Chain = Chain(accounting: Accounting, spend: SpendRead, timestamp: nat)

  /** The two commitments: to an accounting record with a sequence number, and to a policy that
      has not spent yet. */
  datatype Commitments = Commitments(balance: (Accounting, nat) -> Text, genesis: Text -> Text)

  ghost predicate BalanceInjective(h: Commitments) {
    forall a, b: Accounting, m: nat, n: nat ::
      ToLower(h.balance(a, m)) == ToLower(h.balance(b, n)) ==> a == b && m == n
  }

  const REQUEST_LIFETIME_SECONDS: nat := 900

  /** The checkpoint in force: the stored one, or the policy's genesis checkpoint. */
  function Checkpoint(h: Commitments, spend: SpendRead, policy: Text): Text {
    if spend.initialized then spend.checkpoint else h.genesis(policy)
  }

  /** `createDelegatedLiveRequest`, up to the fields `form` that do not depend on what was read. */
  function BuildRequest(h: Commitments, chain: Chain, form: ActionRequest): Result<ActionRequest> {
    if !Conserved(chain.accounting) then Err("vault accounting is not conserved")
    else if form.amount == 0 || chain.accounting.available < form.amount then Err("LIVE_REQUEST_PREFLIGHT_FAILED")
    else
      var occurrence := if chain.spend.initialized then chain.spend.occurrence + 1 else 1;
      var expiry := chain.timestamp + REQUEST_LIFETIME_SECONDS;
      Ok(form.(occurrence := occurrence, inputCommitment := ZERO_BYTES32,
               spendCheckpoint := Checkpoint(h, chain.spend, form.policyCommitment),
               balanceCheckpoint := h.balance(chain.accounting, occurrence),
               createdAt := chain.timestamp, graceDeadline := expiry, expiry := expiry))
  }

  /** The relay's staleness checks, with the outcome of rebuilding the history. */
  function CheckFresh(
    h: Commitments, chain: Chain, request: ActionRequest, history: Result<seq<HistoryEntry>>): Result<SpendState> {
    if request.expiry < chain.timestamp || ToLower(request.inputCommitment) != ToLower(ZERO_BYTES32) then
      Err("request is expired or requires an unsupported live input")
    else if !Conserved(chain.accounting) then Err("vault conservation failed")
    else if ToLower(request.balanceCheckpoint) != ToLower(h.balance(chain.accounting, request.occurrence)) then
      Err("request balance checkpoint does not match the canonical vault accounting")
    else if history.Err? then Err(history.reason)
    else
      var checkpoint := Checkpoint(h, chain.spend, request.policyCommitment);
      if ToLower(request.spendCheckpoint) != ToLower(checkpoint) || request.occurrence != chain.spend.occurrence + 1
         || |history.value| != chain.spend.occurrence
      then Err("request spend checkpoint is stale")
      else Ok(SpendState(chain.accounting.available, history.value, chain.spend.occurrence, chain.spend.accountedAt,
                         checkpoint, request.balanceCheckpoint, request.createdAt, None, None))
  }

  /** When a request is built: exactly for a positive amount that balanced accounting has available.  It
      lives for a quarter of an hour from the reading on, and nothing else of the form changes. */
  lemma BuildsExactly(h: Commitments, chain: Chain, form: ActionRequest)
    ensures BuildRequest(h, chain, form).Ok? <==>
      && Conserved(chain.accounting) && 0 < form.amount <= chain.accounting.available
    ensures BuildRequest(h, chain, form).Ok? ==>
      var r := BuildRequest(h, chain, form).value;
      && r.createdAt == chain.timestamp && r.expiry == r.graceDeadline == chain.timestamp + 900
      && r.(occurrence := form.occurrence, inputCommitment := form.inputCommitment,
            spendCheckpoint := form.spendCheckpoint, balanceCheckpoint := form.balanceCheckpoint,
            createdAt := form.createdAt, graceDeadline := form.graceDeadline, expiry := form.expiry) == form
  {
    hide ToLower, ZERO_BYTES32;
  }

  /** What the relay checks of any request, whoever built it: it has not expired and takes no live input,
      the accounting balances and is the one it commits to, and checkpoint, occurrence and rebuilt
      history are those of the spend state. */
  lemma ChecksExactly(h: Commitments, chain: Chain, request: ActionRequest, history: Result<seq<HistoryEntry>>)
    ensures CheckFresh(h, chain, request, history).Ok? <==>
      && chain.timestamp <= request.expiry && ToLower(request.inputCommitment) == ToLower(ZERO_BYTES32)
      && Conserved(chain.accounting)
      && ToLower(request.balanceCheckpoint) == ToLower(h.balance(chain.accounting, request.occurrence))
      && history.Ok? && |history.value| == chain.spend.occurrence && request.occurrence == chain.spend.occurrence + 1
      && ToLower(request.spendCheckpoint)
         == ToLower(if chain.spend.initialized then chain.spend.checkpoint else h.genesis(request.policyCommitment))
  {
    hide ToLower, ZERO_BYTES32;
  }

  /** A rebuilt history, as `reconstructHistory` returns it for the state's count. */
  predicate HistoryOf(chain: Chain, history: Result<seq<HistoryEntry>>) {
    history.Ok? && |history.value| == chain.spend.occurrence
  }

  /** A request passes in the very state it was built from, unless that state is one of a policy
      that has not spent yet but counts occurrences, which no router is ever in. */
  lemma FreshWhereBuilt(h: Commitments, chain: Chain, form: ActionRequest, history: Result<seq<HistoryEntry>>)
    requires BuildRequest(h, chain, form).Ok? && HistoryOf(chain, history)
    ensures CheckFresh(h, chain, BuildRequest(h, chain, form).value, history).Ok? <==>
      chain.spend.initialized || chain.spend.occurrence == 0
  {
  }

  /** In any other state it passes exactly when it has not expired there and the accounting, the
      checkpoint in force and the occurrence are those it was built from. */
  lemma FreshElsewhere(
    h: Commitments, built: Chain, form: ActionRequest, now: Chain, history: Result<seq<HistoryEntry>>)
    requires BalanceInjective(h) && BuildRequest(h, built, form).Ok? && HistoryOf(now, history)
    requires built.spend.initialized || built.spend.occurrence == 0
    ensures CheckFresh(h, now, BuildRequest(h, built, form).value, history).Ok? <==>
      && now.timestamp <= built.timestamp + REQUEST_LIFETIME_SECONDS
      && now.accounting == built.accounting
      && now.spend.occurrence == built.spend.occurrence
      && var policy := form.policyCommitment;
         ToLower(Checkpoint(h, now.spend, policy)) == ToLower(Checkpoint(h, built.spend, policy))
  {
    hide ToLower, ZERO_BYTES32, BuildRequest, Checkpoint, BalanceInjective;
    var request := BuildRequest(h, built, form).value;
    BuiltShape(h, built, form);
    BalanceIdentifies(h, now.accounting, built.accounting, request.occurrence);
  }

  lemma BuiltShape(h: Commitments, built: Chain, form: ActionRequest)
    requires BuildRequest(h, built, form).Ok? && (built.spend.initialized || built.spend.occurrence == 0)
    ensures var r := BuildRequest(h, built, form).value;
      && r.occurrence == built.spend.occurrence + 1 && r.inputCommitment == ZERO_BYTES32
      && r.spendCheckpoint == Checkpoint(h, built.spend, form.policyCommitment)
      && r.balanceCheckpoint == h.balance(built.accounting, r.occurrence)
      && r.expiry == built.timestamp + REQUEST_LIFETIME_SECONDS && r.policyCommitment == form.policyCommitment
      && Conserved(built.accounting)
  {
  }

  lemma BalanceIdentifies(h: Commitments, a: Accounting, b: Accounting, n: nat)
    requires BalanceInjective(h)
    ensures ToLower(h.balance(a, n)) == ToLower(h.balance(b, n)) <==> a == b
  {
    hide ToLower;
  }

  // ---- the router's spend state ---------------------------------------------------------

  /** What `execute` of the router does to a policy's spend state; None is a revert. */
  function ExecuteSpend(
    h: Commitments, s: SpendRead, request: ActionRequest, approvedCheckpoint: Text,
    approvedIssuedAt: nat): Option<SpendRead> {
    if s.initialized && (s.occurrence == MAX_UINT32 || request.spendCheckpoint != s.checkpoint
                         || request.occurrence != s.occurrence + 1 || approvedIssuedAt < s.accountedAt) then None
    else if !s.initialized
         && (request.occurrence != 1 || request.spendCheckpoint != h.genesis(request.policyCommitment)) then None
    else Some(SpendRead(approvedCheckpoint, request.occurrence, approvedIssuedAt, true))
  }

  datatype Execution = Execution(request: ActionRequest, checkpoint: Text, issuedAt: nat)

  /** The spend state after the executions; a reverted one changes nothing. */
  function Spending(h: Commitments, s: SpendRead, run: seq<Execution>): SpendRead {
    if run == [] then s
    else
      var before := Spending(h, s, run[..|run| - 1]);
      var e := run[|run| - 1];
      match ExecuteSpend(h, before, e.request, e.checkpoint, e.issuedAt)
      case None => before
      case Some(after) => after
  }

  const UNSPENT: SpendRead := SpendRead(ZERO_BYTES32, 0, 0, false)

  predicate Coherent(s: SpendRead) { s.initialized || s.occurrence == 0 }

  /** The occurrence never goes back, and it moves whenever anything does. */
  lemma {:induction false} OccurrenceIsAVersion(h: Commitments, s: SpendRead, run: seq<Execution>)
    requires Coherent(s)
    ensures var t := Spending(h, s, run);
      Coherent(t) && t.occurrence >= s.occurrence && (t.occurrence == s.occurrence ==> t == s)
  {
    if run != [] {
      OccurrenceIsAVersion(h, s, run[..|run| - 1]);
    }
  }

  lemma {:induction false} UnspentUntilExecuted(h: Commitments, run: seq<Execution>)
    ensures var s := Spending(h, UNSPENT, run);
      && (!s.initialized ==> s == UNSPENT) && (s.initialized ==> 1 <= s.occurrence <= MAX_UINT32)
  {
    if run != [] {
      UnspentUntilExecuted(h, run[..|run| - 1]);
    }
  }

  /** What one more execution does after any others: it counts exactly when it is of the next occurrence,
      builds on the checkpoint in force, was not issued before the last one and the count has room; the
      state is then its own, and otherwise unchanged. */
  lemma ExecutesExactly(h: Commitments, run: seq<Execution>, e: Execution)
    ensures var s, t := Spending(h, UNSPENT, run), Spending(h, UNSPENT, run + [e]);
      if && e.request.occurrence == s.occurrence + 1 && s.occurrence < 0xFFFF_FFFF && e.issuedAt >= s.accountedAt
         && e.request.spendCheckpoint
            == (if s.initialized then s.checkpoint else h.genesis(e.request.policyCommitment))
      then t == SpendRead(e.checkpoint, s.occurrence + 1, e.issuedAt, true)
      else t == s
  {
    UnspentUntilExecuted(h, run);
    assert (run + [e])[..|run|] == run;
  }

  /** So the check is a true compare-and-swap although it does not look at the accounting time:
      a request built from a state the router was in passes after further executions only if the
      whole spend state and the accounting are untouched, whatever was executed. */
  lemma FreshMeansUntouched(
    h: Commitments, before: seq<Execution>, after: seq<Execution>, built: Chain, form: ActionRequest, now: Chain,
    history: Result<seq<HistoryEntry>>)
    requires BalanceInjective(h) && BuildRequest(h, built, form).Ok? && HistoryOf(now, history)
    requires built.spend == Spending(h, UNSPENT, before) && now.spend == Spending(h, built.spend, after)
    ensures CheckFresh(h, now, BuildRequest(h, built, form).value, history).Ok? <==>
      && now.timestamp <= built.timestamp + REQUEST_LIFETIME_SECONDS
      && now.accounting == built.accounting && now.spend == built.spend
  {
    hide Spending, CheckFresh, BuildRequest, ToLower, Lit;
    OccurrenceIsAVersion(h, UNSPENT, before);
    OccurrenceIsAVersion(h, built.spend, after);
    FreshElsewhere(h, built, form, now, history);
  }

  /** And what the machines are then asked to judge is the state the client saw when it built the
      request: the balance, count, accounting time and checkpoint it read, at the time it read them,
      with a history of that length, whatever was executed or tried in between. */
  lemma JudgedAsBuilt(
    h: Commitments, before: seq<Execution>, after: seq<Execution>, built: Chain, form: ActionRequest, now: Chain,
    history: Result<seq<HistoryEntry>>)
    requires BalanceInjective(h) && BuildRequest(h, built, form).Ok? && HistoryOf(now, history)
    requires built.spend == Spending(h, UNSPENT, before) && now.spend == Spending(h, built.spend, after)
    requires CheckFresh(h, now, BuildRequest(h, built, form).value, history).Ok?
    ensures var st := CheckFresh(h, now, BuildRequest(h, built, form).value, history).value;
      && st.availableBalance == built.accounting.available >= form.amount
      && st.history == history.value && |history.value| == st.occurrenceCount == built.spend.occurrence
      && st.lastAccountingAt == built.spend.accountedAt
      && st.spendCheckpoint
         == (if built.spend.initialized then built.spend.checkpoint else h.genesis(form.policyCommitment))
      && st.balanceCheckpoint == h.balance(built.accounting, built.spend.occurrence + 1)
      && st.now == built.timestamp && st.ftso == None && st.fdc == None
  {
    FreshMeansUntouched(h, before, after, built, form, now, history);
    hide Spending, BalanceInjective, ToLower, Lit;
  }
}
