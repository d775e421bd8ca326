/** The web client's vault transactions: what is allowed, what an action is planned as, and what
    a finalised transaction must have done; with the vault and token contracts they run against. */
module Vault {
  import opened Outcomes
  import opened Texts
  import opened Protocol
  import opened Reservations

  datatype Kind = APPROVE | DEPOSIT | WITHDRAW

  datatype Action = DepositAction | WithdrawAction

  datatype Failure = INPUT_INVALID | INSUFFICIENT_TOKEN_BALANCE | ALLOWANCE_REQUIRED | INSUFFICIENT_VAULT_BALANCE

  datatype Snapshot =
    Snapshot(account: Text, finalizedBlock: nat, tokenBalance: nat, allowance: nat, accounting: Accounting)

  /** `validateVaultTransaction`; None is no objection. */
  function Validate(kind: Kind, amount: int, s: Snapshot): Option<Failure> {
    if amount <= 0 then Some(INPUT_INVALID)
    else if (kind == APPROVE || kind == DEPOSIT) && amount > s.tokenBalance then Some(INSUFFICIENT_TOKEN_BALANCE)
    else if kind == DEPOSIT && amount > s.allowance then Some(ALLOWANCE_REQUIRED)
    else if kind == WITHDRAW && amount > s.accounting.available then Some(INSUFFICIENT_VAULT_BALANCE)
    else None
  }

  datatype Plan = Refused(failure: Failure) | Steps(kinds: seq<Kind>)

  /** `planVaultUserAction`. */
  function PlanFor(action: Action, amount: int, s: Snapshot): Plan {
    if amount <= 0 then Refused(INPUT_INVALID)
    else if action == WithdrawAction then
      match Validate(WITHDRAW, amount, s) case Some(f) => Refused(f) case None => Steps([WITHDRAW])
    else if amount > s.tokenBalance then Refused(INSUFFICIENT_TOKEN_BALANCE)
    else Steps(if s.allowance < amount then [APPROVE, DEPOSIT] else [DEPOSIT])
  }

  /** `verifyVaultPostcondition`: true when it returns. */
  predicate Verified(kind: Kind, amount: int, before: Snapshot, after: Snapshot) {
    var a, b := before.accounting, after.accounting;
    && ToLower(before.account) == ToLower(after.account) && after.finalizedBlock >= before.finalizedBlock
    && match kind
       case APPROVE => after.allowance == amount && after.tokenBalance == before.tokenBalance && a == b
       case DEPOSIT =>
         && after.tokenBalance == before.tokenBalance - amount
         && b.deposited == a.deposited + amount && b.available == a.available + amount
         && b.reserved == a.reserved && b.spent == a.spent && b.withdrawn == a.withdrawn && b.refunded == a.refunded
       case WITHDRAW =>
         && after.tokenBalance == before.tokenBalance + amount
         && b.deposited == a.deposited && b.available == a.available - amount
         && b.reserved == a.reserved && b.spent == a.spent && b.withdrawn == a.withdrawn + amount
         && b.refunded == a.refunded
  }

  // ---- runs of verified transactions ----------------------------------------------------

  datatype Transaction = Transaction(kind: Kind, amount: int, before: Snapshot, after: Snapshot)

  predicate Done(t: Transaction) {
    Validate(t.kind, t.amount, t.before) == None && Verified(t.kind, t.amount, t.before, t.after)
  }

  /** Validated and verified transactions, each starting where the one before ended. */
  ghost predicate Linked(start: Snapshot, run: seq<Transaction>) {
    && (forall i :: 0 <= i < |run| ==> Done(run[i]))
    && (run != [] ==> run[0].before == start)
    && (forall i :: 0 < i < |run| ==> run[i].before == run[i - 1].after)
  }

  function End(start: Snapshot, run: seq<Transaction>): Snapshot {
    if run == [] then start else run[|run| - 1].after
  }

  /** The sum of the deposits less that of the withdrawals. */
  function NetDeposit(run: seq<Transaction>): int {
    if run == [] then 0
    else
      var t := run[|run| - 1];
      NetDeposit(run[..|run| - 1])
        + (match t.kind case APPROVE => 0 case DEPOSIT => t.amount case WITHDRAW => -t.amount)
  }

  function Wealth(s: Snapshot): int { s.tokenBalance + s.accounting.deposited - s.accounting.withdrawn }

  /** After any run, conservation still holds, the holder's total is unchanged, and what moved
      is exactly the net deposit, from the wallet to the available part of the vault. */
  lemma {:induction false} RunsConserve(start: Snapshot, run: seq<Transaction>)
    requires Linked(start, run) && Conserved(start.accounting)
    ensures var end := End(start, run); var a, b := start.accounting, end.accounting;
      && Conserved(b) && Wealth(end) == Wealth(start)
      && end.tokenBalance == start.tokenBalance - NetDeposit(run)
      && b.available == a.available + NetDeposit(run)
      && b.reserved == a.reserved && b.spent == a.spent && b.refunded == a.refunded
      && ToLower(end.account) == ToLower(start.account) && end.finalizedBlock >= start.finalizedBlock
  {
    if run != [] {
      var n := |run| - 1;
      RunsConserve(start, run[..n]);
      assert Done(run[n]) && run[n].before == End(start, run[..n]);
    }
  }

  // ---- plans ----------------------------------------------------------------------------

  /** An action is planned exactly when the wallet or the vault holds the amount, and an approval
      is part of the plan exactly when the allowance does not cover it; a refusal says which is
      missing. */
  lemma PlannedExactly(action: Action, amount: int, s: Snapshot)
    ensures var held := if action == DepositAction then s.tokenBalance else s.accounting.available;
      && (PlanFor(action, amount, s).Steps? <==> 0 < amount <= held)
      && (PlanFor(action, amount, s).Steps? ==>
            (APPROVE in PlanFor(action, amount, s).kinds <==> action == DepositAction && s.allowance < amount))
      && (amount > held ==>
            PlanFor(action, amount, s)
              == Refused(if amount <= 0 then INPUT_INVALID
                         else if action == DepositAction then INSUFFICIENT_TOKEN_BALANCE
                         else INSUFFICIENT_VAULT_BALANCE))
      && (amount <= 0 ==> PlanFor(action, amount, s) == Refused(INPUT_INVALID))
  {
  }

  /** A run that carries out the first steps of a plan. */
  ghost predicate Follows(action: Action, amount: int, start: Snapshot, run: seq<Transaction>) {
    && PlanFor(action, amount, start).Steps? && |run| <= |PlanFor(action, amount, start).kinds|
    && Linked(start, run)
    && forall i :: 0 <= i < |run| ==> run[i].kind == PlanFor(action, amount, start).kinds[i] && run[i].amount == amount
  }

  /** Whenever a planned step is reached, it passes validation; and the plan, once done, has moved
      the amount. */
  lemma PlannedStepsValidate(action: Action, amount: int, start: Snapshot, run: seq<Transaction>)
    requires Follows(action, amount, start, run)
    ensures var kinds := PlanFor(action, amount, start).kinds;
      && (|run| < |kinds| ==> Validate(kinds[|run|], amount, End(start, run)) == None)
      && (|run| == |kinds| ==>
            End(start, run).accounting.available
              == start.accounting.available + (if action == DepositAction then amount else -amount))
  {
    if |run| == 2 {
      assert Done(run[0]) && Done(run[1]) && run[1].before == run[0].after;
    } else if |run| == 1 {
      assert Done(run[0]);
    }
  }

  // ---- the contracts --------------------------------------------------------------------

  /** What the token and vault contracts do with a transaction of the holder; None is a revert.
      The allowance after a deposit is the token's affair. */
  function Transact(kind: Kind, amount: nat, s: Snapshot, allowanceLeft: nat, block: nat): Option<Snapshot> {
    var a := s.accounting;
    match kind
    case APPROVE => Some(s.(allowance := amount, finalizedBlock := block))
    case DEPOSIT =>
      if amount == 0 || s.allowance < amount || s.tokenBalance < amount then None
      else Some(Snapshot(s.account, block, s.tokenBalance - amount, allowanceLeft,
                         a.(deposited := a.deposited + amount, available := a.available + amount)))
    case WITHDRAW =>
      if amount == 0 || a.available < amount then None
      else Some(Snapshot(s.account, block, s.tokenBalance + amount, s.allowance,
                         a.(available := a.available - amount, withdrawn := a.withdrawn + amount)))
  }

  /** A transaction that passed validation is carried out by the contracts and then passes the
      postcondition; the contracts refuse what validation refuses, except approvals beyond the
      wallet's balance. */
  lemma ContractsMeetPostcondition(kind: Kind, amount: nat, s: Snapshot, allowanceLeft: nat, block: nat)
    requires block >= s.finalizedBlock
    ensures var t := Transact(kind, amount, s, allowanceLeft, block);
      && (Validate(kind, amount, s) == None ==> t.Some? && Verified(kind, amount, s, t.value))
      && (kind != APPROVE ==> (t.Some? <==> Validate(kind, amount, s) == None))
      && (t.Some? && Conserved(s.accounting) ==> Conserved(t.value.accounting))
  {
  }

  /** The vault's side of a transaction is a deposit or withdrawal in its books. */
  lemma TransactionsAreMoves(kind: Kind, amount: nat, s: Snapshot, allowanceLeft: nat, block: nat, b: Books)
    requires b.accounting == s.accounting && Transact(kind, amount, s, allowanceLeft, block).Some?
    ensures var t := Transact(kind, amount, s, allowanceLeft, block).value;
      match kind
      case APPROVE => t.accounting == s.accounting
      case DEPOSIT => Apply(b, Deposit(amount)) == Some(b.(accounting := t.accounting))
      case WITHDRAW => Apply(b, Withdraw(amount)) == Some(b.(accounting := t.accounting))
  {
  }

  /** The postcondition is exact: of all accountings and balances only the contracts' own result
      passes, so any move of the router in between makes it fail, though the transaction landed. */
  lemma PostconditionIsExact(
    kind: Kind, amount: nat, s: Snapshot, after: Snapshot, allowanceLeft: nat, b: Books, m: Move)
    requires Validate(kind, amount, s) == None && after.finalizedBlock >= s.finalizedBlock && after.account == s.account
    requires var t := Transact(kind, amount, s, allowanceLeft, after.finalizedBlock);
      t.Some? ==> b.accounting == t.value.accounting
    requires Balanced(b) && (m.Reserve? || m.Release? || m.Execute?) && Apply(b, m).Some?
    ensures var t := Transact(kind, amount, s, allowanceLeft, after.finalizedBlock).value;
      && (Verified(kind, amount, s, after) <==>
            && after.tokenBalance == t.tokenBalance && after.accounting == t.accounting
            && (kind == APPROVE ==> after.allowance == amount))
      && !Verified(kind, amount, s, t.(accounting := Apply(b, m).value.accounting))
  {
  }
}
