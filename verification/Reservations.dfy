/** The vault's books for one owner and asset: deposits and withdrawals of the owner, interleaved in
    any way with the router's reservations, releases and executions. */
module Reservations {
  import opened Outcomes
  import opened Texts
  import opened Protocol

  /** The accounting, and the amounts of the active reservations by request. */
  datatype Books = Books(accounting: Accounting, reservations: map<Text, nat>)

  datatype Move =
    | Deposit(amount: nat)
    | Withdraw(amount: nat)
    | Reserve(requestId: Text, amount: nat)
    | Release(requestId: Text)
    | Execute(requestId: Text)

  const BLANK: Books := Books(Accounting(0, 0, 0, 0, 0, 0), map[])

  /** What a move does; None is a revert, also for a subtraction that would underflow. */
  function Apply(b: Books, m: Move): Option<Books> {
    var a := b.accounting;
    match m
    case Deposit(n) =>
      if n == 0 then None
      else Some(b.(accounting := a.(deposited := a.deposited + n, available := a.available + n)))
    case Withdraw(n) =>
      if n == 0 || a.available < n then None
      else Some(b.(accounting := a.(available := a.available - n, withdrawn := a.withdrawn + n)))
    case Reserve(id, n) =>
      if n == 0 || id in b.reservations || a.available < n then None
      else Some(Books(a.(available := a.available - n, reserved := a.reserved + n), b.reservations[id := n]))
    case Release(id) =>
      if id !in b.reservations || a.reserved < b.reservations[id] then None
      else
        var n := b.reservations[id];
        Some(Books(a.(reserved := a.reserved - n, available := a.available + n), b.reservations - {id}))
    case Execute(id) =>
      if id !in b.reservations || a.reserved < b.reservations[id] then None
      else
        var n := b.reservations[id];
        Some(Books(a.(reserved := a.reserved - n, spent := a.spent + n), b.reservations - {id}))
  }

  /** The books after the moves; a reverted one changes nothing. */
  function After(b: Books, moves: seq<Move>): Books {
    if moves == [] then b
    else
      var before := After(b, moves[..|moves| - 1]);
      match Apply(before, moves[|moves| - 1]) case None => before case Some(next) => next
  }

  ghost function Total(rs: map<Text, nat>): nat {
    if rs == map[] then 0
    else
      var id :| id in rs;
      rs[id] + Total(rs - {id})
  }

  lemma {:induction false} TotalTakesOut(rs: map<Text, nat>, id: Text)
    requires id in rs
    ensures Total(rs) == rs[id] + Total(rs - {id})
    decreases |rs|
  {
    var first :| first in rs && Total(rs) == rs[first] + Total(rs - {first});
    if first != id {
      TotalTakesOut(rs - {first}, id);
      TotalTakesOut(rs - {id}, first);
      assert (rs - {first}) - {id} == (rs - {id}) - {first};
    }
  }

  lemma TotalAdds(rs: map<Text, nat>, id: Text, n: nat)
    requires id !in rs
    ensures Total(rs[id := n]) == Total(rs) + n
  {
    TotalTakesOut(rs[id := n], id);
    assert rs[id := n] - {id} == rs;
  }

  /** Conservation, and what is reserved is exactly what is active, none of it empty. */
  ghost predicate Balanced(b: Books) {
    && Conserved(b.accounting) && b.accounting.reserved == Total(b.reservations)
    && forall id :: id in b.reservations ==> b.reservations[id] > 0
  }

  lemma MovesBalance(b: Books, m: Move)
    requires Balanced(b) && Apply(b, m).Some?
    ensures Balanced(Apply(b, m).value)
  {
    match m
    case Reserve(id, n) => TotalAdds(b.reservations, id, n);
    case Release(id) => TotalTakesOut(b.reservations, id);
    case Execute(id) => TotalTakesOut(b.reservations, id);
    case _ =>
  }

  /** Over every run the books balance: nothing is created or lost, and what is reserved is the sum of
      the active reservations. */
  lemma {:induction false} RunsBalance(b: Books, moves: seq<Move>)
    requires Balanced(b)
    ensures Balanced(After(b, moves))
  {
    if moves != [] {
      var n := |moves| - 1;
      RunsBalance(b, moves[..n]);
      var before := After(b, moves[..n]);
      if Apply(before, moves[n]).Some? {
        MovesBalance(before, moves[n]);
      }
    }
  }

  /** In particular from blank books on. */
  lemma BooksAlwaysBalance(moves: seq<Move>)
    ensures Balanced(After(BLANK, moves))
  {
    assert Balanced(BLANK);
    RunsBalance(BLANK, moves);
  }

  lemma ActiveIsBacked(b: Books, id: Text)
    requires Balanced(b) && id in b.reservations
    ensures b.accounting.reserved >= b.reservations[id]
  {
    TotalTakesOut(b.reservations, id);
  }

  /** When a move succeeds in balanced books: no subtraction underflows, so every active reservation can
      be released and can be executed, and the other moves are refused only for an amount of nothing,
      for more than is available, or for a request that is reserved already. */
  lemma SucceedsExactly(b: Books, m: Move)
    requires Balanced(b)
    ensures Apply(b, m).Some? <==>
      match m
      case Deposit(n) => n > 0
      case Withdraw(n) => 0 < n <= b.accounting.available
      case Reserve(id, n) => 0 < n <= b.accounting.available && id !in b.reservations
      case Release(id) => id in b.reservations
      case Execute(id) => id in b.reservations
  {
    if (m.Release? || m.Execute?) && m.requestId in b.reservations {
      ActiveIsBacked(b, m.requestId);
    }
    hide Balanced;
  }

  ghost predicate Leaves(moves: seq<Move>, id: Text) { Release(id) in moves || Execute(id) in moves }

  /** A reservation stays active with its amount through everything but its own release or execution. */
  lemma {:induction false} StaysReserved(b: Books, moves: seq<Move>, id: Text)
    requires id in b.reservations && !Leaves(moves, id)
    ensures var t := After(b, moves); id in t.reservations && t.reservations[id] == b.reservations[id]
  {
    if moves != [] {
      var n := |moves| - 1;
      assert moves[n] in moves && forall m :: m in moves[..n] ==> m in moves;
      StaysReserved(b, moves[..n], id);
    }
  }

  /** What an active reservation comes to: its release gives the amount back, its execution spends it,
      and after either it can do neither again. */
  lemma SettlesOnce(s: Books, id: Text)
    requires Balanced(s) && id in s.reservations
    ensures Apply(s, Release(id)).Some? && Apply(s, Execute(id)).Some?
    ensures var n, a := s.reservations[id], s.accounting;
      var released, executed := Apply(s, Release(id)).value, Apply(s, Execute(id)).value;
      && a.reserved >= n
      && released.accounting == a.(reserved := a.reserved - n, available := a.available + n)
      && executed.accounting == a.(reserved := a.reserved - n, spent := a.spent + n)
      && Apply(released, Release(id)).None? && Apply(released, Execute(id)).None?
      && Apply(executed, Release(id)).None? && Apply(executed, Execute(id)).None?
  {
    ActiveIsBacked(s, id);
    hide Balanced;
  }

  /** So whatever happens in between, a reservation made in balanced books can still be released or
      executed, once, for the very amount that was reserved. */
  lemma ReservationsSettle(b: Books, id: Text, n: nat, between: seq<Move>)
    requires Balanced(b) && Apply(b, Reserve(id, n)).Some? && !Leaves(between, id)
    ensures var s := After(Apply(b, Reserve(id, n)).value, between);
      && Balanced(s) && id in s.reservations && s.reservations[id] == n
      && Apply(s, Release(id)).Some? && Apply(s, Execute(id)).Some?
      && After(s, [Release(id)]).accounting.available == s.accounting.available + n
      && After(s, [Execute(id)]).accounting.spent == s.accounting.spent + n
  {
    var r := Apply(b, Reserve(id, n)).value;
    assert r.reservations == b.reservations[id := n];
    MovesBalance(b, Reserve(id, n));
    hide After, Balanced, Leaves, Apply;
    RunsBalance(r, between);
    StaysReserved(r, between, id);
    SettlesOnce(After(r, between), id);
    OneMove(After(r, between), Release(id));
    OneMove(After(r, between), Execute(id));
  }

  lemma OneMove(b: Books, m: Move)
    ensures After(b, [m]) == match Apply(b, m) case None => b case Some(next) => next
  {
    assert [m][..0] == [];
  }
}
