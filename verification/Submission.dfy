/** The live relay's submission loop against the action router.  Others may submit, execute,
    expire or cancel between any two of the loop's own reads and writes. */
module Submission {
  import opened Outcomes
  import opened Texts
  import opened Sequences
  import opened OrderedMaps
  import opened Protocol
  import opened Threshold

  // ---- the router's state of one request ------------------------------------------------

  const EXPIRED_STATUS: nat := 5
  const CANCELLED: nat := 6

  /** `votes` holds the digest each machine has submitted. */
  datatype RouterRequest =
    RouterRequest(status: nat, votes: map<Text, Text>, approved: Option<Text>, matchingCount: nat)

  datatype Move = Submitted(machine: Text, digest: Text) | Executed | TimedOut | Cancelled

  function Voters(votes: map<Text, Text>, digest: Text): set<Text> { set m | m in votes && votes[m] == digest }

  function StatusOf(decision: Decision): nat { if decision == ALLOW then ALLOWED else DENIED }

  /** `submitEvaluation` for an evaluation that is otherwise acceptable; None is a revert. */
  function Submit(decisionOf: Text -> Decision, r: RouterRequest, machine: Text, digest: Text): Option<RouterRequest> {
    if r.status != PENDING || machine in r.votes then None
    else
      var votes := r.votes[machine := digest];
      var count := |Voters(votes, digest)|;
      if count < 2 || r.approved.Some? then Some(r.(votes := votes))
      else Some(RouterRequest(StatusOf(decisionOf(digest)), votes, Some(digest), count))
  }

  function Apply(decisionOf: Text -> Decision, r: RouterRequest, move: Move): RouterRequest {
    match move
    case Submitted(m, d) => (match Submit(decisionOf, r, m, d) case None => r case Some(next) => next)
    case Executed => if r.status == ALLOWED then r.(status := EXECUTED) else r
    case TimedOut => if r.status == PENDING || r.status == ALLOWED then r.(status := EXPIRED_STATUS) else r
    case Cancelled => if r.status == PENDING || r.status == ALLOWED then r.(status := CANCELLED) else r
  }

  function Interfere(decisionOf: Text -> Decision, r: RouterRequest, moves: seq<Move>): RouterRequest {
    if moves == [] then r
    else Apply(decisionOf, Interfere(decisionOf, r, moves[..|moves| - 1]), moves[|moves| - 1])
  }

  /** While pending no digest has two machines; an approved one has, the status tells its decision
      until the request is closed, and only an allowed request is executed. */
  ghost predicate RouterInv(decisionOf: Text -> Decision, r: RouterRequest) {
    && (r.status == PENDING ==> r.approved.None? && forall d :: |Voters(r.votes, d)| < 2)
    && (r.approved.Some? ==> r.matchingCount >= 2 && |Voters(r.votes, r.approved.value)| >= 2)
    && (r.status == ALLOWED || r.status == DENIED ==>
          r.approved.Some? && r.status == StatusOf(decisionOf(r.approved.value)))
    && (r.status == EXECUTED ==> r.approved.Some? && decisionOf(r.approved.value) == ALLOW)
  }

  /** Submitted digests are never changed or withdrawn. */
  ghost predicate Extends(r: RouterRequest, before: RouterRequest) {
    forall m :: m in before.votes ==> m in r.votes && r.votes[m] == before.votes[m]
  }

  lemma VotersOfNew(votes: map<Text, Text>, machine: Text, digest: Text, d: Text)
    requires machine !in votes
    ensures Voters(votes[machine := digest], d) == Voters(votes, d) + (if d == digest then {machine} else {})
    ensures |Voters(votes[machine := digest], d)| == |Voters(votes, d)| + (if d == digest then 1 else 0)
  {
    assert Voters(votes[machine := digest], d) == Voters(votes, d) + (if d == digest then {machine} else {});
  }

  lemma SubmitKeepsInv(decisionOf: Text -> Decision, r: RouterRequest, machine: Text, digest: Text)
    requires RouterInv(decisionOf, r) && Submit(decisionOf, r, machine, digest).Some?
    ensures var next := Submit(decisionOf, r, machine, digest).value;
      && RouterInv(decisionOf, next) && Extends(next, r) && next.votes == r.votes[machine := digest]
      && (next.status == PENDING <==> |Voters(next.votes, digest)| < 2)
      && (next.status != PENDING ==> next.status == StatusOf(decisionOf(digest)) && next.approved == Some(digest))
  {
    hide Voters;
    var next := Submit(decisionOf, r, machine, digest).value;
    VotersOfNew(r.votes, machine, digest, digest);
    if next.status == PENDING {
      forall d ensures |Voters(next.votes, d)| < 2 {
        VotersOfNew(r.votes, machine, digest, d);
      }
    }
  }

  lemma ApplyKeepsInv(decisionOf: Text -> Decision, r: RouterRequest, move: Move)
    requires RouterInv(decisionOf, r)
    ensures RouterInv(decisionOf, Apply(decisionOf, r, move)) && Extends(Apply(decisionOf, r, move), r)
    ensures r.status != PENDING ==> Apply(decisionOf, r, move).status != PENDING
  {
    hide Voters, Submit;
    match move
    case Submitted(m, d) =>
      if Submit(decisionOf, r, m, d).Some? {
        SubmitKeepsInv(decisionOf, r, m, d);
        OnlyPendingAccepts(decisionOf, r, m, d);
      }
    case _ =>
  }

  lemma OnlyPendingAccepts(decisionOf: Text -> Decision, r: RouterRequest, machine: Text, digest: Text)
    ensures Submit(decisionOf, r, machine, digest).Some? <==> r.status == PENDING && machine !in r.votes
  {
  }

  lemma {:induction false} InterfereKeepsInv(decisionOf: Text -> Decision, r: RouterRequest, moves: seq<Move>)
    requires RouterInv(decisionOf, r)
    ensures var t := Interfere(decisionOf, r, moves);
      RouterInv(decisionOf, t) && Extends(t, r) && (r.status != PENDING ==> t.status != PENDING)
  {
    hide RouterInv, Apply;
    if moves != [] {
      InterfereKeepsInv(decisionOf, r, moves[..|moves| - 1]);
      ApplyKeepsInv(decisionOf, Interfere(decisionOf, r, moves[..|moves| - 1]), moves[|moves| - 1]);
    }
  }

  /** Some move of the kind came when the request had one of the given statuses. */
  ghost predicate CameAt(
    decisionOf: Text -> Decision, r: RouterRequest, moves: seq<Move>, kind: Move, statuses: set<nat>)
  {
    exists i :: 0 <= i < |moves| && moves[i] == kind && Interfere(decisionOf, r, moves[..i]).status in statuses
  }

  lemma CameAtExtends(
    decisionOf: Text -> Decision, r: RouterRequest, moves: seq<Move>, kind: Move, statuses: set<nat>)
    requires moves != []
    ensures var n := |moves| - 1;
      CameAt(decisionOf, r, moves, kind, statuses) <==>
        || CameAt(decisionOf, r, moves[..n], kind, statuses)
        || (moves[n] == kind && Interfere(decisionOf, r, moves[..n]).status in statuses)
  {
    hide Interfere;
    var n := |moves| - 1;
    assert forall i :: 0 <= i < n ==> moves[..n][..i] == moves[..i];
    if i :| 0 <= i < n && moves[..n][i] == kind && Interfere(decisionOf, r, moves[..n][..i]).status in statuses {
      assert moves[i] == kind && Interfere(decisionOf, r, moves[..i]).status in statuses;
    }
  }

  /** How a request closes, over any moves: it is executed if and only if an execution came while it
      was allowed, expired or cancelled if and only if that came while it was pending or allowed, and
      whatever comes later changes nothing. */
  lemma {:induction false} ClosesExactly(decisionOf: Text -> Decision, r: RouterRequest, moves: seq<Move>)
    requires r.status == PENDING
    ensures var t := Interfere(decisionOf, r, moves);
      && 1 <= t.status <= 6
      && (t.status == EXECUTED <==> CameAt(decisionOf, r, moves, Executed, {ALLOWED}))
      && (t.status == EXPIRED_STATUS <==> CameAt(decisionOf, r, moves, TimedOut, {PENDING, ALLOWED}))
      && (t.status == CANCELLED <==> CameAt(decisionOf, r, moves, Cancelled, {PENDING, ALLOWED}))
  {
    hide CameAt, Voters;
    if moves == [] {
      NothingCame(decisionOf, r);
    } else {
      var n := |moves| - 1;
      ClosesExactly(decisionOf, r, moves[..n]);
      CameAtExtends(decisionOf, r, moves, Executed, {ALLOWED});
      CameAtExtends(decisionOf, r, moves, TimedOut, {PENDING, ALLOWED});
      CameAtExtends(decisionOf, r, moves, Cancelled, {PENDING, ALLOWED});
    }
  }

  lemma NothingCame(decisionOf: Text -> Decision, r: RouterRequest)
    ensures forall kind, statuses :: !CameAt(decisionOf, r, [], kind, statuses)
  {
  }

  lemma {:induction false} ClosedStaysClosed(decisionOf: Text -> Decision, r: RouterRequest, moves: seq<Move>)
    requires r.status != PENDING && r.status != ALLOWED
    ensures Interfere(decisionOf, r, moves) == r
  {
    if moves != [] {
      ClosedStaysClosed(decisionOf, r, moves[..|moves| - 1]);
    }
  }

  // ---- the loop -------------------------------------------------------------------------

  /** What others do before each interaction of the loop with the chain, and which of the
      loop's transactions land when the router itself would accept them. */
  datatype World = World(moves: nat -> seq<Move>, lands: nat -> bool)

  /** Nobody else moves and every transaction lands. */
  ghost predicate Quiet(w: World) { forall k :: w.moves(k) == [] && w.lands(k) }

  /** What the loop has done so far. */
  ghost predicate Progress(
    digest: Text, before: RouterRequest, r: RouterRequest, matching: seq<Envelope>, submitted: seq<Text>)
  {
    && Extends(r, before) && NoDuplicates(submitted)
    && (forall m :: m in submitted ==>
          m in MachinesOf(matching) && m !in before.votes && m in r.votes && r.votes[m] == digest)
    && (|submitted| >= 2 ==> r.status != PENDING)
  }

  /** When nobody interferes, the votes are the old ones and the submitted ones. */
  ghost predicate QuietProgress(
    decision: Decision, digest: Text, before: RouterRequest, r: RouterRequest, seen: seq<Envelope>,
    submitted: seq<Text>)
  {
    && MachinesOf(seen) <= r.votes.Keys
    && (forall m :: m in r.votes ==> if m in before.votes then r.votes[m] == before.votes[m] else m in submitted)
    && (r.status == PENDING || (r.status == StatusOf(decision) && r.approved == Some(digest)))
    && (r.status == PENDING <==> |Voters(r.votes, digest)| < 2)
  }

  lemma ProgressSurvives(
    decisionOf: Text -> Decision, digest: Text, before: RouterRequest, r: RouterRequest, matching: seq<Envelope>,
    submitted: seq<Text>, moves: seq<Move>)
    requires RouterInv(decisionOf, r) && Progress(digest, before, r, matching, submitted)
    ensures RouterInv(decisionOf, Interfere(decisionOf, r, moves))
    ensures Progress(digest, before, Interfere(decisionOf, r, moves), matching, submitted)
    ensures r.votes.Keys <= Interfere(decisionOf, r, moves).votes.Keys
    ensures r.status != PENDING ==> Interfere(decisionOf, r, moves).status != PENDING
    ensures moves == [] ==> Interfere(decisionOf, r, moves) == r
  {
    hide RouterInv;
    InterfereKeepsInv(decisionOf, r, moves);
  }

  lemma SubmittingProgresses(
    decisionOf: Text -> Decision, digest: Text, before: RouterRequest, r: RouterRequest, matching: seq<Envelope>,
    submitted: seq<Text>, e: Envelope)
    requires RouterInv(decisionOf, r) && Progress(digest, before, r, matching, submitted)
    requires e in matching && DigestOf(e) == digest && Submit(decisionOf, r, MachineOf(e), digest).Some?
    ensures var next := Submit(decisionOf, r, MachineOf(e), digest).value;
      && RouterInv(decisionOf, next) && Progress(digest, before, next, matching, submitted + [MachineOf(e)])
      && next.votes.Keys == r.votes.Keys + {MachineOf(e)}
    ensures |submitted| < 2
  {
    hide RouterInv, Voters;
    var machine := MachineOf(e);
    OnlyPendingAccepts(decisionOf, r, machine, digest);
    SubmitKeepsInv(decisionOf, r, machine, digest);
    hide Submit;
    var next := Submit(decisionOf, r, machine, digest).value;
    if |submitted| == 1 {
      TwoVoters(next.votes, digest, submitted[0], machine);
    }
  }

  lemma TwoVoters(votes: map<Text, Text>, digest: Text, m: Text, n: Text)
    requires m in votes && n in votes && m != n && votes[m] == digest && votes[n] == digest
    ensures |Voters(votes, digest)| >= 2
  {
    assert {m, n} <= Voters(votes, digest);
    SubsetSize({m, n}, Voters(votes, digest));
  }

  lemma QuietSubmission(
    decisionOf: Text -> Decision, digest: Text, before: RouterRequest, r: RouterRequest, matching: seq<Envelope>,
    i: nat, submitted: seq<Text>)
    requires i < |matching| && DigestOf(matching[i]) == digest
    requires RouterInv(decisionOf, r) && Submit(decisionOf, r, MachineOf(matching[i]), digest).Some?
    requires Progress(digest, before, r, matching, submitted)
    requires QuietProgress(decisionOf(digest), digest, before, r, matching[..i], submitted)
    ensures var m := MachineOf(matching[i]); var next := Submit(decisionOf, r, m, digest).value;
      QuietProgress(decisionOf(digest), digest, before, next, matching[..i + 1], submitted + [m])
  {
    hide RouterInv, Voters;
    OnlyPendingAccepts(decisionOf, r, MachineOf(matching[i]), digest);
    SubmitKeepsInv(decisionOf, r, MachineOf(matching[i]), digest);
    hide Submit;
    assert matching[..i + 1] == matching[..i] + [matching[i]];
    assert forall m :: m in r.votes && m !in before.votes ==> m in submitted + [MachineOf(matching[i])];
  }

  /** The machines whose votes for the digest the router ends up with when nobody interferes. */
  ghost function Attainable(before: RouterRequest, matching: seq<Envelope>, digest: Text): set<Text> {
    Voters(before.votes, digest) + (MachinesOf(matching) - before.votes.Keys)
  }

  lemma StartProgress(decisionOf: Text -> Decision, digest: Text, before: RouterRequest, matching: seq<Envelope>)
    requires RouterInv(decisionOf, before) && before.status == PENDING
    ensures Progress(digest, before, before, matching, []) && MachinesOf(matching[..0]) <= before.votes.Keys
    ensures QuietProgress(decisionOf(digest), digest, before, before, matching[..0], [])
  {
    hide Voters;
  }

  lemma SeenStays(
    decision: Decision, digest: Text, before: RouterRequest, r: RouterRequest, matching: seq<Envelope>, i: nat,
    submitted: seq<Text>)
    requires i < |matching| && MachineOf(matching[i]) in r.votes
    requires QuietProgress(decision, digest, before, r, matching[..i], submitted)
    ensures QuietProgress(decision, digest, before, r, matching[..i + 1], submitted)
  {
    hide Voters;
    assert matching[..i + 1] == matching[..i] + [matching[i]];
  }

  lemma QuietStatus(
    decision: Decision, digest: Text, before: RouterRequest, r: RouterRequest, seen: seq<Envelope>,
    submitted: seq<Text>)
    requires QuietProgress(decision, digest, before, r, seen, submitted)
    ensures r.status == PENDING || r.status == ALLOWED || r.status == DENIED
  {
    hide Voters;
  }

  lemma QuietVoters(
    decision: Decision, digest: Text, before: RouterRequest, r: RouterRequest, matching: seq<Envelope>, seen: nat,
    submitted: seq<Text>)
    requires seen <= |matching| && Progress(digest, before, r, matching, submitted)
    requires QuietProgress(decision, digest, before, r, matching[..seen], submitted)
    ensures Voters(r.votes, digest) <= Attainable(before, matching, digest)
    ensures seen == |matching| ==> Voters(r.votes, digest) == Attainable(before, matching, digest)
  {
    assert matching[..|matching|] == matching;
  }

  lemma QuietEnds(
    decisionOf: Text -> Decision, digest: Text, before: RouterRequest, r: RouterRequest, matching: seq<Envelope>,
    seen: nat, submitted: seq<Text>)
    requires seen <= |matching| && Progress(digest, before, r, matching, submitted) && RouterInv(decisionOf, r)
    requires QuietProgress(decisionOf(digest), digest, before, r, matching[..seen], submitted)
    requires r.status == PENDING ==> seen == |matching|
    ensures r.status == StatusOf(decisionOf(digest)) && r.matchingCount >= 2
       <==> |Attainable(before, matching, digest)| >= 2
    ensures r.status != PENDING ==> r.approved == Some(digest)
  {
    hide Voters, Attainable, Progress;
    QuietVoters(decisionOf(digest), digest, before, r, matching, seen, submitted);
    SubsetSize(Voters(r.votes, digest), Attainable(before, matching, digest));
  }

  /** What success says of the router. */
  lemma StatusShowsDecision(decisionOf: Text -> Decision, digest: Text, r: RouterRequest)
    requires RouterInv(decisionOf, r) && r.status == StatusOf(decisionOf(digest))
    ensures r.approved.Some? && decisionOf(r.approved.value) == decisionOf(digest)
    ensures |Voters(r.votes, r.approved.value)| >= 2
  {
    hide Voters;
  }

  lemma SeenExtends(r: RouterRequest, matching: seq<Envelope>, i: nat)
    requires i < |matching| && MachinesOf(matching[..i]) <= r.votes.Keys && MachineOf(matching[i]) in r.votes
    ensures MachinesOf(matching[..i + 1]) <= r.votes.Keys
  {
    assert matching[..i + 1] == matching[..i] + [matching[i]];
  }

  lemma ProgressSubmits(
    digest: Text, before: RouterRequest, r: RouterRequest, matching: seq<Envelope>, submitted: seq<Text>, e: Envelope)
    requires Progress(digest, before, r, matching, submitted) && e in matching && MachineOf(e) !in r.votes
    ensures MachineOf(e) !in submitted
  {
  }

  /** Every machine is submitted at most once and only if the router had nothing of it, and at most
      two are.  Unless one of its own writes is refused or lost, the loop looks at every matching
      machine or sees the request closed, and it succeeds, whoever submitted, exactly when the router
      then shows the decision with two machines behind it.  A write is refused only if the router
      does not take it where the loop stops.  Left alone, no write is refused, and the loop succeeds
      exactly when the votes already there for the digest and the machines the router has nothing of
      make two. */
  method SubmitMatching(
    decisionOf: Text -> Decision, digest: Text, matching: seq<Envelope>, before: RouterRequest, w: World)
    returns (ok: bool, refused: bool, r: RouterRequest, submitted: seq<Text>)
    requires RouterInv(decisionOf, before) && before.status == PENDING
    requires forall e :: e in matching ==> DigestOf(e) == digest
    ensures RouterInv(decisionOf, r) && Progress(digest, before, r, matching, submitted) && |submitted| <= 2
    ensures refused ==>
      && !ok
      && exists e, k :: e in matching && MachineOf(e) !in submitted && (!Takes(r, MachineOf(e)) || !w.lands(k))
    ensures !refused ==> r.status != PENDING || MachinesOf(matching) <= r.votes.Keys
    ensures !refused ==> (ok <==> r.status == (if decisionOf(digest) == ALLOW then 2 else 3) && r.matchingCount >= 2)
    ensures ok ==>
      && r.approved.Some? && decisionOf(r.approved.value) == decisionOf(digest)
      && |Voters(r.votes, r.approved.value)| >= 2
    ensures Quiet(w) ==> !refused && (ok <==> |Attainable(before, matching, digest)| >= 2)
    ensures Quiet(w) && ok ==> r.approved == Some(digest)
  {
    hide RouterInv, Voters, Submit, Interfere, Attainable, Progress, QuietProgress, MachinesOf;
    r, submitted, refused := before, [], false;
    var k: nat := 0;
    ghost var decision := decisionOf(digest);
    StartProgress(decisionOf, digest, before, matching);
    var i := 0;
    while i < |matching|
      invariant 0 <= i <= |matching|
      invariant RouterInv(decisionOf, r) && Progress(digest, before, r, matching, submitted) && |submitted| <= 2
      invariant MachinesOf(matching[..i]) <= r.votes.Keys
      invariant Quiet(w) ==> QuietProgress(decision, digest, before, r, matching[..i], submitted) && r.status == PENDING
    {
      var machine := MachineOf(matching[i]);
      ProgressSurvives(decisionOf, digest, before, r, matching, submitted, w.moves(k));
      r := Interfere(decisionOf, r, w.moves(k));
      k := k + 1;
      if machine in r.votes {
        if Quiet(w) { SeenStays(decision, digest, before, r, matching, i, submitted); }
        SeenExtends(r, matching, i);
        i := i + 1;
        continue;
      }
      ProgressSubmits(digest, before, r, matching, submitted, matching[i]);
      ProgressSurvives(decisionOf, digest, before, r, matching, submitted, w.moves(k));
      r := Interfere(decisionOf, r, w.moves(k));
      k := k + 1;
      var next := Submit(decisionOf, r, machine, digest);
      OnlyPendingAccepts(decisionOf, r, machine, digest);
      if next.None? || !w.lands(k) {
        assert matching[i] in matching && (!Takes(r, machine) || !w.lands(k));
        return false, true, r, submitted;
      }
      SubmittingProgresses(decisionOf, digest, before, r, matching, submitted, matching[i]);
      if Quiet(w) { QuietSubmission(decisionOf, digest, before, r, matching, i, submitted); }
      SeenExtends(next.value, matching, i);
      r := next.value;
      submitted := submitted + [machine];
      i := i + 1;
      ProgressSurvives(decisionOf, digest, before, r, matching, submitted, w.moves(k));
      r := Interfere(decisionOf, r, w.moves(k));
      k := k + 1;
      if r.status == ALLOWED || r.status == DENIED {
        break;
      }
      if Quiet(w) { QuietStatus(decision, digest, before, r, matching[..i], submitted); }
    }
    assert i == |matching| ==> matching[..i] == matching;
    ProgressSurvives(decisionOf, digest, before, r, matching, submitted, w.moves(k));
    r := Interfere(decisionOf, r, w.moves(k));
    ok := r.status == StatusOf(decisionOf(digest)) && r.matchingCount >= 2;
    if ok { StatusShowsDecision(decisionOf, digest, r); }
    if Quiet(w) { QuietEnds(decisionOf, digest, before, r, matching, i, submitted); }
  }

  /** The router takes an evaluation of the machine: the request is pending and has none of it. */
  predicate Takes(r: RouterRequest, machine: Text) { r.status == 1 && machine !in r.votes }

  /** With an untouched request or one matching submission already made, two matching machines
      are enough: the loop resumes and succeeds, unless others interfere. */
  lemma ResumesFromNoneOrOne(before: RouterRequest, matching: seq<Envelope>, digest: Text, m: Text, n: Text)
    requires m != n && m in MachinesOf(matching) && n in MachinesOf(matching)
    requires forall x :: x in before.votes && x in MachinesOf(matching) ==> before.votes[x] == digest
    ensures |Attainable(before, matching, digest)| >= 2
  {
    assert m in Attainable(before, matching, digest) && n in Attainable(before, matching, digest);
    hide Attainable;
    SubsetSize({m, n}, Attainable(before, matching, digest));
  }
}
