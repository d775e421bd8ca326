/** Rebuilding a policy's spend history from an unordered log: the live relay's
    `reconstructHistory`, and the part of the demo state reader that does the same. */
module History {
  import opened Outcomes
  import opened Texts
  import opened Sequences
  import opened OrderedMaps
  import opened Protocol

  // ---- the explorer's answer ------------------------------------------------------------

  datatype ExplorerLog = NotAnObject | Log(address: Text, topics: seq<Text>, transactionHash: Text, blockNumber: Text)

  datatype ExplorerResponse = ExplorerResponse(status: Text, message: Text, logs: seq<ExplorerLog>)

  const EXECUTED_EVENT: string := "RequestExecuted(bytes32,address,uint256,bytes32)"

  /** A log of the router's execution event, of a request whose id has thirty-two bytes. */
  ghost predicate IsExecution(p: Primitives, router: Text, log: ExplorerLog) {
    && log.Log? && IsAddress(p, log.address) && GetAddress(p, log.address) == router
    && |log.topics| >= 3 && ToLower(log.topics[0]) == ToLower(p.keccak(Lit(EXECUTED_EVENT)))
    && IsHexOf(log.topics[1], 64) && IsHexOf(log.transactionHash, 64)
    && |log.blockNumber| > 2 && IsHexOf(log.blockNumber, |log.blockNumber| - 2)
  }

  function ExecutedId(log: ExplorerLog): Text {
    if log.Log? && |log.topics| > 1 then ToLower(log.topics[1]) else []
  }

  function ExecutedIds(logs: seq<ExplorerLog>): seq<Text> {
    seq(|logs|, i requires 0 <= i < |logs| => ExecutedId(logs[i]))
  }

  /** The router's distinct executed requests in the explorer's order, or a failure when the answer is
      too long, a log is foreign or malformed, or a request occurs twice. */
  method ParseExecutedRequestIds(p: Primitives, router: Text, response: ExplorerResponse) returns (r: Result<seq<Text>>)
    ensures r.Ok? <==>
      && response.status == Lit("1") && response.message == Lit("OK") && |response.logs| <= 10000
      && (forall log :: log in response.logs ==> IsExecution(p, router, log))
      && NoDuplicates(ExecutedIds(response.logs))
    ensures r.Ok? ==> r.value == ExecutedIds(response.logs)
  {
    hide ToLower, IsHexOf;
    if response.status != Lit("1") || response.message != Lit("OK") || |response.logs| > 10000 {
      return Err("explorer log response failed closed");
    }
    var requestIds: seq<Text> := [];
    var distinct: set<Text> := {};
    var logs := response.logs;
    ghost var all := ExecutedIds(logs);
    for i := 0 to |logs|
      invariant requestIds == all[..i] && NoDuplicates(requestIds)
      invariant distinct == set id | id in requestIds
      invariant forall j :: 0 <= j < i ==> IsExecution(p, router, logs[j])
    {
      assert logs[i] in response.logs;
      if logs[i].NotAnObject? {
        return Err("explorer log item is invalid");
      }
      var Log(address, topics, transactionHash, blockNumber) := logs[i];
      if !IsAddress(p, address) || GetAddress(p, address) != router
         || |topics| < 3 || ToLower(topics[0]) != ToLower(p.keccak(Lit(EXECUTED_EVENT)))
         || !IsHexOf(transactionHash, 64) || |blockNumber| <= 2 || !IsHexOf(blockNumber, |blockNumber| - 2) {
        return Err("explorer log item is outside the router domain");
      }
      if !IsHexOf(topics[1], 64) {
        return Err("executed request ID is malformed");
      }
      var requestId := ToLower(topics[1]);
      if requestId in distinct {
        var j :| 0 <= j < |requestIds| && requestIds[j] == requestId;
        assert all[j] == all[i];
        return Err("explorer returned a duplicate executed request");
      }
      distinct := distinct + {requestId};
      requestIds := requestIds + [requestId];
    }
    assert all[..|logs|] == all;
    return Ok(requestIds);
  }

  // ---- ordering by occurrence -----------------------------------------------------------

  function Occurrence(e: HistoryEntry): nat { e.request.occurrence }

  function Insert(e: HistoryEntry, es: seq<HistoryEntry>): seq<HistoryEntry> {
    if es == [] || Occurrence(e) < Occurrence(es[0]) then [e] + es else [es[0]] + Insert(e, es[1..])
  }

  /** `Array.prototype.sort` by occurrence; it is stable. */
  function Sorted(es: seq<HistoryEntry>): seq<HistoryEntry> {
    if es == [] then [] else Insert(es[|es| - 1], Sorted(es[..|es| - 1]))
  }

  ghost predicate Ordered(es: seq<HistoryEntry>) {
    forall i, j :: 0 <= i < j < |es| ==> Occurrence(es[i]) <= Occurrence(es[j])
  }

  lemma {:induction false} InsertKeepsEntries(e: HistoryEntry, es: seq<HistoryEntry>)
    ensures multiset(Insert(e, es)) == multiset(es) + multiset{e} && |Insert(e, es)| == |es| + 1
    ensures forall x :: x in Insert(e, es) ==> x == e || x in es
  {
    if es != [] && Occurrence(e) >= Occurrence(es[0]) {
      InsertKeepsEntries(e, es[1..]);
      assert es == [es[0]] + es[1..];
    }
  }

  lemma {:induction false} InsertKeepsOrder(e: HistoryEntry, es: seq<HistoryEntry>)
    requires Ordered(es)
    ensures Ordered(Insert(e, es))
  {
    if es != [] && Occurrence(e) >= Occurrence(es[0]) {
      InsertKeepsOrder(e, es[1..]);
      InsertKeepsEntries(e, es[1..]);
      assert forall x :: x in es[1..] ==> Occurrence(es[0]) <= Occurrence(x);
    }
  }

  lemma {:induction false} SortSorts(es: seq<HistoryEntry>)
    ensures Ordered(Sorted(es)) && multiset(Sorted(es)) == multiset(es) && |Sorted(es)| == |es|
  {
    if es != [] {
      var n := |es| - 1;
      SortSorts(es[..n]);
      InsertKeepsEntries(es[n], Sorted(es[..n]));
      InsertKeepsOrder(es[n], Sorted(es[..n]));
      assert es == es[..n] + [es[n]];
    }
  }

  /** The entry at each place has the next occurrence, counting from one. */
  predicate Consecutive(es: seq<HistoryEntry>) {
    forall i :: 0 <= i < |es| ==> Occurrence(es[i]) == i + 1
  }

  /** Every occurrence from one to `n` is there. */
  ghost predicate Covers(es: seq<HistoryEntry>, n: nat) {
    forall k :: 1 <= k <= n ==> HasOccurrence(es, k)
  }

  ghost predicate HasOccurrence(es: seq<HistoryEntry>, k: int) {
    exists i :: 0 <= i < |es| && Occurrence(es[i]) == k
  }

  lemma {:induction false} CoverNeedsEntries(es: seq<HistoryEntry>, n: nat)
    requires Covers(es, n)
    ensures n <= |es|
  {
    if n > 0 {
      assert HasOccurrence(es, n);
      var j :| 0 <= j < |es| && Occurrence(es[j]) == n;
      var rest := es[..j] + es[j + 1..];
      forall k | 1 <= k <= n - 1 ensures HasOccurrence(rest, k) {
        assert HasOccurrence(es, k);
        var i :| 0 <= i < |es| && Occurrence(es[i]) == k;
        assert rest[if i < j then i else i - 1] == es[i];
      }
      CoverNeedsEntries(rest, n - 1);
    }
  }

  lemma {:induction false} OrderedCoverIsConsecutive(es: seq<HistoryEntry>)
    requires Ordered(es) && Covers(es, |es|)
    ensures Consecutive(es)
  {
    if es != [] {
      var n := |es| - 1;
      var front := es[..n];
      assert HasOccurrence(es, n + 1);
      var j :| 0 <= j < |es| && Occurrence(es[j]) == n + 1;
      assert Occurrence(es[n]) >= n + 1;
      forall k | 1 <= k <= n ensures HasOccurrence(front, k) {
        assert HasOccurrence(es, k);
        var i :| 0 <= i < |es| && Occurrence(es[i]) == k;
        assert front[i] == es[i];
      }
      if j < n {
        assert front[j] == es[j];
        CoverNeedsEntries(front, n + 1);
      }
      OrderedCoverIsConsecutive(front);
    }
  }

  /** Sorting makes the entries consecutive exactly when they cover the occurrences up to their
      number; no gap and no duplicate gets through. */
  lemma SortedIsConsecutive(es: seq<HistoryEntry>)
    ensures Consecutive(Sorted(es)) <==> Covers(es, |es|)
  {
    var s := Sorted(es);
    SortSorts(es);
    if Consecutive(s) {
      forall k | 1 <= k <= |es| ensures HasOccurrence(es, k) {
        assert Occurrence(s[k - 1]) == k;
        SameOccurrences(s, es, k);
      }
    }
    if Covers(es, |es|) {
      forall k | 1 <= k <= |es| ensures HasOccurrence(s, k) {
        SameOccurrences(es, s, k);
      }
      OrderedCoverIsConsecutive(s);
    }
  }

  lemma SameOccurrences(es: seq<HistoryEntry>, fs: seq<HistoryEntry>, k: int)
    requires multiset(es) == multiset(fs) && HasOccurrence(es, k)
    ensures HasOccurrence(fs, k)
  {
    var i :| 0 <= i < |es| && Occurrence(es[i]) == k;
    assert es[i] in multiset(fs);
    assert es[i] in fs;
  }

  /** There is only one consecutive arrangement of the same entries. */
  lemma ConsecutiveIsUnique(es: seq<HistoryEntry>, fs: seq<HistoryEntry>)
    requires Consecutive(es) && Consecutive(fs) && multiset(es) == multiset(fs)
    ensures es == fs
  {
    assert |multiset(es)| == |es| && |multiset(fs)| == |fs|;
    forall i | 0 <= i < |es| ensures es[i] == fs[i] {
      assert es[i] in multiset(fs);
      assert es[i] in fs;
    }
  }

  // ---- the live relay -------------------------------------------------------------------

  predicate IsExecutedOf(stored: StoredRequest, policy: Text) {
    stored.status == EXECUTED && ToLower(stored.request.policyCommitment) == ToLower(policy)
  }

  predicate HasNoLiveInput(stored: StoredRequest) { ToLower(stored.request.inputCommitment) == ToLower(ZERO_BYTES32) }

  function EntryOf(stored: StoredRequest): HistoryEntry {
    HistoryEntry(stored.request, stored.approvedIssuedAt, None, None)
  }

  /** The stored requests behind the ids; None is a read that fails. */
  predicate AllRead(ids: seq<Text>, read: Text -> Option<StoredRequest>) {
    forall id :: id in ids ==> read(id).Some?
  }

  /** The policy's executed requests among the ids, in the order of the ids. */
  function ExecutedOf(ids: seq<Text>, read: Text -> Option<StoredRequest>, policy: Text): seq<HistoryEntry> {
    if ids == [] then []
    else
      var n := |ids| - 1;
      ExecutedOf(ids[..n], read, policy)
        + (if read(ids[n]).Some? && IsExecutedOf(read(ids[n]).value, policy) then [EntryOf(read(ids[n]).value)] else [])
  }

  ghost predicate Supported(ids: seq<Text>, read: Text -> Option<StoredRequest>, policy: Text) {
    forall id :: id in ids && read(id).Some? && IsExecutedOf(read(id).value, policy) ==> HasNoLiveInput(read(id).value)
  }

  /** When the policy's history can be rebuilt: all requests are readable, none of the policy's
      used a live input, and its executed ones are exactly the router's count of occurrences. */
  ghost predicate Rebuildable(ids: seq<Text>, read: Text -> Option<StoredRequest>, policy: Text, expected: nat) {
    && AllRead(ids, read) && Supported(ids, read, policy)
    && |ExecutedOf(ids, read, policy)| == expected && Covers(ExecutedOf(ids, read, policy), expected)
  }

  // ---- the entries, field by field ------------------------------------------------------

  /** The router has the id as an executed request of the policy. */
  ghost predicate WasExecuted(read: Text -> Option<StoredRequest>, id: Text, policy: Text) {
    read(id).Some? && read(id).value.status == 4
    && ToLower(read(id).value.request.policyCommitment) == ToLower(policy)
  }

  /** The entry is the stored request, accounted when its approval was issued, without readings. */
  ghost predicate IsEntryOf(e: HistoryEntry, stored: StoredRequest) {
    e.request == stored.request && e.accountedAt == stored.approvedIssuedAt && e.ftso == None && e.fdc == None
  }

  ghost predicate IsOfSome(e: HistoryEntry, ids: seq<Text>, read: Text -> Option<StoredRequest>, policy: Text) {
    exists id :: id in ids && WasExecuted(read, id, policy) && IsEntryOf(e, read(id).value)
  }

  ghost predicate HasEntryOf(es: seq<HistoryEntry>, stored: StoredRequest) {
    exists e :: e in es && IsEntryOf(e, stored)
  }

  /** The entries are those of the executed requests among the ids, all of them and no others. */
  ghost predicate Records(
    es: seq<HistoryEntry>, ids: seq<Text>, read: Text -> Option<StoredRequest>, policy: Text)
  {
    && (forall e :: e in es ==> IsOfSome(e, ids, read, policy))
    && forall id :: id in ids && WasExecuted(read, id, policy) ==> HasEntryOf(es, read(id).value)
  }

  lemma OfMore(e: HistoryEntry, ids: seq<Text>, last: Text, read: Text -> Option<StoredRequest>, policy: Text)
    ensures IsOfSome(e, ids, read, policy) ==> IsOfSome(e, ids + [last], read, policy)
    ensures WasExecuted(read, last, policy) && IsEntryOf(e, read(last).value) ==>
      IsOfSome(e, ids + [last], read, policy)
  {
    hide ToLower, IsEntryOf;
    assert last in ids + [last];
    if id :| id in ids && WasExecuted(read, id, policy) && IsEntryOf(e, read(id).value) {
      assert id in ids + [last];
    }
  }

  lemma EntryAmongMore(es: seq<HistoryEntry>, more: seq<HistoryEntry>, stored: StoredRequest)
    ensures HasEntryOf(es, stored) || HasEntryOf(more, stored) ==> HasEntryOf(es + more, stored)
  {
    hide IsEntryOf;
    if e :| e in es && IsEntryOf(e, stored) { assert e in es + more; }
    if e :| e in more && IsEntryOf(e, stored) { assert e in es + more; }
  }

  lemma RecordsMore(
    es: seq<HistoryEntry>, ids: seq<Text>, read: Text -> Option<StoredRequest>, policy: Text, last: Text,
    more: seq<HistoryEntry>)
    requires Records(es, ids, read, policy)
    requires if WasExecuted(read, last, policy) then |more| == 1 && IsEntryOf(more[0], read(last).value) else more == []
    ensures Records(es + more, ids + [last], read, policy)
  {
    hide ToLower, IsEntryOf, IsOfSome, HasEntryOf;
    forall e | e in es + more ensures IsOfSome(e, ids + [last], read, policy) {
      OfMore(e, ids, last, read, policy);
    }
    forall id | id in ids + [last] && WasExecuted(read, id, policy) ensures HasEntryOf(es + more, read(id).value) {
      if id == last { OneEntry(more, read(last).value); }
      EntryAmongMore(es, more, read(id).value);
    }
  }

  lemma OneEntry(es: seq<HistoryEntry>, stored: StoredRequest)
    requires |es| == 1 && IsEntryOf(es[0], stored)
    ensures HasEntryOf(es, stored)
  {
    assert es[0] in es;
  }

  lemma {:induction false} ExecutedAreRecorded(ids: seq<Text>, read: Text -> Option<StoredRequest>, policy: Text)
    ensures Records(ExecutedOf(ids, read, policy), ids, read, policy)
  {
    hide Records, ToLower;
    if ids == [] {
      NothingToRecord(read, policy);
    } else {
      var n := |ids| - 1;
      ExecutedAreRecorded(ids[..n], read, policy);
      assert ids == ids[..n] + [ids[n]];
      var more := ExecutedOf(ids, read, policy)[|ExecutedOf(ids[..n], read, policy)|..];
      RecordsMore(ExecutedOf(ids[..n], read, policy), ids[..n], read, policy, ids[n], more);
    }
  }

  lemma NothingToRecord(read: Text -> Option<StoredRequest>, policy: Text)
    ensures Records([], [], read, policy)
  {
  }

  lemma RecordsArrange(
    es: seq<HistoryEntry>, fs: seq<HistoryEntry>, ids: seq<Text>, read: Text -> Option<StoredRequest>, policy: Text)
    requires Records(es, ids, read, policy) && multiset(es) == multiset(fs)
    ensures Records(fs, ids, read, policy)
  {
    hide ToLower, IsEntryOf, IsOfSome, HasEntryOf;
    forall e ensures e in es <==> e in fs {
      assert e in es <==> e in multiset(es);
      assert e in fs <==> e in multiset(fs);
    }
    forall id | id in ids && WasExecuted(read, id, policy) ensures HasEntryOf(fs, read(id).value) {
      SameEntries(es, fs, read(id).value);
    }
  }

  lemma SameEntries(es: seq<HistoryEntry>, fs: seq<HistoryEntry>, stored: StoredRequest)
    requires forall e :: e in es <==> e in fs
    ensures HasEntryOf(es, stored) <==> HasEntryOf(fs, stored)
  {
    hide IsEntryOf;
  }

  ghost function ExecutedIn(ids: seq<Text>, read: Text -> Option<StoredRequest>, policy: Text): set<Text> {
    set id | id in ids && WasExecuted(read, id, policy)
  }

  lemma ExecutedInMore(ids: seq<Text>, read: Text -> Option<StoredRequest>, policy: Text)
    requires ids != [] && NoDuplicates(ids)
    ensures var n := |ids| - 1; var front := ExecutedIn(ids[..n], read, policy);
      |ExecutedIn(ids, read, policy)| == |front| + (if WasExecuted(read, ids[n], policy) then 1 else 0)
  {
    hide WasExecuted;
    var n := |ids| - 1;
    assert ids[n] !in ids[..n] && ids == ids[..n] + [ids[n]];
    assert ExecutedIn(ids, read, policy)
        == ExecutedIn(ids[..n], read, policy) + (if WasExecuted(read, ids[n], policy) then {ids[n]} else {});
  }

  lemma ExecutedOfMore(ids: seq<Text>, read: Text -> Option<StoredRequest>, policy: Text)
    requires ids != []
    ensures var n := |ids| - 1;
      |ExecutedOf(ids, read, policy)|
      == |ExecutedOf(ids[..n], read, policy)| + (if WasExecuted(read, ids[n], policy) then 1 else 0)
  {
    hide ToLower;
  }

  lemma {:induction false} ExecutedAreCounted(ids: seq<Text>, read: Text -> Option<StoredRequest>, policy: Text)
    requires NoDuplicates(ids)
    ensures |ExecutedOf(ids, read, policy)| == |ExecutedIn(ids, read, policy)|
  {
    hide WasExecuted;
    if ids != [] {
      ExecutedAreCounted(ids[..|ids| - 1], read, policy);
      ExecutedInMore(ids, read, policy);
      ExecutedOfMore(ids, read, policy);
      hide ExecutedOf, ExecutedIn;
    }
  }

  /** When the live relay can rebuild the history from distinct ids, in terms of what the router
      stores: every request can be read, none of the policy's executed ones used a live input, there
      are as many of these as the router counts, and every occurrence up to that number is one's. */
  lemma RebuildsExactly(ids: seq<Text>, read: Text -> Option<StoredRequest>, policy: Text, expected: nat)
    requires NoDuplicates(ids)
    ensures Rebuildable(ids, read, policy, expected) <==>
      && (forall id :: id in ids ==> read(id).Some?)
      && (forall id :: id in ids && WasExecuted(read, id, policy) ==>
            ToLower(read(id).value.request.inputCommitment) == ToLower(ZERO_BYTES32))
      && |ExecutedIn(ids, read, policy)| == expected
      && forall k :: 1 <= k <= expected ==> OccursAt(ids, read, policy, k)
  {
    hide ToLower, ZERO_BYTES32, ExecutedIn;
    ExecutedAreRecorded(ids, read, policy);
    ExecutedAreCounted(ids, read, policy);
    var es := ExecutedOf(ids, read, policy);
    hide ExecutedOf, Records;
    forall k {
      OccurrencesAreRecorded(es, ids, read, policy, k);
    }
    hide HasOccurrence, OccursAt;
  }

  lemma OccurrencesAreRecorded(
    es: seq<HistoryEntry>, ids: seq<Text>, read: Text -> Option<StoredRequest>, policy: Text, k: int)
    requires Records(es, ids, read, policy)
    ensures HasOccurrence(es, k) <==> OccursAt(ids, read, policy, k)
  {
    hide ToLower;
    if i :| 0 <= i < |es| && Occurrence(es[i]) == k {
      assert es[i] in es;
    }
    if OccursAt(ids, read, policy, k) {
      var id :| id in ids && WasExecuted(read, id, policy) && read(id).value.request.occurrence == k;
      var e :| e in es && IsEntryOf(e, read(id).value);
      var i :| 0 <= i < |es| && es[i] == e;
    }
  }

  ghost predicate OccursAt(ids: seq<Text>, read: Text -> Option<StoredRequest>, policy: Text, k: int) {
    exists id :: id in ids && WasExecuted(read, id, policy) && read(id).value.request.occurrence == k
  }

  method ReconstructHistory(ids: Result<seq<Text>>, read: Text -> Option<StoredRequest>, policy: Text, expected: nat)
    returns (r: Result<seq<HistoryEntry>>)
    ensures r.Ok? <==> expected == 0 || (ids.Ok? && Rebuildable(ids.value, read, policy, expected))
    ensures r.Ok? && expected == 0 ==> r.value == []
    ensures r.Ok? ==> Consecutive(r.value) && |r.value| == expected
    ensures r.Ok? && expected > 0 ==>
      && multiset(r.value) == multiset(ExecutedOf(ids.value, read, policy)) && Records(r.value, ids.value, read, policy)
      && forall e :: e in r.value ==> ToLower(e.request.inputCommitment) == ToLower(ZERO_BYTES32)
  {
    hide IsExecutedOf, HasNoLiveInput, Sorted, Consecutive, Covers, Records, ToLower, ZERO_BYTES32;
    if expected == 0 {
      assert Consecutive([]) by { NothingIsConsecutive(); }
      return Ok([]);
    }
    if ids.Err? {
      return Err(ids.reason);
    }
    var history: seq<HistoryEntry> := [];
    for i := 0 to |ids.value|
      invariant history == ExecutedOf(ids.value[..i], read, policy)
      invariant AllRead(ids.value[..i], read) && Supported(ids.value[..i], read, policy)
    {
      var id := ids.value[i];
      assert ids.value[..i + 1] == ids.value[..i] + [id];
      assert ids.value[..i + 1][..i] == ids.value[..i];
      var stored := read(id);
      if stored.None? {
        assert !AllRead(ids.value, read);
        return Err("request unavailable");
      }
      if IsExecutedOf(stored.value, policy) {
        if !HasNoLiveInput(stored.value) {
          assert !Supported(ids.value, read, policy);
          return Err("FTSO/FDC live history is not supported by this relay release");
        }
        history := history + [EntryOf(stored.value)];
      }
    }
    assert ids.value[..|ids.value|] == ids.value;
    SortedIsConsecutive(history);
    SortSorts(history);
    var sorted := Sorted(history);
    if |sorted| != expected || !Consecutive(sorted) {
      return Err("public spend history is incomplete");
    }
    ExecutedAreRecorded(ids.value, read, policy);
    RecordsArrange(history, sorted, ids.value, read, policy);
    SupportedEntries(sorted, ids.value, read, policy);
    return Ok(sorted);
  }

  lemma SupportedEntries(
    es: seq<HistoryEntry>, ids: seq<Text>, read: Text -> Option<StoredRequest>, policy: Text)
    requires Records(es, ids, read, policy) && Supported(ids, read, policy)
    ensures forall e :: e in es ==> ToLower(e.request.inputCommitment) == ToLower(ZERO_BYTES32)
  {
    hide ToLower, ZERO_BYTES32;
  }

  lemma NothingIsConsecutive()
    ensures Consecutive([])
  {
  }

  lemma {:induction false} ExecutedSplits(a: seq<Text>, b: seq<Text>, read: Text -> Option<StoredRequest>, policy: Text)
    ensures ExecutedOf(a + b, read, policy) == ExecutedOf(a, read, policy) + ExecutedOf(b, read, policy)
  {
    if b == [] {
      assert a + b == a;
    } else {
      var n := |b| - 1;
      assert (a + b)[..|a + b| - 1] == a + b[..n];
      ExecutedSplits(a, b[..n], read, policy);
    }
  }

  lemma ExecutedAround(a: seq<Text>, x: Text, b: seq<Text>, read: Text -> Option<StoredRequest>, policy: Text)
    ensures multiset(ExecutedOf(a + [x] + b, read, policy))
         == multiset(ExecutedOf(a + b, read, policy)) + multiset(ExecutedOf([x], read, policy))
  {
    hide ExecutedOf;
    ExecutedSplits(a, b, read, policy);
    ExecutedSplits(a + [x], b, read, policy);
    ExecutedSplits(a, [x], read, policy);
  }

  lemma {:induction false} SameExecuted(
    ids: seq<Text>, other: seq<Text>, read: Text -> Option<StoredRequest>, policy: Text)
    requires multiset(ids) == multiset(other)
    ensures multiset(ExecutedOf(ids, read, policy)) == multiset(ExecutedOf(other, read, policy))
    decreases |ids|
  {
    hide ExecutedOf;
    if ids == [] {
      assert |multiset(other)| == |other| == 0;
    } else {
      var n := |ids| - 1;
      var a, b := TakeOut(ids, other);
      SameExecuted(ids[..n], a + b, read, policy);
      assert ids == ids[..n] + [ids[n]] + [];
      assert ids[..n] + [] == ids[..n];
      ExecutedAround(ids[..n], ids[n], [], read, policy);
      ExecutedAround(a, ids[n], b, read, policy);
    }
  }

  lemma RebuildableIgnoresOrder(
    ids: seq<Text>, other: seq<Text>, read: Text -> Option<StoredRequest>, policy: Text, expected: nat)
    requires multiset(ids) == multiset(other) && Rebuildable(ids, read, policy, expected)
    ensures Rebuildable(other, read, policy, expected)
  {
    hide IsExecutedOf, HasNoLiveInput;
    SameExecuted(ids, other, read, policy);
    var es, fs := ExecutedOf(ids, read, policy), ExecutedOf(other, read, policy);
    assert |multiset(es)| == |es| && |multiset(fs)| == |fs|;
    forall id | id in other ensures id in ids {
      assert id in multiset(ids);
    }
    forall k | 1 <= k <= expected ensures HasOccurrence(fs, k) {
      assert HasOccurrence(es, k);
      SameOccurrences(es, fs, k);
    }
  }

  /** The explorer's order is irrelevant: with the same requests in any order the rebuilding succeeds
      or fails alike, gaps and duplicates included, and any two successes give the same history. */
  lemma LogOrderIsIrrelevant(
    ids: seq<Text>, other: seq<Text>, read: Text -> Option<StoredRequest>, policy: Text, expected: nat)
    requires multiset(ids) == multiset(other)
    ensures Rebuildable(ids, read, policy, expected) <==> Rebuildable(other, read, policy, expected)
    ensures forall h, k :: Arranges(h, ids, read, policy) && Arranges(k, other, read, policy) ==> h == k
  {
    hide Rebuildable, Consecutive, ExecutedOf;
    SameExecuted(ids, other, read, policy);
    forall h, k | Arranges(h, ids, read, policy) && Arranges(k, other, read, policy) ensures h == k {
      ConsecutiveIsUnique(h, k);
    }
    if Rebuildable(ids, read, policy, expected) {
      RebuildableIgnoresOrder(ids, other, read, policy, expected);
    }
    if Rebuildable(other, read, policy, expected) {
      RebuildableIgnoresOrder(other, ids, read, policy, expected);
    }
  }

  /** The history is the policy's executed requests among the ids, consecutively. */
  ghost predicate Arranges(
    h: seq<HistoryEntry>, ids: seq<Text>, read: Text -> Option<StoredRequest>, policy: Text)
  {
    Consecutive(h) && multiset(h) == multiset(ExecutedOf(ids, read, policy))
  }

  // ---- the demo state reader ------------------------------------------------------------

  datatype SpendRead = SpendRead(checkpoint: Text, occurrence: nat, accountedAt: nat, initialized: bool)

  datatype Spend = Spend(spendCheckpoint: Text, occurrenceCount: nat, lastAccountingAt: nat)

  function NormalizeSpendState(read: SpendRead, request: ActionRequest): Spend {
    if !read.initialized then Spend(request.spendCheckpoint, 0, 0)
    else Spend(read.checkpoint, read.occurrence, read.accountedAt)
  }

  /** The logged request ids other than the request itself; None is a log without one. */
  function HistoricalIds(logs: seq<Option<Text>>, requestId: Text): seq<Text> {
    if logs == [] then []
    else
      var n := |logs| - 1;
      var keep := logs[n].Some? && logs[n].value != [] && ToLower(logs[n].value) != ToLower(requestId);
      HistoricalIds(logs[..n], requestId) + (if keep then [logs[n].value] else [])
  }

  function ExecutedAmong(ids: seq<Text>, read: Text -> Option<StoredRequest>): seq<HistoryEntry> {
    if ids == [] then []
    else
      var n := |ids| - 1;
      ExecutedAmong(ids[..n], read)
        + (if read(ids[n]).Some? && read(ids[n]).value.status == EXECUTED then [EntryOf(read(ids[n]).value)] else [])
  }

  function LastAccounted(history: seq<HistoryEntry>): int {
    if history == [] then 0 else history[|history| - 1].accountedAt
  }

  /** The history part of the demo reader's `load`. */
  function LoadHistory(
    logs: seq<Option<Text>>, requestId: Text, read: Text -> Option<StoredRequest>,
    spend: Spend): Result<seq<HistoryEntry>>
  {
    var ids := HistoricalIds(logs, requestId);
    var executed := Sorted(ExecutedAmong(ids, read));
    if |logs| > 128 then Err("demo policy history exceeds the bounded reader")
    else if !AllRead(ids, read) then Err("request unavailable")
    else if |executed| != spend.occurrenceCount || !Consecutive(executed)
         || LastAccounted(executed) != spend.lastAccountingAt then
      Err("canonical demo spend history is incomplete or inconsistent")
    else Ok(executed)
  }

  /** The entry with the highest occurrence was accounted when the router says. */
  ghost predicate LastIsAccounted(es: seq<HistoryEntry>, at: int) {
    if es == [] then at == 0 else exists e :: e in es && Occurrence(e) == |es| && e.accountedAt == at
  }

  lemma LastOfConsecutive(es: seq<HistoryEntry>, s: seq<HistoryEntry>, at: int)
    requires Consecutive(s) && multiset(s) == multiset(es)
    ensures LastIsAccounted(es, at) <==> LastAccounted(s) == at
  {
    assert |multiset(s)| == |s| && |multiset(es)| == |es|;
    if s != [] {
      var last := s[|s| - 1];
      assert last in multiset(es);
      assert last in es;
      forall e | e in es && Occurrence(e) == |es| ensures e == last {
        assert e in multiset(s);
        assert e in s;
      }
    }
  }

  /** The reader succeeds exactly when the executed requests cover the router's count and the
      one with the highest occurrence was accounted when the router says; the result is then
      their one consecutive arrangement. */
  lemma LoadedHistoryIsExact(
    logs: seq<Option<Text>>, requestId: Text, read: Text -> Option<StoredRequest>, spend: Spend)
    ensures var ids := HistoricalIds(logs, requestId); var es := ExecutedAmong(ids, read);
      var r := LoadHistory(logs, requestId, read, spend); var n := spend.occurrenceCount;
      && (r.Ok? <==>
            && |logs| <= 128 && AllRead(ids, read)
            && |es| == n && Covers(es, n) && LastIsAccounted(es, spend.lastAccountingAt))
      && (r.Ok? ==> Consecutive(r.value) && multiset(r.value) == multiset(es))
  {
    hide Consecutive, Covers, LastIsAccounted, LastAccounted, Sorted, ExecutedAmong, HistoricalIds, AllRead;
    var es := ExecutedAmong(HistoricalIds(logs, requestId), read);
    SortedIsConsecutive(es);
    SortSorts(es);
    if Consecutive(Sorted(es)) {
      LastOfConsecutive(es, Sorted(es), spend.lastAccountingAt);
    }
  }

  lemma RepeatedEntryIsNoCover(es: seq<HistoryEntry>, i: nat, j: nat)
    requires i < j < |es| && Occurrence(es[i]) == Occurrence(es[j])
    ensures !Covers(es, |es|)
  {
    if Covers(es, |es|) {
      var rest := es[..j] + es[j + 1..];
      forall k | 1 <= k <= |es| ensures HasOccurrence(rest, k) {
        assert HasOccurrence(es, k);
        var m :| 0 <= m < |es| && Occurrence(es[m]) == k;
        var at := if m == j then i else m;
        assert rest[if at < j then at else at - 1] == es[at];
      }
      CoverNeedsEntries(rest, |es|);
    }
  }

  /** Two executed requests of one occurrence, in particular one that is logged twice, make the
      reader fail. */
  lemma DuplicateFails(
    logs: seq<Option<Text>>, requestId: Text, read: Text -> Option<StoredRequest>, spend: Spend, i: nat, j: nat)
    requires var es := ExecutedAmong(HistoricalIds(logs, requestId), read);
      i < j < |es| && Occurrence(es[i]) == Occurrence(es[j])
    ensures LoadHistory(logs, requestId, read, spend).Err?
  {
    hide Covers, ExecutedAmong, HistoricalIds, AllRead, LoadHistory;
    LoadedHistoryIsExact(logs, requestId, read, spend);
    RepeatedEntryIsNoCover(ExecutedAmong(HistoricalIds(logs, requestId), read), i, j);
  }

  /** Where the router has no spend state for the policy, whatever else it returned, the reader
      succeeds exactly when nothing was executed. */
  lemma UnspentHasNoHistory(
    logs: seq<Option<Text>>, requestId: Text, read: Text -> Option<StoredRequest>, spend: SpendRead,
    request: ActionRequest)
    requires !spend.initialized
    ensures var ids := HistoricalIds(logs, requestId);
      LoadHistory(logs, requestId, read, NormalizeSpendState(spend, request)).Ok? <==>
        |logs| <= 128 && AllRead(ids, read) && ExecutedAmong(ids, read) == []
  {
    hide ExecutedAmong, HistoricalIds, AllRead, LoadHistory;
    LoadedHistoryIsExact(logs, requestId, read, NormalizeSpendState(spend, request));
  }

  // ---- the demo reader's entries, field by field ----------------------------------------

  /** The logs name the id, and it is not the request's own. */
  ghost predicate IsOtherLogged(logs: seq<Option<Text>>, requestId: Text, id: Text) {
    Some(id) in logs && id != [] && ToLower(id) != ToLower(requestId)
  }

  lemma {:induction false} HistoricalAreLogged(logs: seq<Option<Text>>, requestId: Text)
    ensures forall id :: id in HistoricalIds(logs, requestId) <==> IsOtherLogged(logs, requestId, id)
  {
    hide ToLower;
    if logs != [] {
      var n := |logs| - 1;
      HistoricalAreLogged(logs[..n], requestId);
      assert logs == logs[..n] + [logs[n]];
    }
  }

  /** The entry is of an executed request among the ids. */
  ghost predicate IsExecutedEntry(e: HistoryEntry, ids: seq<Text>, read: Text -> Option<StoredRequest>) {
    exists id :: id in ids && read(id).Some? && read(id).value.status == 4 && IsEntryOf(e, read(id).value)
  }

  lemma {:induction false} AmongAreExecuted(ids: seq<Text>, read: Text -> Option<StoredRequest>)
    ensures forall e :: e in ExecutedAmong(ids, read) <==> IsExecutedEntry(e, ids, read)
  {
    if ids != [] {
      var n := |ids| - 1;
      AmongAreExecuted(ids[..n], read);
      assert ids == ids[..n] + [ids[n]];
      forall e ensures e in ExecutedAmong(ids, read) <==> IsExecutedEntry(e, ids, read) {
        assert IsExecutedEntry(e, ids, read) <==>
          || IsExecutedEntry(e, ids[..n], read)
          || (read(ids[n]).Some? && read(ids[n]).value.status == 4 && IsEntryOf(e, read(ids[n]).value));
      }
    }
  }

  /** What the demo reader returns are exactly the requests the logs name, other than the request
      itself, that the router has as executed, each accounted when its approval was issued; there are
      as many as the router counts, and the last one was accounted when the router says. */
  lemma LoadedEntriesAreStored(
    logs: seq<Option<Text>>, requestId: Text, read: Text -> Option<StoredRequest>, spend: SpendRead,
    request: ActionRequest)
    requires LoadHistory(logs, requestId, read, NormalizeSpendState(spend, request)).Ok?
    ensures var h := LoadHistory(logs, requestId, read, NormalizeSpendState(spend, request)).value;
      && (forall id :: IsOtherLogged(logs, requestId, id) ==> read(id).Some?)
      && (forall e :: e in h <==> IsExecutedEntry(e, HistoricalIds(logs, requestId), read))
      && (forall id :: id in HistoricalIds(logs, requestId) <==> IsOtherLogged(logs, requestId, id))
      && |h| == (if spend.initialized then spend.occurrence else 0)
      && (h == [] ==> !spend.initialized || spend.accountedAt == 0)
      && (h != [] ==> h[|h| - 1].request.occurrence == |h| && h[|h| - 1].accountedAt == spend.accountedAt)
  {
    hide ToLower, Sorted, ExecutedAmong, HistoricalIds;
    var ids := HistoricalIds(logs, requestId);
    HistoricalAreLogged(logs, requestId);
    AmongAreExecuted(ids, read);
    var es, h := ExecutedAmong(ids, read), Sorted(ExecutedAmong(ids, read));
    SortSorts(es);
    forall e ensures e in h <==> e in es {
      assert e in h <==> e in multiset(h);
      assert e in es <==> e in multiset(es);
    }
  }
}
