/** Reading a long block range of logs by short queries, eight at a time. */
module LogBatches {
  import opened Outcomes

  datatype Log<+T> = Log(block: nat, data: T)

  datatype Range = Range(first: nat, last: nat)

  const LOG_BLOCK_SPAN: nat := 30
  const LOG_BATCH_SIZE: nat := 8

  /** The logs of the range, in the chain's order: what one query returns. */
  function Query<T>(chain: seq<Log<T>>, r: Range): seq<Log<T>> {
    if chain == [] then []
    else (if r.first <= chain[0].block <= r.last then [chain[0]] else []) + Query(chain[1..], r)
  }

  ghost predicate Ordered<T>(chain: seq<Log<T>>) {
    forall i, j :: 0 <= i < j < |chain| ==> chain[i].block <= chain[j].block
  }

  /** The node answers a query with what the chain holds, or fails. */
  ghost predicate Honest<T(!new)>(node: Range -> Result<seq<Log<T>>>, chain: seq<Log<T>>) {
    forall r :: node(r).Ok? ==> node(r).value == Query(chain, r)
  }

  /** The ranges follow one another without gap or overlap from `first` to `last`, each of at
      most thirty blocks. */
  ghost predicate Tiles(ranges: seq<Range>, first: nat, next: nat) {
    && (ranges == [] ==> first == next)
    && (ranges != [] ==> ranges[0].first == first && ranges[|ranges| - 1].last + 1 == next)
    && (forall i :: 0 <= i < |ranges| ==> ranges[i].first <= ranges[i].last < ranges[i].first + 30)
    && (forall i :: 0 < i < |ranges| ==> ranges[i].first == ranges[i - 1].last + 1)
  }

  predicate Covers(r: Range, block: nat) { r.first <= block <= r.last }

  lemma {:induction false} TilesStart(ranges: seq<Range>, first: nat, next: nat, i: nat)
    requires Tiles(ranges, first, next) && i < |ranges|
    ensures first <= ranges[i].first && ranges[i].last < next
    ensures Tiles(ranges[..i], first, ranges[i].first)
    decreases |ranges| - i
  {
    StartsGrow(ranges, first, next, i);
    if i < |ranges| - 1 { TilesStart(ranges, first, next, i + 1); }
  }

  lemma {:induction false} StartsGrow(ranges: seq<Range>, first: nat, next: nat, i: nat)
    requires Tiles(ranges, first, next) && i < |ranges|
    ensures first <= ranges[i].first
  {
    if i > 0 { StartsGrow(ranges, first, next, i - 1); }
  }

  /** Every block of the interval is covered by exactly one range. */
  lemma {:induction false} CoveredOnce(ranges: seq<Range>, first: nat, next: nat, block: nat)
    requires Tiles(ranges, first, next)
    ensures first <= block < next <==> exists i :: 0 <= i < |ranges| && Covers(ranges[i], block)
    ensures forall i, j :: 0 <= i < j < |ranges| ==> !(Covers(ranges[i], block) && Covers(ranges[j], block))
  {
    if ranges != [] {
      var n := |ranges| - 1;
      TilesStart(ranges, first, next, n);
      var front := ranges[..n];
      CoveredOnce(front, first, ranges[n].first, block);
      assert forall i :: 0 <= i < n ==> front[i] == ranges[i];
      if first <= block < ranges[n].first {
        var i :| 0 <= i < |front| && Covers(front[i], block);
        assert Covers(ranges[i], block);
      } else if first <= block < next {
        assert Covers(ranges[n], block);
      }
      forall i | 0 <= i < |ranges| && Covers(ranges[i], block) ensures first <= block < next {
        TilesStart(ranges, first, next, i);
      }
      forall i | 0 <= i < n ensures !(Covers(ranges[i], block) && Covers(ranges[n], block)) {
        TilesStart(ranges[..n], first, ranges[n].first, i);
      }
    }
  }

  lemma {:induction false} QueryOutside<T>(chain: seq<Log<T>>, r: Range)
    requires forall i :: 0 <= i < |chain| ==> !Covers(r, chain[i].block)
    ensures Query(chain, r) == []
  {
    if chain != [] { QueryOutside(chain[1..], r); }
  }

  /** A query returns each log of its blocks as often as the chain has it. */
  lemma {:induction false} QueryIsExact<T>(chain: seq<Log<T>>, r: Range)
    ensures forall l :: multiset(Query(chain, r))[l] == if r.first <= l.block <= r.last then multiset(chain)[l] else 0
  {
    if chain != [] {
      assert chain == [chain[0]] + chain[1..];
      QueryIsExact(chain[1..], r);
    }
  }

  /** And in the chain's order. */
  lemma {:induction false} QueryKeepsOrder<T>(chain: seq<Log<T>>, r: Range)
    requires Ordered(chain)
    ensures Ordered(Query(chain, r))
  {
    if chain != [] {
      QueryKeepsOrder(chain[1..], r);
      QueryFinds(chain[1..], r);
      var rest := Query(chain[1..], r);
      forall i | 0 <= i < |rest| ensures chain[0].block <= rest[i].block {
        assert rest[i] in rest;
        var k :| 0 <= k < |chain| - 1 && chain[1..][k] == rest[i];
        assert chain[k + 1] == rest[i];
      }
    }
  }

  lemma {:induction false} QueryFinds<T>(chain: seq<Log<T>>, r: Range)
    ensures forall l :: l in Query(chain, r) ==> exists i :: 0 <= i < |chain| && chain[i] == l
  {
    if chain != [] {
      QueryFinds(chain[1..], r);
      assert forall i :: 0 <= i < |chain| - 1 ==> chain[1..][i] == chain[i + 1];
    }
  }

  /** Two adjoining queries return what one does. */
  lemma {:induction false} QueriesJoin<T>(chain: seq<Log<T>>, first: nat, mid: nat, last: nat)
    requires Ordered(chain) && first < mid <= last
    ensures Query(chain, Range(first, mid - 1)) + Query(chain, Range(mid, last)) == Query(chain, Range(first, last))
  {
    if chain != [] {
      var rest, low, high := chain[1..], Range(first, mid - 1), Range(mid, last);
      QueriesJoin(rest, first, mid, last);
      if chain[0].block >= mid {
        assert forall i :: 0 <= i < |rest| ==> rest[i].block >= mid;
        QueryOutside(rest, low);
        assert Query(chain, low) == [];
      } else {
        assert Query(chain, high) == Query(rest, high);
      }
    }
  }

  function Answers<T>(node: Range -> Result<seq<Log<T>>>, ranges: seq<Range>): seq<Log<T>>
    requires forall r :: r in ranges ==> node(r).Ok?
  {
    if ranges == [] then [] else Answers(node, ranges[..|ranges| - 1]) + node(ranges[|ranges| - 1]).value
  }

  lemma {:induction false} AnswersAreOneQuery<T(!new)>(
    node: Range -> Result<seq<Log<T>>>, chain: seq<Log<T>>, ranges: seq<Range>, first: nat, next: nat)
    requires Honest(node, chain) && Ordered(chain) && Tiles(ranges, first, next) && first < next
    requires forall r :: r in ranges ==> node(r).Ok?
    ensures Answers(node, ranges) == Query(chain, Range(first, next - 1))
  {
    hide Tiles, Query, Honest, Ordered;
    LastTile(ranges, first, next);
    var n := |ranges| - 1;
    TilesStart(ranges, first, next, n);
    HonestAt(node, chain, ranges[n]);
    if n == 0 {
      assert ranges[..0] == [];
    } else {
      AnswersAreOneQuery(node, chain, ranges[..n], first, ranges[n].first);
      QueriesJoin(chain, first, ranges[n].first, next - 1);
    }
  }

  lemma HonestAt<T(!new)>(node: Range -> Result<seq<Log<T>>>, chain: seq<Log<T>>, r: Range)
    requires Honest(node, chain) && node(r).Ok?
    ensures node(r).value == Query(chain, r)
  {
  }

  lemma LastTile(ranges: seq<Range>, first: nat, next: nat)
    requires Tiles(ranges, first, next) && first < next
    ensures ranges != [] && ranges[|ranges| - 1] == Range(ranges[|ranges| - 1].first, next - 1)
    ensures ranges[|ranges| - 1].first < next
    ensures |ranges| == 1 ==> ranges[0].first == first
    ensures |ranges| > 1 ==> first < ranges[|ranges| - 1].first
  {
    if |ranges| > 1 { TilesStart(ranges, first, next, |ranges| - 2); }
  }

  lemma {:induction false} AnswersSplit<T>(node: Range -> Result<seq<Log<T>>>, a: seq<Range>, b: seq<Range>)
    requires forall r :: r in a + b ==> node(r).Ok?
    ensures (forall r :: r in a ==> node(r).Ok?) && (forall r :: r in b ==> node(r).Ok?)
    ensures Answers(node, a + b) == Answers(node, a) + Answers(node, b)
  {
    assert forall r :: r in a || r in b ==> r in a + b;
    if b == [] {
      assert a + b == a;
    } else {
      var n := |b| - 1;
      assert (a + b)[..|a + b| - 1] == a + b[..n];
      AnswersSplit(node, a, b[..n]);
    }
  }

  method BlockRanges(fromBlock: nat, toBlock: nat) returns (ranges: seq<Range>)
    ensures Tiles(ranges, fromBlock, if fromBlock <= toBlock then toBlock + 1 else fromBlock)
    ensures fromBlock <= toBlock ==> 30 * (|ranges| - 1) <= toBlock - fromBlock < 30 * |ranges|
    ensures toBlock - fromBlock <= 2048 ==> |ranges| <= 69
  {
    ranges := [];
    var start := fromBlock;
    while start <= toBlock
      invariant fromBlock <= start && (fromBlock <= toBlock ==> start <= toBlock + LOG_BLOCK_SPAN)
      invariant Tiles(ranges, fromBlock, if start <= toBlock || fromBlock > toBlock then start else toBlock + 1)
      invariant start == fromBlock + LOG_BLOCK_SPAN * |ranges|
      invariant fromBlock > toBlock ==> ranges == []
    {
      var end := if start + LOG_BLOCK_SPAN - 1 > toBlock then toBlock else start + LOG_BLOCK_SPAN - 1;
      ranges := ranges + [Range(start, end)];
      start := start + LOG_BLOCK_SPAN;
    }
  }

  /** All queries of the batch, or the failure of one of them. */
  method QueryBatch<T>(node: Range -> Result<seq<Log<T>>>, batch: seq<Range>) returns (r: Result<seq<Log<T>>>)
    ensures r.Ok? <==> forall range :: range in batch ==> node(range).Ok?
    ensures r.Ok? ==> r.value == Answers(node, batch)
  {
    var logs: seq<Log<T>> := [];
    for i := 0 to |batch|
      invariant forall range :: range in batch[..i] ==> node(range).Ok?
      invariant logs == Answers(node, batch[..i])
    {
      if node(batch[i]).Err? {
        assert batch[i] in batch;
        return Err(node(batch[i]).reason);
      }
      assert batch[..i + 1] == batch[..i] + [batch[i]];
      assert batch[..i + 1][..i] == batch[..i];
      logs := logs + node(batch[i]).value;
    }
    assert batch[..|batch|] == batch;
    return Ok(logs);
  }

  /** Each log of the blocks, as often as the chain has it, and in order. */
  ghost predicate AreTheLogs<T(!new)>(logs: seq<Log<T>>, chain: seq<Log<T>>, fromBlock: nat, toBlock: nat) {
    && Ordered(logs)
    && forall l :: multiset(logs)[l] == if fromBlock <= l.block <= toBlock then multiset(chain)[l] else 0
  }

  lemma QueriedAreTheLogs<T(!new)>(chain: seq<Log<T>>, fromBlock: nat, toBlock: nat)
    requires Ordered(chain)
    ensures AreTheLogs(Query(chain, Range(fromBlock, toBlock)), chain, fromBlock, toBlock)
  {
    QueryIsExact(chain, Range(fromBlock, toBlock));
    QueryKeepsOrder(chain, Range(fromBlock, toBlock));
    hide Query;
  }

  /** The batched reading succeeds exactly when every query does, and then returns what a single
      query over the whole range returns. */
  method GetLogsInBatches<T(!new)>(
    node: Range -> Result<seq<Log<T>>>, ghost chain: seq<Log<T>>, fromBlock: nat, toBlock: nat)
    returns (r: Result<seq<Log<T>>>, ranges: seq<Range>)
    requires Honest(node, chain) && Ordered(chain)
    ensures Tiles(ranges, fromBlock, if fromBlock <= toBlock then toBlock + 1 else fromBlock)
    ensures toBlock - fromBlock <= 2048 ==> |ranges| <= 69
    ensures r.Ok? <==> forall range :: range in ranges ==> node(range).Ok?
    ensures r.Ok? ==> r.value == Query(chain, Range(fromBlock, toBlock))
    ensures r.Ok? ==> AreTheLogs(r.value, chain, fromBlock, toBlock)
  {
    hide AreTheLogs, Tiles, Honest, Ordered, Query;
    ranges := BlockRanges(fromBlock, toBlock);
    var logs: seq<Log<T>> := [];
    var index := 0;
    while index < |ranges|
      invariant 0 <= index
      invariant forall range :: range in ranges[..Least(index, |ranges|)] ==> node(range).Ok?
      invariant logs == Answers(node, ranges[..Least(index, |ranges|)])
      decreases |ranges| - index
    {
      var end := Least(index + LOG_BATCH_SIZE, |ranges|);
      assert ranges[..end] == ranges[..index] + ranges[index..end];
      var batch := QueryBatch(node, ranges[index..end]);
      if batch.Err? {
        return Err(batch.reason), ranges;
      }
      AnswersSplit(node, ranges[..index], ranges[index..end]);
      logs := logs + batch.value;
      index := index + LOG_BATCH_SIZE;
    }
    assert ranges[..Least(index, |ranges|)] == ranges;
    r := Ok(logs);
    QueriedAreTheLogs(chain, fromBlock, toBlock);
    if fromBlock <= toBlock {
      AnswersAreOneQuery(node, chain, ranges, fromBlock, toBlock + 1);
    } else {
      NothingToRead(chain, ranges, fromBlock, toBlock);
    }
  }

  lemma NothingToRead<T>(chain: seq<Log<T>>, ranges: seq<Range>, fromBlock: nat, toBlock: nat)
    requires fromBlock > toBlock && Tiles(ranges, fromBlock, fromBlock)
    ensures ranges == [] && Query(chain, Range(fromBlock, toBlock)) == []
  {
    if ranges != [] { TilesStart(ranges, fromBlock, fromBlock, 0); }
    QueryOutside(chain, Range(fromBlock, toBlock));
  }

  function Least(a: int, b: int): int { if a < b then a else b }
}
