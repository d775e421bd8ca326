/** Coalescing of asynchronous operations: a map from keys to the promise in flight, beside the
    promises themselves.  An operation runs, settles, is recorded by its `then` callback, and
    leaves the map in its `finally` callback, each at a time of the event loop's choosing. */
module InFlight {
  import opened Texts

  datatype Stage = Running | Settled | Recorded | Finished

  const OPEN: set<Stage> := {Running, Settled, Recorded}

  const UNRECORDED: set<Stage> := {Running, Settled}

  datatype Op<+P> = Op(key: Text, stage: Stage, payload: P)

  datatype Registry<+P> = Registry(inFlight: map<Text, nat>, ops: seq<Op<P>>) {

    /** A new operation enters the map under its key. */
    function Start(key: Text, payload: P): Registry<P> {
      Registry(inFlight[key := |ops|], ops + [Op(key, Running, payload)])
    }

    function Put(id: nat, stage: Stage, payload: P): Registry<P>
      requires id < |ops|
    {
      Registry(inFlight, ops[id := Op(ops[id].key, stage, payload)])
    }

    /** The `finally` callback deletes by key, without looking at what is stored there. */
    function Finish(id: nat): Registry<P>
      requires id < |ops|
    {
      Registry(inFlight - {ops[id].key}, ops[id := ops[id].(stage := Finished)])
    }

    ghost predicate EntriesAreOpen() {
      forall k :: k in inFlight ==> inFlight[k] < |ops| && ops[inFlight[k]].key == k && ops[inFlight[k]].stage in OPEN
    }

    ghost predicate OpenAreEntries() {
      forall i :: 0 <= i < |ops| && ops[i].stage in OPEN ==> ops[i].key in inFlight && inFlight[ops[i].key] == i
    }

    /** The map holds exactly the unfinished operations, one per key. */
    ghost predicate Tracks() {
      EntriesAreOpen() && OpenAreEntries() && |inFlight| == Count(ops, OPEN)
    }
  }

  /** How many operations are at one of the given stages. */
  function Count<P>(ops: seq<Op<P>>, stages: set<Stage>): nat {
    if ops == [] then 0
    else Count(ops[..|ops| - 1], stages) + (if ops[|ops| - 1].stage in stages then 1 else 0)
  }

  lemma CountAppend<P>(ops: seq<Op<P>>, op: Op<P>, stages: set<Stage>)
    ensures Count(ops + [op], stages) == Count(ops, stages) + (if op.stage in stages then 1 else 0)
  {
    assert (ops + [op])[..|ops|] == ops;
  }

  lemma {:induction false} CountUpdate<P>(ops: seq<Op<P>>, id: nat, op: Op<P>, stages: set<Stage>)
    requires id < |ops|
    ensures Count(ops[id := op], stages)
         == Count(ops, stages) - (if ops[id].stage in stages then 1 else 0) + (if op.stage in stages then 1 else 0)
  {
    var n := |ops| - 1;
    if id < n {
      CountUpdate(ops[..n], id, op, stages);
      assert ops[id := op][..n] == ops[..n][id := op];
    } else {
      assert ops[id := op][..n] == ops[..n];
    }
  }

  function EmptyRegistry<P>(): (r: Registry<P>)
    ensures r.Tracks() && r.inFlight == map[] && r.ops == [] && Count(r.ops, UNRECORDED) == 0
  {
    Registry(map[], [])
  }

  lemma StartTracks<P>(r: Registry<P>, key: Text, payload: P)
    requires r.Tracks() && key !in r.inFlight
    ensures r.Start(key, payload).Tracks()
    ensures |r.Start(key, payload).inFlight| == |r.inFlight| + 1
  {
    CountAppend(r.ops, Op(key, Running, payload), OPEN);
  }

  lemma PutTracks<P>(r: Registry<P>, id: nat, stage: Stage, payload: P)
    requires r.Tracks() && id < |r.ops| && r.ops[id].stage in OPEN && stage in OPEN
    ensures r.Put(id, stage, payload).Tracks()
  {
    CountUpdate(r.ops, id, Op(r.ops[id].key, stage, payload), OPEN);
  }

  /** Deleting by key alone is right, because no other open operation can hold the key. */
  lemma FinishTracks<P>(r: Registry<P>, id: nat)
    requires r.Tracks() && id < |r.ops| && r.ops[id].stage in OPEN
    ensures r.Finish(id).Tracks()
    ensures |r.Finish(id).inFlight| == |r.inFlight| - 1
  {
    hide Registry.EntriesAreOpen, Registry.OpenAreEntries;
    CountUpdate(r.ops, id, r.ops[id].(stage := Finished), OPEN);
    FinishIndexes(r, id);
    var k := r.ops[id].key;
    assert r.inFlight.Keys == (r.inFlight - {k}).Keys + {k};
    assert |r.inFlight.Keys| == |(r.inFlight - {k}).Keys| + 1;
  }

  lemma FinishIndexes<P>(r: Registry<P>, id: nat)
    requires r.EntriesAreOpen() && r.OpenAreEntries() && id < |r.ops| && r.ops[id].stage in OPEN
    ensures r.ops[id].key in r.inFlight
    ensures r.Finish(id).EntriesAreOpen() && r.Finish(id).OpenAreEntries()
  {
  }

  lemma {:induction false} CountNone<P>(ops: seq<Op<P>>, stages: set<Stage>)
    ensures Count(ops, stages) == 0 <==> forall i :: 0 <= i < |ops| ==> ops[i].stage !in stages
  {
    if ops != [] {
      var n := |ops| - 1;
      CountNone(ops[..n], stages);
      assert forall i :: 0 <= i < n ==> ops[..n][i] == ops[i];
    }
  }

  /** At most one open operation per key, and an empty map once every operation is finished. */
  lemma OneOpenPerKey<P>(r: Registry<P>)
    requires r.Tracks()
    ensures forall i, j :: 0 <= i < j < |r.ops| && r.ops[i].stage in OPEN && r.ops[j].stage in OPEN ==>
              r.ops[i].key != r.ops[j].key
    ensures (forall i :: 0 <= i < |r.ops| ==> r.ops[i].stage == Finished) <==> r.inFlight == map[]
  {
    CountNone(r.ops, OPEN);
    assert r.inFlight == map[] <==> |r.inFlight| == 0;
  }
}
