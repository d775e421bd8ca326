/** The operation cache of the live relay: at most 2048 running or finished evaluations, keyed by
    request and requester, dropped when they expire, when they fail, or to make room. */
module LiveCache {
  import opened Outcomes
  import opened Texts
  import opened OrderedMaps
  import opened Protocol

  datatype Cached = Cached(expiresAt: int, operation: nat)

  type Cache = OrderedMap<Text, Cached>

  datatype Progress = Pending | Fulfilled | Failed

  /** A promise handed out by `evaluate`, with the key and expiry it was stored under.  It was begun
      for one call's authorisation, and rejects if that turns out not to be valid. */
  datatype Operation = Operation(key: Text, expiresAt: int, authorised: bool, progress: Progress)

  datatype CacheState = CacheState(cache: Cache, operations: seq<Operation>)

  datatype Event =
    | Called(now: int, requestId: Text, requester: Text, expiry: int, authorised: bool)
    | Resolved(id: nat)
    | Rejected(id: nat)

  const CAPACITY: nat := 2048

  function KeyOf(requestId: Text, requester: Text): Text { ToLower(requestId) + [0x3A] + ToLower(requester) }

  // ---- steps ----------------------------------------------------------------------------

  /** The purging loop over the listed keys. */
  function Purge(m: Cache, keys: seq<Text>, now: int): (r: Cache)
    ensures m.Valid() ==> r.Valid()
  {
    if keys == [] then m
    else
      var before := Purge(m, keys[..|keys| - 1], now);
      var k := keys[|keys| - 1];
      if before.Get(k).Some? && before.Get(k).value.expiresAt < now then before.Delete(k) else before
  }

  function Purged(m: Cache, now: int): (r: Cache)
    ensures m.Valid() ==> r.Valid()
  {
    Purge(m, m.order, now)
  }

  function WithRoom(m: Cache): (r: Cache)
    ensures m.Valid() ==> r.Valid()
  {
    if m.Size() >= CAPACITY then m.Delete(m.order[0]) else m
  }

  /** The promise a call gets. */
  function Answer(s: CacheState, now: int, key: Text): nat {
    match Purged(s.cache, now).Get(key)
    case Some(c) => c.operation
    case None => |s.operations|
  }

  function AfterCall(s: CacheState, now: int, key: Text, expiry: int, authorised: bool): CacheState {
    var cache := Purged(s.cache, now);
    if cache.Get(key).Some? then s.(cache := cache)
    else CacheState(WithRoom(cache).Set(key, Cached(expiry, |s.operations|)),
                    s.operations + [Operation(key, expiry, authorised, Pending)])
  }

  /** The rejection handler removes the entry only if it is still this operation's own. */
  function AfterRejection(s: CacheState, id: nat): CacheState
    requires id < |s.operations|
  {
    var op := s.operations[id];
    var mine := s.cache.Get(op.key).Some? && s.cache.Get(op.key).value.operation == id;
    CacheState(if mine then s.cache.Delete(op.key) else s.cache, s.operations[id := op.(progress := Failed)])
  }

  predicate Enabled(s: CacheState, e: Event) {
    match e
    case Called(_, _, _, _, _) => true
    case Resolved(id) =>
      id < |s.operations| && s.operations[id].progress == Pending && s.operations[id].authorised
    case Rejected(id) => id < |s.operations| && s.operations[id].progress == Pending
  }

  function Step(s: CacheState, e: Event): CacheState
    requires Enabled(s, e)
  {
    match e
    case Called(now, requestId, requester, expiry, authorised) =>
      AfterCall(s, now, KeyOf(requestId, requester), expiry, authorised)
    case Resolved(id) => s.(operations := s.operations[id := s.operations[id].(progress := Fulfilled)])
    case Rejected(id) => AfterRejection(s, id)
  }

  const START: CacheState := CacheState(Empty(), [])

  ghost predicate Legal(s: CacheState, events: seq<Event>)
    decreases |events|, 0
  {
    events == [] || var n := |events| - 1; Legal(s, events[..n]) && Enabled(Run(s, events[..n]), events[n])
  }

  /** The state after the events, from any state. */
  ghost function Run(s: CacheState, events: seq<Event>): CacheState
    requires Legal(s, events)
    decreases |events|, 1
  {
    if events == [] then s else Step(Run(s, events[..|events| - 1]), events[|events| - 1])
  }

  class LiveRuntimeCache {
    var evaluations: Cache
    var operations: seq<Operation>

    constructor ()
      ensures State() == START
    {
      evaluations, operations := Empty(), [];
    }

    function State(): CacheState
      reads this
    {
      CacheState(evaluations, operations)
    }

    /** `authorised` is what the check of this call's authorisation will say once it is made. */
    method Evaluate(now: int, requestId: Text, requester: Text, expiry: int, authorised: bool) returns (id: nat)
      requires evaluations.Valid()
      modifies this
      ensures State() == Step(old(State()), Called(now, requestId, requester, expiry, authorised))
      ensures id == Answer(old(State()), now, KeyOf(requestId, requester))
    {
      var keys := evaluations.order;
      for i := 0 to |keys|
        invariant evaluations == Purge(old(evaluations), keys[..i], now)
        invariant operations == old(operations) && evaluations.Valid()
      {
        assert keys[..i + 1][..i] == keys[..i];
        var cached := evaluations.Get(keys[i]);
        if cached.Some? && cached.value.expiresAt < now {
          evaluations := evaluations.Delete(keys[i]);
        }
      }
      assert keys[..|keys|] == keys;
      var key := KeyOf(requestId, requester);
      var existing := evaluations.Get(key);
      if existing.Some? {
        return existing.value.operation;
      }
      if evaluations.Size() >= 2048 {
        evaluations := evaluations.Delete(evaluations.order[0]);
      }
      id := |operations|;
      operations := operations + [Operation(key, expiry, authorised, Pending)];
      evaluations := evaluations.Set(key, Cached(expiry, id));
    }

    method OperationSucceeds(id: nat)
      requires Enabled(State(), Resolved(id))
      modifies this
      ensures State() == Step(old(State()), Resolved(id))
    {
      operations := operations[id := operations[id].(progress := Fulfilled)];
    }

    method OperationFails(id: nat)
      requires Enabled(State(), Rejected(id))
      modifies this
      ensures State() == Step(old(State()), Rejected(id))
    {
      var op := operations[id];
      var entry := evaluations.Get(op.key);
      if entry.Some? && entry.value.operation == id {
        evaluations := evaluations.Delete(op.key);
      }
      operations := operations[id := op.(progress := Failed)];
    }
  }

  // ---- invariant ------------------------------------------------------------------------

  /** The entry is of an operation that carries its key and has not failed. */
  ghost predicate Backed(s: CacheState, key: Text, c: Cached) {
    && c.operation < |s.operations|
    && s.operations[c.operation].key == key && s.operations[c.operation].expiresAt == c.expiresAt
    && s.operations[c.operation].progress != Failed
  }

  ghost predicate Inv(s: CacheState) {
    && s.cache.Valid() && s.cache.Size() <= 2048
    && (forall k :: k in s.cache.values ==> Backed(s, k, s.cache.values[k]))
    && forall i :: 0 <= i < |s.operations| && s.operations[i].progress == Fulfilled ==> s.operations[i].authorised
  }

  predicate Expired(m: Cache, k: Text, now: int) { k in m.values && m.values[k].expiresAt < now }

  lemma DeleteForgets(m: Cache, x: Text, k: Text)
    ensures m.Delete(x).Get(k) == if k == x then None else m.Get(k)
    ensures m.Valid() ==> m.Delete(x).Size() <= m.Size()
  {
  }

  lemma {:induction false} PurgeIsExact(m: Cache, keys: seq<Text>, now: int, k: Text)
    requires m.Valid()
    ensures Purge(m, keys, now).Get(k) == if k in keys && Expired(m, k, now) then None else m.Get(k)
    ensures Purge(m, keys, now).Size() <= m.Size()
  {
    if keys != [] {
      var n := |keys| - 1;
      var x := keys[n];
      PurgeIsExact(m, keys[..n], now, k);
      PurgeIsExact(m, keys[..n], now, x);
      DeleteForgets(Purge(m, keys[..n], now), x, k);
      hide OrderedMap.Delete, OrderedMap.Valid, OrderedMap.Size;
      assert k in keys <==> k in keys[..n] || k == x;
    }
  }

  /** A call first drops exactly the expired entries. */
  lemma PurgedIsExact(m: Cache, now: int)
    requires m.Valid()
    ensures forall k :: Purged(m, now).Get(k) == if Expired(m, k, now) then None else m.Get(k)
    ensures Purged(m, now).Size() <= m.Size()
  {
    hide Purge;
    PurgeIsExact(m, m.order, now, []);
    forall k ensures Purged(m, now).Get(k) == if Expired(m, k, now) then None else m.Get(k) {
      PurgeIsExact(m, m.order, now, k);
      assert k in m.order <==> k in (set x | x in m.order);
    }
  }

  lemma RoomIsMade(m: Cache)
    requires m.Valid() && m.Size() <= CAPACITY
    ensures WithRoom(m).Size() < CAPACITY
    ensures forall k :: k in WithRoom(m).values ==> m.Get(k) == WithRoom(m).Get(k)
  {
    if m.Size() >= CAPACITY {
      assert m.order[0] in (set x | x in m.order);
    }
  }

  lemma CallKeepsInv(s: CacheState, now: int, key: Text, expiry: int, authorised: bool)
    requires Inv(s)
    ensures Inv(AfterCall(s, now, key, expiry, authorised))
  {
    hide Purged, WithRoom;
    PurgedIsExact(s.cache, now);
    var m, t := Purged(s.cache, now), AfterCall(s, now, key, expiry, authorised);
    RoomIsMade(m);
    forall k | k in t.cache.values ensures Backed(t, k, t.cache.values[k]) {
      assert k != key ==> m.Get(k) == Some(t.cache.values[k]) == s.cache.Get(k);
      assert k == key && m.Get(k).Some? ==> m.Get(k) == s.cache.Get(k);
    }
  }

  lemma StepKeepsInv(s: CacheState, e: Event)
    requires Inv(s) && Enabled(s, e)
    ensures Inv(Step(s, e))
  {
    hide Purged;
    if e.Called? {
      CallKeepsInv(s, e.now, KeyOf(e.requestId, e.requester), e.expiry, e.authorised);
    }
  }

  /** In every run the cache holds at most 2048 entries, one per key, each of an operation of
      that key that has not failed. */
  lemma {:induction false} RunsKeepInv(s: CacheState, events: seq<Event>)
    requires Inv(s) && Legal(s, events)
    ensures Inv(Run(s, events))
  {
    hide Step, Enabled, Inv;
    if events != [] {
      RunsKeepInv(s, events[..|events| - 1]);
      StepKeepsInv(Run(s, events[..|events| - 1]), events[|events| - 1]);
    }
  }

  /** The failure of an operation removes its own entry if it still has one, and nothing else. */
  lemma LateFailureIsHarmless(s: CacheState, id: nat)
    requires Inv(s) && Enabled(s, Rejected(id))
    ensures var after := Step(s, Rejected(id)).cache.values;
      after == map k | k in s.cache.values && s.cache.values[k].operation != id :: s.cache.values[k]
  {
    var op := s.operations[id];
    assert forall k :: k in s.cache.values && s.cache.values[k].operation == id ==> k == op.key;
  }

  // ---- sharing --------------------------------------------------------------------------

  /** How many keys stand behind the given one. */
  function Behind(order: seq<Text>, key: Text): nat {
    if order == [] then 0
    else if order[0] == key then |order| - 1
    else Behind(order[1..], key)
  }

  lemma {:induction false} RemovalMovesUp(order: seq<Text>, x: Text, key: Text)
    requires x != key
    ensures Behind(Without(order, x), key) <= Behind(order, key)
    ensures |Without(order, x)| <= |order|
  {
    if order != [] {
      RemovalMovesUp(order[1..], x, key);
    }
  }

  lemma {:induction false} NewcomerStandsBehind(order: seq<Text>, x: Text, key: Text)
    requires key in order
    ensures Behind(order + [x], key) == Behind(order, key) + 1
  {
    if order[0] != key {
      assert order == [order[0]] + order[1..];
      assert (order + [x])[1..] == order[1..] + [x];
      NewcomerStandsBehind(order[1..], x, key);
    }
  }

  lemma {:induction false} LastStandsBehindNone(order: seq<Text>, key: Text)
    requires key !in order
    ensures Behind(order + [key], key) == 0
  {
    if order != [] {
      assert order == [order[0]] + order[1..];
      assert (order + [key])[1..] == order[1..] + [key];
      LastStandsBehindNone(order[1..], key);
    } else {
      assert [] + [key] == [key];
    }
  }

  lemma {:induction false} PurgeMovesUp(m: Cache, keys: seq<Text>, now: int, key: Text)
    requires m.Valid() && key in m.values && m.values[key].expiresAt >= now
    ensures var r := Purge(m, keys, now); key in r.values && r.values[key] == m.values[key]
    ensures Behind(Purge(m, keys, now).order, key) <= Behind(m.order, key)
  {
    if keys != [] {
      var n := |keys| - 1;
      PurgeMovesUp(m, keys[..n], now, key);
      var before := Purge(m, keys[..n], now);
      if keys[n] != key {
        RemovalMovesUp(before.order, keys[n], key);
      }
    }
  }

  /** The key is in the cache for this operation, with at most `behind` keys after it. */
  ghost predicate Holds(s: CacheState, key: Text, id: nat, expiresAt: int, behind: int) {
    && s.cache.Get(key) == Some(Cached(expiresAt, id)) && Behind(s.cache.order, key) <= behind
  }

  lemma CallKeepsEntry(
    s: CacheState, now: int, other: Text, expiry: int, authorised: bool, key: Text, id: nat, expiresAt: int,
    behind: nat)
    requires Inv(s) && Holds(s, key, id, expiresAt, behind) && now <= expiresAt
    requires behind + |AfterCall(s, now, other, expiry, authorised).operations| - |s.operations| < CAPACITY
    ensures var t := AfterCall(s, now, other, expiry, authorised);
      Holds(t, key, id, expiresAt, behind + |t.operations| - |s.operations|)
  {
    hide Behind;
    PurgeMovesUp(s.cache, s.cache.order, now, key);
    var m := Purged(s.cache, now);
    if m.Get(other).None? {
      if m.Size() >= CAPACITY {
        FirstStandsBefore(m.order, key);
        RemovalMovesUp(m.order, m.order[0], key);
      }
      var roomy := WithRoom(m);
      assert key in roomy.values && roomy.values[key] == Cached(expiresAt, id);
      assert key in roomy.order by { assert key in (set x | x in roomy.order); }
      assert other !in roomy.values;
      NewcomerStandsBehind(roomy.order, other, key);
    }
  }

  lemma HitIsShared(s: CacheState, now: int, key: Text, id: nat, expiresAt: int, behind: nat)
    requires Inv(s) && Holds(s, key, id, expiresAt, behind) && now <= expiresAt
    ensures Answer(s, now, key) == id
  {
    hide Behind;
    PurgeMovesUp(s.cache, s.cache.order, now, key);
  }

  lemma FirstStandsBefore(order: seq<Text>, key: Text)
    requires order != [] && Behind(order, key) < |order| - 1
    ensures order[0] != key
  {
  }

  lemma StepKeepsEntry(s: CacheState, e: Event, key: Text, id: nat, expiresAt: int, behind: nat)
    requires Inv(s) && Enabled(s, e) && Holds(s, key, id, expiresAt, behind)
    requires behind + |Step(s, e).operations| - |s.operations| < CAPACITY
    requires e != Rejected(id) && (e.Called? ==> e.now <= expiresAt)
    ensures Holds(Step(s, e), key, id, expiresAt, behind + |Step(s, e).operations| - |s.operations|)
  {
    hide Behind;
    match e
    case Called(now, requestId, requester, expiry, authorised) =>
      CallKeepsEntry(s, now, KeyOf(requestId, requester), expiry, authorised, key, id, expiresAt, behind);
    case Resolved(_) =>
    case Rejected(late) =>
      var op := s.operations[late];
      if s.cache.Get(op.key).Some? && s.cache.Get(op.key).value.operation == late {
        RemovalMovesUp(s.cache.order, op.key, key);
      }
  }

  lemma OperationsGrow(s: CacheState, e: Event)
    requires Enabled(s, e)
    ensures |s.operations| <= |Step(s, e).operations|
  {
    hide Purged;
  }

  lemma {:induction false} EntrySurvives(
    s: CacheState, events: seq<Event>, key: Text, id: nat, expiresAt: int)
    requires Inv(s) && Legal(s, events) && Holds(s, key, id, expiresAt, 0)
    requires Rejected(id) !in events
    requires forall e :: e in events && e.Called? ==> e.now <= expiresAt
    requires |Run(s, events).operations| - |s.operations| < CAPACITY
    ensures |Run(s, events).operations| >= |s.operations|
    ensures Holds(Run(s, events), key, id, expiresAt, |Run(s, events).operations| - |s.operations|)
  {
    hide Step, Enabled, Inv, Holds;
    if events != [] {
      var n := |events| - 1;
      var front := events[..n];
      var t := Run(s, front);
      OperationsGrow(t, events[n]);
      assert forall e :: e in front ==> e in events;
      EntrySurvives(s, front, key, id, expiresAt);
      RunsKeepInv(s, front);
      LastIn(events);
      StepKeepsEntry(t, events[n], key, id, expiresAt, |t.operations| - |s.operations|);
    }
  }

  lemma LastIn(events: seq<Event>)
    requires events != []
    ensures events[|events| - 1] in events
  {
  }

  /** A started operation is what every later call with its key gets, whatever other calls and
      failures come between, as long as it does not fail itself, no clock reading lies beyond
      its expiry and fewer than 2048 other operations have started. */
  lemma SharedUntilExpiry(s: CacheState, first: Event, between: seq<Event>, again: Event)
    requires Inv(s) && first.Called? && again.Called?
    requires var key := KeyOf(first.requestId, first.requester);
      && KeyOf(again.requestId, again.requester) == key
      && Answer(s, first.now, key) == |s.operations|
    requires Legal(Step(s, first), between) && Rejected(|s.operations|) !in between
    requires forall e :: e in between + [again] && e.Called? ==> e.now <= first.expiry
    requires |Run(Step(s, first), between).operations| <= |s.operations| + 2048
    ensures Answer(Run(Step(s, first), between), again.now, KeyOf(again.requestId, again.requester)) == |s.operations|
  {
    hide Behind, Inv, Purged;
    var key := KeyOf(first.requestId, first.requester);
    StepKeepsInv(s, first);
    var t := Step(s, first);
    StartedStandsLast(s, first.now, key, first.expiry, first.authorised);
    assert forall e :: e in between ==> e in between + [again];
    assert again in between + [again];
    EntrySurvives(t, between, key, |s.operations|, first.expiry);
    RunsKeepInv(t, between);
    var u := Run(t, between);
    HitIsShared(u, again.now, key, |s.operations|, first.expiry, |u.operations| - |t.operations|);
  }

  lemma StartedStandsLast(s: CacheState, now: int, key: Text, expiry: int, authorised: bool)
    requires Inv(s) && Answer(s, now, key) == |s.operations|
    ensures Holds(AfterCall(s, now, key, expiry, authorised), key, |s.operations|, expiry, 0)
    ensures |AfterCall(s, now, key, expiry, authorised).operations| == |s.operations| + 1
  {
    hide Purged, Behind;
    PurgedIsExact(s.cache, now);
    var m := Purged(s.cache, now);
    assert m.Get(key).None?;
    var roomy := WithRoom(m);
    assert key !in roomy.order by { assert key !in (set x | x in roomy.order); }
    LastStandsBehindNone(roomy.order, key);
  }

  /** The keys of the HTTP route tell (request, requester) pairs apart, up to letter case. */
  lemma KeysIdentify(requestId: Text, requester: Text, otherId: Text, other: Text)
    requires IsHexOf(requestId, 64) && IsHexOf(otherId, 64)
    ensures KeyOf(requestId, requester) == KeyOf(otherId, other)
       <==> ToLower(requestId) == ToLower(otherId) && ToLower(requester) == ToLower(other)
  {
    var t, u := KeyOf(requestId, requester), KeyOf(otherId, other);
    assert t[..66] == ToLower(requestId) && u[..66] == ToLower(otherId);
    assert t[67..] == ToLower(requester) && u[67..] == ToLower(other);
  }

  // ---- authorisation --------------------------------------------------------------------

  datatype Authorization = Authorization(requester: Text, issuedAt: nat, expiry: nat, signature: Text)

  const CLOCK_SKEW: nat := 60
  const LIFETIME: nat := 300

  /** `authorizeEvaluation`: true when it returns.  `digest` is that of request, requester and
      time window; a signature of the wrong form recovers nothing. */
  predicate Authorized(p: Primitives, requester: Text, digest: Text, a: Authorization, now: int) {
    && GetAddress(p, a.requester) == GetAddress(p, requester)
    && a.issuedAt != 0 && a.issuedAt <= now + CLOCK_SKEW && now < a.expiry && a.issuedAt < a.expiry
    && a.expiry - a.issuedAt <= LIFETIME
    && p.recover(digest, a.signature).Some?
    && GetAddress(p, p.recover(digest, a.signature).value) == GetAddress(p, requester)
  }

  /** The key a call is cached under is that of the request's own creator whenever the call is
      authorised, whatever spelling of the address it claims; and what it caches is kept at least
      until it is authorised and at most 360 seconds longer. */
  lemma AuthorisedEntriesAreBrief(
    p: Primitives, requestId: Text, requester: Text, digest: Text, a: Authorization, at: int, m: Cache, id: nat,
    now: int)
    requires ChecksumKeepsAddress(p) && IsHexOf(requester, 40) && IsHexOf(a.requester, 40)
    requires Authorized(p, requester, digest, a, at)
    requires m.Valid() && m.Get(KeyOf(requestId, a.requester)) == Some(Cached(a.expiry, id))
    ensures KeyOf(requestId, a.requester) == KeyOf(requestId, requester)
    ensures now <= at ==> Purged(m, now).Get(KeyOf(requestId, requester)) == Some(Cached(a.expiry, id))
    ensures now > at + CLOCK_SKEW + LIFETIME ==> Purged(m, now).Get(KeyOf(requestId, requester)) == None
  {
    hide Purged;
    GetAddressStable(p, requester);
    GetAddressStable(p, a.requester);
    PurgedIsExact(m, now);
  }

  /** The call that brings an authorisation, whose check will read the clock at `at`; `digestOf` is the
      digest of request, claimed requester and time window. */
  function CallWith(
    p: Primitives, digestOf: (Text, Text, nat, nat) -> Text, requestId: Text, creator: Text, a: Authorization, now: int,
    at: int): Event
  {
    Called(now, requestId, a.requester, a.expiry,
           Authorized(p, creator, digestOf(requestId, a.requester, a.issuedAt, a.expiry), a, at))
  }

  /** The creator has signed the window, which is at most five minutes long, has begun, but for a
      minute's skew, and is not over. */
  ghost predicate Grants(
    p: Primitives, digestOf: (Text, Text, nat, nat) -> Text, requestId: Text, creator: Text, a: Authorization, at: int)
  {
    var signer := p.recover(digestOf(requestId, a.requester, a.issuedAt, a.expiry), a.signature);
    && signer.Some? && GetAddress(p, signer.value) == GetAddress(p, creator) == GetAddress(p, a.requester)
    && 1 <= a.issuedAt < a.expiry <= a.issuedAt + 300
    && a.issuedAt - 60 <= at && at < a.expiry
  }

  /** An operation resolves only on the signature of the request's creator: whatever else happens, one
      begun with an authorisation that the creator has not signed, or outside its window, is never
      fulfilled, and one begun with a good authorisation can be as long as it is pending. */
  lemma OnlyTheCreatorsResolve(
    p: Primitives, digestOf: (Text, Text, nat, nat) -> Text, before: seq<Event>, requestId: Text, creator: Text,
    a: Authorization, now: int, at: int, after: seq<Event>)
    requires Legal(START, before + [CallWith(p, digestOf, requestId, creator, a, now, at)] + after)
    requires Legal(START, before)
    requires Answer(Run(START, before), now, KeyOf(requestId, a.requester)) == |Run(START, before).operations|
    ensures var id := |Run(START, before).operations|;
      var t := Run(START, before + [CallWith(p, digestOf, requestId, creator, a, now, at)] + after);
      && id < |t.operations|
      && (t.operations[id].progress == Fulfilled ==> Grants(p, digestOf, requestId, creator, a, at))
      && (Enabled(t, Resolved(id)) <==>
            t.operations[id].progress == Pending && Grants(p, digestOf, requestId, creator, a, at))
  {
    var s, call := Run(START, before), CallWith(p, digestOf, requestId, creator, a, now, at);
    AuthorizedGrants(p, digestOf, requestId, creator, a, now, at);
    hide Step, Enabled, Answer, KeyOf, Inv, CallWith, Grants, START;
    var started := before + [call];
    assert started[..|before|] == before && started[|before|] == call;
    LegalFront(START, started, after);
    StartIsSound();
    RunsKeepInv(START, before);
    StartsAsCalled(s, call);
    assert Run(START, started) == Step(s, call);
    RunContinues(START, started, after);
    AuthorisationStays(Run(START, started), after, |s.operations|);
    RunsKeepInv(START, started + after);
    ResolvesWhenAuthorised(Run(START, started + after), |s.operations|);
  }

  lemma AuthorizedGrants(
    p: Primitives, digestOf: (Text, Text, nat, nat) -> Text, requestId: Text, creator: Text, a: Authorization, now: int,
    at: int)
    ensures var call := CallWith(p, digestOf, requestId, creator, a, now, at);
      && call.Called? && call.now == now && call.requestId == requestId && call.requester == a.requester
      && (call.authorised <==> Grants(p, digestOf, requestId, creator, a, at))
  {
    hide GetAddress;
  }

  lemma ResolvesWhenAuthorised(s: CacheState, id: nat)
    requires Inv(s) && id < |s.operations|
    ensures s.operations[id].progress == Fulfilled ==> s.operations[id].authorised
    ensures Enabled(s, Resolved(id)) <==> s.operations[id].progress == Pending && s.operations[id].authorised
  {
    hide OrderedMap.Valid;
  }

  lemma StartsAsCalled(s: CacheState, call: Event)
    requires call.Called? && Inv(s)
    requires Answer(s, call.now, KeyOf(call.requestId, call.requester)) == |s.operations|
    ensures var t := Step(s, call);
      |t.operations| > |s.operations| && t.operations[|s.operations|].authorised == call.authorised
  {
    hide Purged, KeyOf;
    PurgedIsExact(s.cache, call.now);
  }

  lemma {:induction false} LegalFront(s: CacheState, before: seq<Event>, after: seq<Event>)
    requires Legal(s, before + after)
    ensures Legal(s, before)
  {
    if after == [] {
      assert before + after == before;
    } else {
      assert (before + after)[..|before + after| - 1] == before + after[..|after| - 1];
      LegalFront(s, before, after[..|after| - 1]);
    }
  }

  lemma {:induction false} RunContinues(s: CacheState, before: seq<Event>, after: seq<Event>)
    requires Legal(s, before + after) && Legal(s, before)
    ensures Legal(Run(s, before), after) && Run(Run(s, before), after) == Run(s, before + after)
  {
    hide Step, Enabled;
    if after == [] {
      assert before + after == before;
    } else {
      var n := |after| - 1;
      assert (before + after)[..|before + after| - 1] == before + after[..n];
      RunContinues(s, before, after[..n]);
    }
  }

  // ---- answers begun on another's authorisation -----------------------------------------

  /** The call would be answered by an operation that was begun without valid authorisation. */
  predicate Misled(s: CacheState, now: int, key: Text) {
    var id := Answer(s, now, key);
    id < |s.operations| && !s.operations[id].authorised
  }

  /** The key carries the claimed requester, which is checked only after the entry is made.  So an
      authorised call is answered by an operation begun without authorisation exactly when one that
      claimed the same requester has left an unexpired entry; that operation is still pending, and
      rejects. */
  lemma MisledExactly(s: CacheState, now: int, key: Text)
    requires Inv(s)
    ensures Misled(s, now, key) <==>
      && key in s.cache.values && now <= s.cache.values[key].expiresAt
      && !s.operations[s.cache.values[key].operation].authorised
    ensures Misled(s, now, key) ==>
      s.operations[Answer(s, now, key)].progress == Pending && !Enabled(s, Resolved(Answer(s, now, key)))
  {
    hide Purged;
    PurgedIsExact(s.cache, now);
    if key in s.cache.values {
      assert Backed(s, key, s.cache.values[key]);
      assert Purged(s.cache, now).Get(key) == if Expired(s.cache, key, now) then None else s.cache.Get(key);
    }
  }

  /** Operations of the key that were begun without authorisation. */
  ghost predicate Unclaimed(s: CacheState, key: Text) {
    forall i :: 0 <= i < |s.operations| && s.operations[i].key == key ==> s.operations[i].authorised
  }

  lemma StepKeepsUnclaimed(s: CacheState, e: Event, key: Text)
    requires Unclaimed(s, key) && Enabled(s, e)
    requires e.Called? && KeyOf(e.requestId, e.requester) == key ==> e.authorised
    ensures Unclaimed(Step(s, e), key)
  {
    hide Purged, KeyOf;
  }

  /** As long as nobody has called with the key without authorisation, no call with it is misled. */
  lemma {:induction false} UnclaimedKeysAreSafe(events: seq<Event>, key: Text, now: int)
    requires Legal(START, events)
    requires forall e :: e in events && e.Called? && KeyOf(e.requestId, e.requester) == key ==> e.authorised
    ensures Unclaimed(Run(START, events), key) && !Misled(Run(START, events), now, key)
  {
    hide Step, Enabled, KeyOf, Answer;
    StartIsSound();
    if events == [] {
      RunsKeepInv(START, []);
    } else {
      var n := |events| - 1;
      assert events[n] in events && forall e :: e in events[..n] ==> e in events;
      UnclaimedKeysAreSafe(events[..n], key, now);
      StepKeepsUnclaimed(Run(START, events[..n]), events[n], key);
      RunsKeepInv(START, events);
    }
    UnclaimedIsNotMisled(Run(START, events), key, now);
  }

  lemma StartIsSound()
    ensures Inv(START) && forall key :: Unclaimed(START, key)
  {
  }

  lemma UnclaimedIsNotMisled(s: CacheState, key: Text, now: int)
    requires Inv(s) && Unclaimed(s, key)
    ensures !Misled(s, now, key)
  {
    hide Answer, Misled;
    MisledExactly(s, now, key);
    if key in s.cache.values { assert Backed(s, key, s.cache.values[key]); }
  }

  /** A call without authorisation that begins an operation misleads every authorised call with its
      key until it is rejected, expires or is crowded out. */
  lemma ClaimMisleads(s: CacheState, claim: Event, between: seq<Event>, call: Event)
    requires Inv(s) && claim.Called? && !claim.authorised && call.Called? && call.authorised
    requires var key := KeyOf(claim.requestId, claim.requester);
      && KeyOf(call.requestId, call.requester) == key
      && Answer(s, claim.now, key) == |s.operations|
    requires Legal(Step(s, claim), between) && Rejected(|s.operations|) !in between
    requires forall e :: e in between + [call] && e.Called? ==> e.now <= claim.expiry
    requires |Run(Step(s, claim), between).operations| <= |s.operations| + 2048
    ensures Misled(Run(Step(s, claim), between), call.now, KeyOf(call.requestId, call.requester))
  {
    hide Answer, KeyOf;
    SharedUntilExpiry(s, claim, between, call);
    StartsAsCalled(s, claim);
    AuthorisationStays(Step(s, claim), between, |s.operations|);
  }

  lemma {:induction false} AuthorisationStays(s: CacheState, events: seq<Event>, id: nat)
    requires Legal(s, events) && id < |s.operations|
    ensures var t := Run(s, events);
      |s.operations| <= |t.operations| && t.operations[id].authorised == s.operations[id].authorised
  {
    if events != [] {
      AuthorisationStays(s, events[..|events| - 1], id);
      hide Purged, KeyOf;
    }
  }

  /** The state after a first call on an empty cache. */
  function Begun(key: Text, expiry: int, authorised: bool): CacheState {
    CacheState(Empty().Set(key, Cached(expiry, 0)), [Operation(key, expiry, authorised, Pending)])
  }

  lemma FirstCallBegins(now: int, key: Text, expiry: int, authorised: bool)
    ensures AfterCall(START, now, key, expiry, authorised) == Begun(key, expiry, authorised)
  {
    assert Purge(Empty(), [], now) == Empty();
  }

  lemma BegunIsMisleading(now: int, key: Text, expiry: int)
    requires now <= expiry
    ensures Inv(Begun(key, expiry, false))
    ensures Misled(Begun(key, expiry, false), now, key) && Answer(Begun(key, expiry, false), now, key) == 0
  {
    hide Purged;
    var s := Begun(key, expiry, false);
    assert s.cache.values == map[key := Cached(expiry, 0)] && s.cache.order == [key];
    assert Inv(s);
    MisledExactly(s, now, key);
  }

  lemma RejectedIsForgotten(now: int, key: Text, expiry: int)
    ensures Answer(AfterRejection(Begun(key, expiry, false), 0), now, key) == 1
  {
    hide Purged;
    var s := AfterRejection(Begun(key, expiry, false), 0);
    assert s.cache.values == map[] && |s.operations| == 1;
    BegunIsSound(key, expiry);
    StepKeepsInv(Begun(key, expiry, false), Rejected(0));
    PurgedIsExact(s.cache, now);
    assert Purged(s.cache, now).Get(key) == None;
  }

  lemma BegunIsSound(key: Text, expiry: int)
    ensures Inv(Begun(key, expiry, false))
  {
    BegunIsMisleading(expiry, key, expiry);
  }

  /** The input: someone claims the creator's address without authorisation, and the creator's own
      authorised call gets that operation, which can only reject; after the rejection the creator's
      next call begins its own. */
  lemma ClaimedCreatorIsMisled(requestId: Text, creator: Text, now: int, expiry: int)
    requires now <= expiry
    ensures var key := KeyOf(requestId, creator); var claimed := Begun(key, expiry, false);
      && Step(START, Called(now, requestId, creator, expiry, false)) == claimed
      && Misled(claimed, now, key) && Answer(claimed, now, key) == 0
      && !Enabled(claimed, Resolved(0)) && Enabled(claimed, Rejected(0))
      && Answer(Step(claimed, Rejected(0)), now, key) == 1
  {
    hide KeyOf, Misled, Answer, AfterCall;
    var key := KeyOf(requestId, creator);
    FirstCallBegins(now, key, expiry, false);
    BegunIsMisleading(now, key, expiry);
    RejectedIsForgotten(now, key, expiry);
  }
}
