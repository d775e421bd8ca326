/** Two-of-three threshold selection.  The relay, the browser demo and the live relay all group
    envelopes by digest and take the first group of two; they differ in how they treat several
    envelopes of one machine: the first one wins, the last one wins, or all are kept. */
module Threshold {
  import opened Outcomes
  import opened Texts
  import opened Sequences
  import opened OrderedMaps
  import opened Protocol

  function MachineOf(e: Envelope): Text { ToLower(e.result.machineId) }

  function DigestOf(e: Envelope): Text { ToLower(e.digest) }

  function MachinesOf(es: seq<Envelope>): set<Text> { set e | e in es :: MachineOf(e) }

  datatype Status = THRESHOLD_READY | SPLIT | UNAVAILABLE

  datatype Selection = Selection(
    status: Status, digest: Option<Text>, matching: seq<Envelope>, valid: seq<Envelope>)

  // ---- what is selected -----------------------------------------------------------------

  /** The envelopes with the given digest, in order. */
  function Carrying(es: seq<Envelope>, d: Text): seq<Envelope> {
    if es == [] then []
    else
      var n := |es| - 1;
      Carrying(es[..n], d) + (if DigestOf(es[n]) == d then [es[n]] else [])
  }

  /** The digests in the order of their first appearance. */
  function Digests(es: seq<Envelope>): seq<Text> {
    if es == [] then []
    else
      var n := |es| - 1;
      var ds := Digests(es[..n]);
      if DigestOf(es[n]) in ds then ds else ds + [DigestOf(es[n])]
  }

  function FirstReady(ds: seq<Text>, es: seq<Envelope>): Option<Text> {
    if ds == [] then None
    else if |Carrying(es, ds[0])| >= 2 then Some(ds[0])
    else FirstReady(ds[1..], es)
  }

  function Select(valid: seq<Envelope>): Selection {
    match FirstReady(Digests(valid), valid)
    case Some(d) => Selection(THRESHOLD_READY, Some(d), Carrying(valid, d), valid)
    case None => Selection(if |valid| < 2 then UNAVAILABLE else SPLIT, None, [], valid)
  }

  /** First-wins deduplication. */
  function FirstPerMachine(es: seq<Envelope>): seq<Envelope> {
    if es == [] then []
    else
      var n := |es| - 1;
      var kept := FirstPerMachine(es[..n]);
      if exists e :: e in kept && MachineOf(e) == MachineOf(es[n]) then kept else kept + [es[n]]
  }

  /** Last-wins deduplication; a machine keeps the place of its first envelope. */
  function Retained(es: seq<Envelope>): (r: OrderedMap<Text, Envelope>)
    ensures r.Valid()
  {
    if es == [] then Empty()
    else Retained(es[..|es| - 1]).Set(MachineOf(es[|es| - 1]), es[|es| - 1])
  }

  function ValuesInOrder(m: OrderedMap<Text, Envelope>): seq<Envelope>
    requires m.Valid()
  {
    seq(|m.order|, i requires 0 <= i < |m.order| => assert m.order[i] in (set k | k in m.order); m.values[m.order[i]])
  }

  function LastPerMachine(es: seq<Envelope>): seq<Envelope> { ValuesInOrder(Retained(es)) }

  // ---- the loops ------------------------------------------------------------------------

  ghost predicate IsGrouping(groups: OrderedMap<Text, seq<Envelope>>, es: seq<Envelope>) {
    && groups.Valid() && groups.order == Digests(es)
    && forall d :: (if d in groups.values then groups.values[d] else []) == Carrying(es, d)
  }

  lemma CarryingExtends(es: seq<Envelope>, e: Envelope, d: Text)
    ensures Carrying(es + [e], d) == Carrying(es, d) + (if DigestOf(e) == d then [e] else [])
  {
    assert (es + [e])[..|es|] == es;
  }

  lemma DigestsExtend(es: seq<Envelope>, e: Envelope)
    ensures Digests(es + [e]) == if DigestOf(e) in Digests(es) then Digests(es) else Digests(es) + [DigestOf(e)]
  {
    assert (es + [e])[..|es|] == es;
  }

  lemma GroupingExtends(groups: OrderedMap<Text, seq<Envelope>>, es: seq<Envelope>, e: Envelope)
    requires IsGrouping(groups, es)
    ensures IsGrouping(groups.Set(DigestOf(e), Carrying(es, DigestOf(e)) + [e]), es + [e])
  {
    hide Carrying, Digests;
    var key := DigestOf(e);
    DigestsExtend(es, e);
    assert key in groups.order <==> key in (set k | k in groups.order);
    var next := groups.Set(key, Carrying(es, key) + [e]);
    forall d ensures (if d in next.values then next.values[d] else []) == Carrying(es + [e], d) {
      CarryingExtends(es, e, d);
    }
  }

  method GroupByDigest(es: seq<Envelope>) returns (groups: OrderedMap<Text, seq<Envelope>>)
    ensures IsGrouping(groups, es)
  {
    groups := Empty();
    for i := 0 to |es|
      invariant IsGrouping(groups, es[..i])
    {
      Extend(es, i);
      var key := DigestOf(es[i]);
      var group := if groups.Get(key).Some? then groups.Get(key).value else [];
      assert group == Carrying(es[..i], key);
      GroupingExtends(groups, es[..i], es[i]);
      groups := groups.Set(key, group + [es[i]]);
    }
    assert es[..|es|] == es;
  }

  /** The relay's and the live relay's selection on the envelopes they kept. */
  method SelectThreshold(valid: seq<Envelope>) returns (s: Selection)
    ensures s == Select(valid)
  {
    var groups := GroupByDigest(valid);
    for i := 0 to |groups.order|
      invariant FirstReady(groups.order, valid) == FirstReady(groups.order[i..], valid)
    {
      var digest := groups.order[i];
      assert digest in (set k | k in groups.order);
      assert groups.order[i..][1..] == groups.order[i + 1..];
      if |groups.values[digest]| >= 2 {
        return Selection(THRESHOLD_READY, Some(digest), groups.values[digest], valid);
      }
    }
    return Selection(if |valid| < 2 then UNAVAILABLE else SPLIT, None, [], valid);
  }

  method SelectDemoThreshold(valid: seq<Envelope>) returns (s: Selection)
    ensures s == Select(LastPerMachine(valid))
  {
    var distinct: OrderedMap<Text, Envelope> := Empty();
    for i := 0 to |valid|
      invariant distinct == Retained(valid[..i])
    {
      Extend(valid, i);
      distinct := distinct.Set(MachineOf(valid[i]), valid[i]);
    }
    assert valid[..|valid|] == valid;
    s := SelectThreshold(ValuesInOrder(distinct));
  }

  // ---- counting envelopes of a digest ---------------------------------------------------

  lemma {:induction false} CarryingIsAFilter(es: seq<Envelope>, d: Text)
    ensures forall e :: multiset(Carrying(es, d))[e] == if DigestOf(e) == d then multiset(es)[e] else 0
    ensures forall e :: e in Carrying(es, d) <==> e in es && DigestOf(e) == d
  {
    if es != [] {
      var n := |es| - 1;
      assert es == es[..n] + [es[n]];
      CarryingIsAFilter(es[..n], d);
    }
  }

  /** How many envelopes carry a digest does not depend on their order. */
  lemma CarryingIgnoresOrder(es: seq<Envelope>, fs: seq<Envelope>, d: Text)
    requires multiset(es) == multiset(fs)
    ensures multiset(Carrying(es, d)) == multiset(Carrying(fs, d))
    ensures |Carrying(es, d)| == |Carrying(fs, d)|
  {
    CarryingIsAFilter(es, d);
    CarryingIsAFilter(fs, d);
    assert multiset(Carrying(es, d)) == multiset(Carrying(fs, d));
    assert |multiset(Carrying(es, d))| == |Carrying(es, d)|;
  }

  lemma {:induction false} TwoDigestsShareTheEnvelopes(es: seq<Envelope>, c: Text, d: Text)
    requires c != d
    ensures |Carrying(es, c)| + |Carrying(es, d)| <= |es|
  {
    if es != [] {
      TwoDigestsShareTheEnvelopes(es[..|es| - 1], c, d);
    }
  }

  lemma {:induction false} DigestsAreComplete(es: seq<Envelope>, d: Text)
    ensures d in Digests(es) <==> Carrying(es, d) != []
  {
    if es != [] {
      DigestsAreComplete(es[..|es| - 1], d);
    }
  }

  lemma {:induction false} FirstReadyFinds(ds: seq<Text>, es: seq<Envelope>)
    ensures var r := FirstReady(ds, es);
      && (r.Some? ==> r.value in ds && |Carrying(es, r.value)| >= 2)
      && (r.None? ==> forall d :: d in ds ==> |Carrying(es, d)| < 2)
  {
    if ds != [] {
      FirstReadyFinds(ds[1..], es);
      assert ds == [ds[0]] + ds[1..];
    }
  }

  /** Ready means that the selected digest is carried twice, not ready that none is. */
  lemma SelectIsExact(valid: seq<Envelope>)
    ensures var s := Select(valid);
      && (s.status == THRESHOLD_READY <==> s.digest.Some?)
      && (s.digest.Some? ==> |Carrying(valid, s.digest.value)| >= 2 && s.matching == Carrying(valid, s.digest.value))
      && (s.digest.None? ==> forall d :: |Carrying(valid, d)| < 2)
  {
    FirstReadyFinds(Digests(valid), valid);
    forall d | d !in Digests(valid) ensures Carrying(valid, d) == [] {
      DigestsAreComplete(valid, d);
    }
  }

  // ---- one winning digest ---------------------------------------------------------------

  lemma {:induction false} FirstPerMachineThins(es: seq<Envelope>, d: Text)
    ensures |FirstPerMachine(es)| <= |es|
    ensures |Carrying(FirstPerMachine(es), d)| <= |Carrying(es, d)|
  {
    if es != [] {
      var n := |es| - 1;
      FirstPerMachineThins(es[..n], d);
      var kept := FirstPerMachine(es[..n]);
      assert (kept + [es[n]])[..|kept|] == kept;
    }
  }

  /** In whatever order the three machines' replies are looked at, no two orders can win with
      different digests. */
  lemma WinningDigestUnique(es: seq<Envelope>, fs: seq<Envelope>)
    requires multiset(es) == multiset(fs) && |es| <= 3
    ensures var s, t := Select(FirstPerMachine(es)), Select(FirstPerMachine(fs));
      s.digest.Some? && t.digest.Some? ==> s.digest == t.digest
  {
    var s, t := Select(FirstPerMachine(es)), Select(FirstPerMachine(fs));
    SelectIsExact(FirstPerMachine(es));
    SelectIsExact(FirstPerMachine(fs));
    if s.digest.Some? && t.digest.Some? && s.digest != t.digest {
      FirstPerMachineThins(es, s.digest.value);
      FirstPerMachineThins(fs, t.digest.value);
      CarryingIgnoresOrder(es, fs, t.digest.value);
      TwoDigestsShareTheEnvelopes(es, s.digest.value, t.digest.value);
    }
  }

  // ---- one envelope per machine ---------------------------------------------------------

  ghost predicate OnePerMachine(es: seq<Envelope>) {
    forall i, j :: 0 <= i < j < |es| ==> MachineOf(es[i]) != MachineOf(es[j])
  }

  lemma {:induction false} FirstPerMachineDistinct(es: seq<Envelope>)
    ensures OnePerMachine(FirstPerMachine(es))
    ensures forall e :: e in FirstPerMachine(es) ==> e in es
  {
    if es != [] {
      FirstPerMachineDistinct(es[..|es| - 1]);
    }
  }

  lemma {:induction false} FirstPerMachineKeepsDistinct(es: seq<Envelope>)
    requires OnePerMachine(es)
    ensures FirstPerMachine(es) == es
  {
    if es != [] {
      var n := |es| - 1;
      assert es == es[..n] + [es[n]];
      FirstPerMachineKeepsDistinct(es[..n]);
      forall e | e in es[..n] ensures MachineOf(e) != MachineOf(es[n]) {
        var i :| 0 <= i < n && es[i] == e;
      }
    }
  }

  lemma NewMachineGoesLast(before: OrderedMap<Text, Envelope>, m: Text, e: Envelope)
    requires before.Valid() && m !in before.values
    ensures ValuesInOrder(before.Set(m, e)) == ValuesInOrder(before) + [e]
  {
    assert forall k :: k in before.order ==> k in (set x | x in before.order) && k != m;
  }

  lemma {:induction false} RetainedKeepsPlaces(es: seq<Envelope>)
    requires OnePerMachine(es)
    ensures LastPerMachine(es) == es
  {
    hide ValuesInOrder;
    if es == [] {
      NothingRetained();
    } else {
      var n := |es| - 1;
      RetainedKeepsPlaces(es[..n]);
      RetainedByMachine(es[..n]);
      var before := Retained(es[..n]);
      forall k | k in before.values ensures k != MachineOf(es[n]) {
        var i :| 0 <= i < n && es[i] == before.values[k];
      }
      NewMachineGoesLast(before, MachineOf(es[n]), es[n]);
    }
  }

  lemma NothingRetained()
    ensures LastPerMachine([]) == []
  {
  }

  lemma {:induction false} RetainedByMachine(es: seq<Envelope>)
    ensures forall m :: m in Retained(es).values ==>
      Retained(es).values[m] in es && MachineOf(Retained(es).values[m]) == m
  {
    if es != [] {
      RetainedByMachine(es[..|es| - 1]);
      assert forall e :: e in es[..|es| - 1] ==> e in es;
    }
  }

  /** When each machine contributes at most one envelope the three selectors agree. */
  lemma SelectorsAgree(valid: seq<Envelope>)
    requires OnePerMachine(valid)
    ensures Select(FirstPerMachine(valid)) == Select(valid)
    ensures Select(LastPerMachine(valid)) == Select(valid)
  {
    FirstPerMachineKeepsDistinct(valid);
    RetainedKeepsPlaces(valid);
  }

  /** ... and then the order of the envelopes is irrelevant altogether. */
  lemma OrderIrrelevant(es: seq<Envelope>, fs: seq<Envelope>)
    requires OnePerMachine(es) && OnePerMachine(fs) && |es| <= 3
    requires multiset(es) == multiset(fs)
    ensures var s, t := Select(es), Select(fs);
      s.status == t.status && s.digest == t.digest && multiset(s.matching) == multiset(t.matching)
  {
    assert |multiset(es)| == |es| && |multiset(fs)| == |fs|;
    SelectIsExact(es);
    SelectIsExact(fs);
    FirstPerMachineKeepsDistinct(es);
    FirstPerMachineKeepsDistinct(fs);
    WinningDigestUnique(es, fs);
    forall d ensures |Carrying(es, d)| == |Carrying(fs, d)| && multiset(Carrying(es, d)) == multiset(Carrying(fs, d)) {
      CarryingIgnoresOrder(es, fs, d);
    }
  }

  // ---- the demo selector on lists of any length -----------------------------------------

  /** The last envelope of a machine. */
  function Last(es: seq<Envelope>, m: Text): Option<Envelope> {
    if es == [] then None
    else if MachineOf(es[|es| - 1]) == m then Some(es[|es| - 1])
    else Last(es[..|es| - 1], m)
  }

  lemma {:induction false} RetainedIsLast(es: seq<Envelope>)
    ensures forall m :: Retained(es).Get(m) == Last(es, m)
  {
    if es != [] {
      RetainedIsLast(es[..|es| - 1]);
    }
  }

  lemma {:induction false} CarryingOne(es: seq<Envelope>, d: Text)
    ensures |Carrying(es, d)| >= 1 <==> exists i :: 0 <= i < |es| && DigestOf(es[i]) == d
  {
    if es != [] {
      var n := |es| - 1;
      CarryingOne(es[..n], d);
      assert forall i :: 0 <= i < n ==> es[..n][i] == es[i];
      if i :| 0 <= i < |es| && DigestOf(es[i]) == d && i != n { assert DigestOf(es[..n][i]) == d; }
    }
  }

  lemma {:induction false} CarryingTwo(es: seq<Envelope>, d: Text)
    ensures |Carrying(es, d)| >= 2
       <==> exists i, j :: 0 <= i < j < |es| && DigestOf(es[i]) == d && DigestOf(es[j]) == d
  {
    if es != [] {
      var n := |es| - 1;
      var front := es[..n];
      CarryingOne(front, d);
      CarryingTwo(front, d);
      assert forall i :: 0 <= i < n ==> front[i] == es[i];
      if i, j :| 0 <= i < j < |es| && DigestOf(es[i]) == d && DigestOf(es[j]) == d {
        assert DigestOf(front[i]) == d;
        if j < n { assert DigestOf(front[j]) == d; }
      }
    }
  }

  /** The retained envelopes of two different machines share a digest. */
  ghost predicate TwoMachinesAgree(valid: seq<Envelope>, m: Text, n: Text) {
    && m != n
    && Last(valid, m).Some? && Last(valid, n).Some?
    && DigestOf(Last(valid, m).value) == DigestOf(Last(valid, n).value)
  }

  lemma LastPerMachineAt(valid: seq<Envelope>, i: nat)
    requires i < |LastPerMachine(valid)|
    ensures Last(valid, Retained(valid).order[i]) == Some(LastPerMachine(valid)[i])
  {
    var r := Retained(valid);
    RetainedIsLast(valid);
    assert r.order[i] in (set k | k in r.order);
    assert r.Get(r.order[i]) == Last(valid, r.order[i]);
  }

  lemma LastPerMachineHas(valid: seq<Envelope>, m: Text) returns (i: nat)
    requires Last(valid, m).Some?
    ensures i < |LastPerMachine(valid)| && Retained(valid).order[i] == m
    ensures LastPerMachine(valid)[i] == Last(valid, m).value
  {
    var r := Retained(valid);
    RetainedIsLast(valid);
    assert r.Get(m) == Last(valid, m);
    assert m in (set k | k in r.order);
    i :| 0 <= i < |r.order| && r.order[i] == m;
  }

  lemma AgreeingMachinesMakeReady(valid: seq<Envelope>, m: Text, n: Text)
    requires TwoMachinesAgree(valid, m, n)
    ensures Select(LastPerMachine(valid)).status == THRESHOLD_READY
  {
    hide Carrying, Digests, FirstReady;
    var unique := LastPerMachine(valid);
    SelectIsExact(unique);
    var i := LastPerMachineHas(valid, m);
    var j := LastPerMachineHas(valid, n);
    var d := DigestOf(Last(valid, m).value);
    CarryingTwo(unique, d);
    assert DigestOf(unique[i]) == d && DigestOf(unique[j]) == d;
    assert i < j || j < i;
  }

  lemma ReadyHasAgreeingMachines(valid: seq<Envelope>) returns (m: Text, n: Text)
    requires Select(LastPerMachine(valid)).status == THRESHOLD_READY
    ensures TwoMachinesAgree(valid, m, n)
  {
    hide Carrying, Digests, FirstReady;
    var unique := LastPerMachine(valid);
    SelectIsExact(unique);
    var d := Select(unique).digest.value;
    CarryingTwo(unique, d);
    var i, j :| 0 <= i < j < |unique| && DigestOf(unique[i]) == d && DigestOf(unique[j]) == d;
    LastPerMachineAt(valid, i);
    LastPerMachineAt(valid, j);
    m, n := Retained(valid).order[i], Retained(valid).order[j];
  }

  /** For lists of any length the demo selector is ready exactly when the last envelopes of two
      different machines share a digest, so one machine alone never makes it ready. */
  lemma DemoReadyNeedsTwoMachines(valid: seq<Envelope>)
    ensures Select(LastPerMachine(valid)).status == THRESHOLD_READY <==> exists m, n :: TwoMachinesAgree(valid, m, n)
  {
    hide TwoMachinesAgree;
    if Select(LastPerMachine(valid)).status == THRESHOLD_READY {
      var m, n := ReadyHasAgreeingMachines(valid);
    }
    if m, n :| TwoMachinesAgree(valid, m, n) {
      AgreeingMachinesMakeReady(valid, m, n);
    }
  }

  // ---- the selection, envelope by envelope ----------------------------------------------

  /** The places, in order, at which the envelopes carry the digest. */
  ghost predicate ArePlacesOf(es: seq<Envelope>, d: Text, places: seq<nat>) {
    && (forall k, l :: 0 <= k < l < |places| ==> places[k] < places[l])
    && (forall i: nat :: i in places <==> i < |es| && ToLower(es[i].digest) == d)
  }

  lemma PlacesOfMore(es: seq<Envelope>, d: Text, places: seq<nat>)
    requires es != [] && ArePlacesOf(es[..|es| - 1], d, places)
    ensures ArePlacesOf(es, d, if DigestOf(es[|es| - 1]) == d then places + [|es| - 1] else places)
  {
    hide ToLower;
    var n := |es| - 1;
    assert forall k :: 0 <= k < |places| ==> places[k] in places;
    assert forall i: nat :: i in places + [n] <==> i in places || i == n;
    assert forall i: nat :: i < n ==> es[..n][i] == es[i];
  }

  /** The envelopes of a digest keep their order. */
  lemma {:induction false} CarryingInOrder(es: seq<Envelope>, d: Text) returns (places: seq<nat>)
    ensures ArePlacesOf(es, d, places) && |places| == |Carrying(es, d)|
    ensures forall k :: 0 <= k < |places| ==> places[k] < |es| && Carrying(es, d)[k] == es[places[k]]
  {
    hide ArePlacesOf, ToLower;
    if es == [] {
      places := [];
      assert ArePlacesOf([], d, []) by { NoPlaces(d); }
    } else {
      var n := |es| - 1;
      places := CarryingInOrder(es[..n], d);
      PlacesOfMore(es, d, places);
      assert forall k :: 0 <= k < |places| ==> es[..n][places[k]] == es[places[k]];
      if DigestOf(es[n]) == d { places := places + [n]; }
    }
  }

  lemma NoPlaces(d: Text)
    ensures ArePlacesOf([], d, [])
  {
  }

  lemma {:induction false} DigestsAreThere(es: seq<Envelope>)
    ensures forall d :: d in Digests(es) <==> exists i :: 0 <= i < |es| && DigestOf(es[i]) == d
  {
    if es != [] {
      var n := |es| - 1;
      DigestsAreThere(es[..n]);
      assert forall i :: 0 <= i < n ==> es[..n][i] == es[i];
      forall d ensures d in Digests(es) <==> exists i :: 0 <= i < |es| && DigestOf(es[i]) == d {
        assert d in Digests(es) <==> d in Digests(es[..n]) || d == DigestOf(es[n]);
        if d in Digests(es[..n]) {
          var i :| 0 <= i < n && DigestOf(es[..n][i]) == d;
          assert DigestOf(es[i]) == d;
        }
        if i :| 0 <= i < |es| && DigestOf(es[i]) == d {
          assert i < n ==> DigestOf(es[..n][i]) == d;
        }
      }
    }
  }

  /** Of two digests in the list, the first has appeared before the second does. */
  lemma {:induction false} FirstAppearance(es: seq<Envelope>, a: nat, b: nat) returns (i: nat)
    requires a < b < |Digests(es)|
    ensures i < |es| && DigestOf(es[i]) == Digests(es)[a]
    ensures forall j :: 0 <= j <= i ==> DigestOf(es[j]) != Digests(es)[b]
  {
    var n := |es| - 1;
    if b < |Digests(es[..n])| {
      i := FirstAppearance(es[..n], a, b);
      assert forall j :: 0 <= j <= i ==> es[..n][j] == es[j];
    } else {
      DigestsAreThere(es[..n]);
      assert Digests(es[..n])[a] in Digests(es[..n]);
      i :| 0 <= i < n && DigestOf(es[..n][i]) == Digests(es)[a];
      forall j | 0 <= j <= i ensures DigestOf(es[j]) != Digests(es)[b] {
        assert DigestOf(es[..n][j]) in Digests(es[..n]);
      }
    }
  }

  lemma {:induction false} FirstReadyIsFirst(ds: seq<Text>, es: seq<Envelope>) returns (k: nat)
    requires FirstReady(ds, es).Some?
    ensures k < |ds| && ds[k] == FirstReady(ds, es).value && |Carrying(es, ds[k])| >= 2
    ensures forall j :: 0 <= j < k ==> |Carrying(es, ds[j])| < 2
  {
    if |Carrying(es, ds[0])| >= 2 {
      k := 0;
    } else {
      var rest := FirstReadyIsFirst(ds[1..], es);
      k := rest + 1;
      forall j | 0 <= j < k ensures |Carrying(es, ds[j])| < 2 {
        assert j > 0 ==> ds[j] == ds[1..][j - 1];
      }
    }
  }

  /** No envelope before the first one of the selected digest has a digest that is repeated. */
  lemma SelectedComesFirst(valid: seq<Envelope>, i: nat, j: nat)
    requires i < j < |valid| && DigestOf(valid[i]) == DigestOf(valid[j])
    ensures Select(valid).digest.Some?
    ensures exists k :: 0 <= k <= i && DigestOf(valid[k]) == Select(valid).digest.value
  {
    hide Carrying, Digests, FirstReady;
    var ds, d := Digests(valid), DigestOf(valid[i]);
    CarryingTwo(valid, d);
    DigestsAreThere(valid);
    FirstReadyFinds(ds, valid);
    var k := FirstReadyIsFirst(ds, valid);
    var l :| 0 <= l < |ds| && ds[l] == d;
    if k < l {
      var first := FirstAppearance(valid, k, l);
    }
  }

  /** What is selected, in terms of the envelopes alone: ready means that two of them carry one digest,
      and then it is the one of the first envelope whose digest is repeated, with all the envelopes
      that carry it, in order; otherwise nothing is selected, and one envelope or none makes the
      evaluation unavailable, more make it split. */
  lemma SelectionTells(valid: seq<Envelope>) returns (places: seq<nat>)
    ensures var s := Select(valid);
      && s.valid == valid
      && (s.status == THRESHOLD_READY <==>
            exists i, j :: 0 <= i < j < |valid| && DigestOf(valid[i]) == DigestOf(valid[j]))
      && (s.status != THRESHOLD_READY ==>
            s.digest == None && s.matching == [] && (s.status == UNAVAILABLE <==> |valid| < 2))
      && (s.status == THRESHOLD_READY ==>
            && s.digest.Some? && |places| == |s.matching| >= 2
            && ArePlacesOf(valid, s.digest.value, places)
            && (forall k :: 0 <= k < |places| ==> places[k] < |valid| && s.matching[k] == valid[places[k]])
            && forall i, j :: 0 <= i < j < |valid| && DigestOf(valid[i]) == DigestOf(valid[j]) ==> places[0] <= i)
  {
    hide Carrying, Digests, FirstReady;
    var s := Select(valid);
    SelectIsExact(valid);
    places := [];
    forall i, j | 0 <= i < j < |valid| && DigestOf(valid[i]) == DigestOf(valid[j])
      ensures s.digest.Some? && exists k :: 0 <= k <= i && DigestOf(valid[k]) == s.digest.value
    {
      SelectedComesFirst(valid, i, j);
    }
    if s.status == THRESHOLD_READY {
      CarryingTwo(valid, s.digest.value);
      places := CarryingInOrder(valid, s.digest.value);
      forall i, j | 0 <= i < j < |valid| && DigestOf(valid[i]) == DigestOf(valid[j]) ensures places[0] <= i {
        var k :| 0 <= k <= i && DigestOf(valid[k]) == s.digest.value;
        assert k in places;
        var l :| 0 <= l < |places| && places[l] == k;
      }
    }
  }
}
