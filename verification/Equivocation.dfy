/** When the order of the replies decides.  The relay keeps the first envelope of a machine, in the
    order of its three descriptors; a machine that signed two digests can be kept with either,
    depending on which descriptor's call returned which of its envelopes. */
module Equivocation {
  import opened Outcomes
  import opened Texts
  import opened Sequences
  import opened Protocol
  import opened Threshold
  import opened Evaluation

  // ---- on envelopes ---------------------------------------------------------------------

  /** One machine signed two digests, and another machine signed the first of them. */
  ghost predicate Sways(x: Envelope, y: Envelope, z: Envelope) {
    MachineOf(x) == MachineOf(y) != MachineOf(z) && DigestOf(y) != DigestOf(x) == DigestOf(z)
  }

  ghost predicate Swayed(es: seq<Envelope>) {
    exists x, y, z :: x in es && y in es && z in es && Sways(x, y, z)
  }

  /** The selections have the same status and digest. */
  predicate SameEnd(s: Selection, t: Selection) { s.status == t.status && s.digest == t.digest }

  ghost predicate OrderFree(es: seq<Envelope>) {
    forall fs :: multiset(fs) == multiset(es) ==> SameEnd(Select(FirstPerMachine(es)), Select(FirstPerMachine(fs)))
  }

  /** Two machines carry the digest. */
  ghost predicate TwoCarry(es: seq<Envelope>, d: Text) {
    exists x, z :: x in es && z in es && MachineOf(x) != MachineOf(z) && DigestOf(x) == d == DigestOf(z)
  }

  lemma {:induction false} EveryMachineIsKept(es: seq<Envelope>)
    ensures MachinesOf(FirstPerMachine(es)) == MachinesOf(es)
  {
    if es != [] {
      var n := |es| - 1;
      EveryMachineIsKept(es[..n]);
      assert es == es[..n] + [es[n]];
      KeptExtends(es[..n], es[n]);
      assert MachinesOf(es) == MachinesOf(es[..n]) + {MachineOf(es[n])};
    }
  }

  lemma {:induction false} OnePerMachineCounts(es: seq<Envelope>)
    requires OnePerMachine(es)
    ensures |es| == |MachinesOf(es)|
  {
    if es != [] {
      var n := |es| - 1;
      OnePerMachineCounts(es[..n]);
      assert es == es[..n] + [es[n]];
      assert MachinesOf(es) == MachinesOf(es[..n]) + {MachineOf(es[n])};
      assert MachineOf(es[n]) !in MachinesOf(es[..n]);
    }
  }

  /** The kept envelope of a machine. */
  lemma KeptOf(es: seq<Envelope>, e: Envelope) returns (k: Envelope)
    requires e in es
    ensures k in FirstPerMachine(es) && k in es && MachineOf(k) == MachineOf(e)
  {
    EveryMachineIsKept(es);
    FirstPerMachineDistinct(es);
    assert MachineOf(e) in MachinesOf(FirstPerMachine(es));
    k :| k in FirstPerMachine(es) && MachineOf(k) == MachineOf(e);
  }

  lemma CarriersMakeReady(kept: seq<Envelope>, x: Envelope, z: Envelope)
    requires x in kept && z in kept && MachineOf(x) != MachineOf(z) && DigestOf(x) == DigestOf(z)
    ensures Select(kept).digest.Some?
  {
    SelectIsExact(kept);
    var i :| 0 <= i < |kept| && kept[i] == x;
    var j :| 0 <= j < |kept| && kept[j] == z;
    CarryingTwo(kept, DigestOf(x));
    assert i < j || j < i;
  }

  /** A selected digest is carried by two machines. */
  lemma ReadyHasCarriers(es: seq<Envelope>)
    requires Select(FirstPerMachine(es)).digest.Some?
    ensures TwoCarry(es, Select(FirstPerMachine(es)).digest.value)
  {
    SelectIsExact(FirstPerMachine(es));
    ReadyPair(es);
    var s := Select(FirstPerMachine(es));
    assert s.matching[0] in es && s.matching[1] in es;
  }

  lemma CarriedTwiceOfThree(es: seq<Envelope>, c: Text, d: Text)
    requires |es| <= 3 && TwoCarry(es, c) && TwoCarry(es, d)
    ensures c == d
  {
    if c != d {
      TwoCarryTwo(es, c);
      TwoCarryTwo(es, d);
      TwoDigestsShareTheEnvelopes(es, c, d);
    }
  }

  lemma TwoCarryTwo(es: seq<Envelope>, d: Text)
    requires TwoCarry(es, d)
    ensures |Carrying(es, d)| >= 2
  {
    var x, z :| x in es && z in es && MachineOf(x) != MachineOf(z) && DigestOf(x) == d == DigestOf(z);
    var i :| 0 <= i < |es| && es[i] == x;
    var j :| 0 <= j < |es| && es[j] == z;
    CarryingTwo(es, d);
    assert i < j || j < i;
  }

  lemma UnswayedCarriersMakeReady(es: seq<Envelope>, d: Text)
    requires !Swayed(es) && TwoCarry(es, d)
    ensures Select(FirstPerMachine(es)).digest.Some?
  {
    hide Select, FirstPerMachine;
    var x, z :| x in es && z in es && MachineOf(x) != MachineOf(z) && DigestOf(x) == d == DigestOf(z);
    var a := KeptOf(es, x);
    var b := KeptOf(es, z);
    assert !Sways(x, a, z) && !Sways(z, b, x);
    CarriersMakeReady(FirstPerMachine(es), a, b);
  }

  /** Unswayed, the selection is what two machines agree on, whichever envelope of each is kept. */
  lemma UnswayedSelection(es: seq<Envelope>, d: Text)
    requires |es| <= 3 && !Swayed(es)
    ensures Select(FirstPerMachine(es)).digest == Some(d) <==> TwoCarry(es, d)
  {
    hide Select, FirstPerMachine, TwoCarry, Swayed;
    if TwoCarry(es, d) {
      UnswayedCarriersMakeReady(es, d);
      ReadyHasCarriers(es);
      CarriedTwiceOfThree(es, d, Select(FirstPerMachine(es)).digest.value);
    }
    if Select(FirstPerMachine(es)).digest == Some(d) {
      ReadyHasCarriers(es);
    }
  }

  lemma StatusOfKept(es: seq<Envelope>)
    ensures var s := Select(FirstPerMachine(es));
      s.status == if s.digest.Some? then THRESHOLD_READY else if |MachinesOf(es)| < 2 then UNAVAILABLE else SPLIT
  {
    EveryMachineIsKept(es);
    FirstPerMachineDistinct(es);
    OnePerMachineCounts(FirstPerMachine(es));
  }

  lemma UnswayedIsOrderFree(es: seq<Envelope>, fs: seq<Envelope>)
    requires |es| <= 3 && !Swayed(es) && multiset(fs) == multiset(es)
    ensures SameEnd(Select(FirstPerMachine(es)), Select(FirstPerMachine(fs)))
  {
    hide Select, FirstPerMachine, Sways;
    assert forall e :: e in fs <==> e in multiset(es);
    assert forall e :: e in es <==> e in multiset(es);
    assert |fs| == |multiset(fs)| == |multiset(es)| == |es|;
    assert !Swayed(fs) && MachinesOf(fs) == MachinesOf(es);
    var s, t := Select(FirstPerMachine(es)), Select(FirstPerMachine(fs));
    forall d ensures s.digest == Some(d) <==> t.digest == Some(d) {
      UnswayedSelection(es, d);
      UnswayedSelection(fs, d);
    }
    assert s.digest.Some? ==> t.digest == Some(s.digest.value);
    assert t.digest.Some? ==> s.digest == Some(t.digest.value);
    StatusOfKept(es);
    StatusOfKept(fs);
  }

  lemma FirstOfThree(x: Envelope, y: Envelope, z: Envelope)
    requires MachineOf(x) == MachineOf(y) != MachineOf(z)
    ensures FirstPerMachine([x, y, z]) == [x, z]
  {
    assert [x][..0] == [] && [x, y][..1] == [x] && [x, y, z][..2] == [x, y];
    assert FirstPerMachine([x]) == [x];
    assert FirstPerMachine([x, y]) == [x] by { assert MachineOf([x][0]) == MachineOf(y); }
  }

  lemma CarryingPair(x: Envelope, z: Envelope, d: Text)
    ensures |Carrying([x, z], d)| == (if DigestOf(x) == d then 1 else 0) + (if DigestOf(z) == d then 1 else 0)
  {
    assert [x, z][..1] == [x] && [x][..0] == [];
    assert Carrying([x], d) == if DigestOf(x) == d then [x] else [];
  }

  lemma SelectPair(x: Envelope, z: Envelope)
    ensures Select([x, z]).digest == if DigestOf(x) == DigestOf(z) then Some(DigestOf(x)) else None
    ensures Select([x, z]).status == if DigestOf(x) == DigestOf(z) then THRESHOLD_READY else SPLIT
  {
    hide Carrying, FirstReady, Digests;
    SelectIsExact([x, z]);
    CarryingPair(x, z, DigestOf(x));
    forall d ensures |Carrying([x, z], d)| >= 2 <==> DigestOf(x) == d == DigestOf(z) {
      CarryingPair(x, z, d);
    }
  }

  /** An equivocating machine whose one digest another machine carries: kept with that digest the
      selection is ready, kept with the other it is split. */
  lemma EquivocationDecides(x: Envelope, y: Envelope, z: Envelope)
    requires Sways(x, y, z)
    ensures Select(FirstPerMachine([x, y, z])).status == THRESHOLD_READY
    ensures Select(FirstPerMachine([y, x, z])).status == SPLIT
  {
    FirstOfThree(x, y, z);
    FirstOfThree(y, x, z);
    SelectPair(x, z);
    SelectPair(y, z);
  }

  lemma ThreeAreAll(es: seq<Envelope>, x: Envelope, y: Envelope, z: Envelope)
    requires |es| <= 3 && x in es && y in es && z in es && x != y && x != z && y != z
    ensures multiset(es) == multiset{x, y, z}
  {
    var m := multiset(es);
    assert multiset{x, y, z} <= m;
    assert |m - multiset{x, y, z}| == |m| - 3 <= 0;
    assert m == (m - multiset{x, y, z}) + multiset{x, y, z};
  }

  /** Of at most three envelopes the order is irrelevant to first-wins selection if and only if
      there is no machine with two digests one of which another machine carries. */
  lemma OrderMattersExactly(es: seq<Envelope>)
    requires |es| <= 3
    ensures OrderFree(es) <==> !Swayed(es)
  {
    hide Select, FirstPerMachine;
    if Swayed(es) {
      var x, y, z :| x in es && y in es && z in es && Sways(x, y, z);
      ThreeAreAll(es, x, y, z);
      EquivocationDecides(x, y, z);
      assert multiset([x, y, z]) == multiset(es) && multiset([y, x, z]) == multiset(es);
      assert !SameEnd(Select(FirstPerMachine([x, y, z])), Select(FirstPerMachine([y, x, z])));
    } else {
      forall fs | multiset(fs) == multiset(es)
        ensures SameEnd(Select(FirstPerMachine(es)), Select(FirstPerMachine(fs)))
      {
        UnswayedIsOrderFree(es, fs);
      }
    }
  }

  // ---- on replies -----------------------------------------------------------------------

  /** A settled call and the clock reading it is judged at. */
  datatype Judged = Judged(reply: Reply, now: int)

  function RepliesOf(js: seq<Judged>): seq<Reply> { seq(|js|, i requires 0 <= i < |js| => js[i].reply) }

  function NowsOf(js: seq<Judged>): seq<int> { seq(|js|, i requires 0 <= i < |js| => js[i].now) }

  /** The valid envelopes of the settled calls. */
  function Kept(
    p: Primitives, request: ActionRequest, machines: seq<MachineDescriptor>, js: seq<Judged>): seq<Envelope> {
    ValidReplies(p, request, machines, RepliesOf(js), NowsOf(js))
  }

  /** The outcome of the settled calls. */
  function Ending(p: Primitives, request: ActionRequest, machines: seq<MachineDescriptor>, js: seq<Judged>): Selection {
    OutcomeOf(p, request, machines, RepliesOf(js), NowsOf(js)).selection
  }

  function KeptOne(p: Primitives, request: ActionRequest, machines: seq<MachineDescriptor>, j: Judged): seq<Envelope> {
    if Counts(p, request, machines, j.reply, j.now) then [j.reply.envelope] else []
  }

  lemma KeptLast(p: Primitives, request: ActionRequest, machines: seq<MachineDescriptor>, js: seq<Judged>, j: Judged)
    ensures Kept(p, request, machines, js + [j]) == Kept(p, request, machines, js) + KeptOne(p, request, machines, j)
  {
    hide Counts;
    assert RepliesOf(js + [j])[..|js|] == RepliesOf(js) && NowsOf(js + [j])[..|js|] == NowsOf(js);
  }

  lemma {:induction false} KeptSplits(
    p: Primitives, request: ActionRequest, machines: seq<MachineDescriptor>, a: seq<Judged>, b: seq<Judged>)
    ensures Kept(p, request, machines, a + b) == Kept(p, request, machines, a) + Kept(p, request, machines, b)
  {
    hide Kept;
    if b == [] {
      assert a + b == a;
      NothingKeptOfNone(p, request, machines);
    } else {
      var n := |b| - 1;
      KeptSplits(p, request, machines, a, b[..n]);
      KeptLast(p, request, machines, a + b[..n], b[n]);
      KeptLast(p, request, machines, b[..n], b[n]);
      assert a + b == (a + b[..n]) + [b[n]] && b == b[..n] + [b[n]];
    }
  }

  lemma NothingKeptOfNone(p: Primitives, request: ActionRequest, machines: seq<MachineDescriptor>)
    ensures Kept(p, request, machines, []) == []
  {
  }

  lemma KeptAround(
    p: Primitives, request: ActionRequest, machines: seq<MachineDescriptor>, a: seq<Judged>, j: Judged, b: seq<Judged>)
    ensures multiset(Kept(p, request, machines, a + [j] + b))
         == multiset(Kept(p, request, machines, a + b)) + multiset(KeptOne(p, request, machines, j))
  {
    hide Kept, KeptOne;
    KeptLast(p, request, machines, a, j);
    KeptSplits(p, request, machines, a + [j], b);
    KeptSplits(p, request, machines, a, b);
  }

  /** Reordering the settled calls reorders the valid envelopes. */
  lemma {:induction false} SameKept(
    p: Primitives, request: ActionRequest, machines: seq<MachineDescriptor>, js: seq<Judged>, ks: seq<Judged>)
    requires multiset(js) == multiset(ks)
    ensures multiset(Kept(p, request, machines, js)) == multiset(Kept(p, request, machines, ks))
    decreases |js|
  {
    hide Kept, KeptOne;
    if js == [] {
      assert |multiset(ks)| == |ks| == 0;
    } else {
      var n := |js| - 1;
      var a, b := TakeOut(js, ks);
      SameKept(p, request, machines, js[..n], a + b);
      KeptAround(p, request, machines, a, js[n], b);
      assert js == js[..n] + [js[n]] + [] && js[..n] + [] == js[..n];
      KeptAround(p, request, machines, js[..n], js[n], []);
    }
  }

  lemma {:induction false} KeptIsOfSome(
    p: Primitives, request: ActionRequest, machines: seq<MachineDescriptor>, js: seq<Judged>,
    e: Envelope) returns (i: nat)
    requires e in Kept(p, request, machines, js)
    ensures i < |js| && KeptOne(p, request, machines, js[i]) == [e]
  {
    hide Kept, Counts;
    if js == [] {
      NothingKeptOfNone(p, request, machines);
    } else {
      var n := |js| - 1;
      assert js == js[..n] + [js[n]];
      KeptLast(p, request, machines, js[..n], js[n]);
      if e in KeptOne(p, request, machines, js[n]) {
        i := n;
      } else {
        i := KeptIsOfSome(p, request, machines, js[..n], e);
      }
    }
  }

  /** Every reordering of the valid envelopes comes from one of the settled calls. */
  lemma {:induction false} ReorderCalls(
    p: Primitives, request: ActionRequest, machines: seq<MachineDescriptor>, js: seq<Judged>, fs: seq<Envelope>)
    returns (ks: seq<Judged>)
    requires multiset(fs) == multiset(Kept(p, request, machines, js))
    ensures multiset(ks) == multiset(js) && Kept(p, request, machines, ks) == fs
    decreases |fs|
  {
    hide Kept, KeptOne;
    if fs == [] {
      ks := js;
      assert |multiset(Kept(p, request, machines, js))| == |Kept(p, request, machines, js)| == 0;
    } else {
      var n := |fs| - 1;
      var f := fs[n];
      assert fs == fs[..n] + [f];
      assert f in multiset(fs);
      var i := KeptIsOfSome(p, request, machines, js, f);
      var a, b := js[..i], js[i + 1..];
      assert js == a + [js[i]] + b;
      KeptAround(p, request, machines, a, js[i], b);
      assert multiset(fs[..n]) == multiset(fs) - multiset{f};
      assert multiset(Kept(p, request, machines, a + b)) == multiset(fs[..n]);
      var rest := ReorderCalls(p, request, machines, a + b, fs[..n]);
      ks := rest + [js[i]];
      KeptLast(p, request, machines, rest, js[i]);
      assert multiset(ks) == multiset(a + b) + multiset{js[i]} == multiset(js);
    }
  }

  /** The settled calls can be put in any order without changing how the evaluation ends. */
  ghost predicate ReplyOrderFree(
    p: Primitives, request: ActionRequest, machines: seq<MachineDescriptor>, js: seq<Judged>)
  {
    forall ks :: multiset(ks) == multiset(js) ==>
      SameEnd(Ending(p, request, machines, js), Ending(p, request, machines, ks))
  }

  /** Of three settled calls, which descriptor's call returned which envelope is irrelevant if and
      only if no machine among the valid envelopes signed two digests one of which another carries. */
  lemma ReplyOrderMattersExactly(
    p: Primitives, request: ActionRequest, machines: seq<MachineDescriptor>, js: seq<Judged>)
    requires |js| <= 3
    ensures ReplyOrderFree(p, request, machines, js) <==> !Swayed(Kept(p, request, machines, js))
  {
    hide Select, FirstPerMachine, ValidReplies, Swayed;
    var es := Kept(p, request, machines, js);
    OrderMattersExactly(es);
    if OrderFree(es) {
      forall ks | multiset(ks) == multiset(js)
        ensures SameEnd(Ending(p, request, machines, js), Ending(p, request, machines, ks))
      {
        SameKept(p, request, machines, js, ks);
      }
    } else {
      var fs :| multiset(fs) == multiset(es) && !SameEnd(Select(FirstPerMachine(es)), Select(FirstPerMachine(fs)));
      var ks := ReorderCalls(p, request, machines, js, fs);
      assert !SameEnd(Ending(p, request, machines, js), Ending(p, request, machines, ks));
    }
  }

  lemma KeptThree(
    p: Primitives, request: ActionRequest, machines: seq<MachineDescriptor>, x: Envelope, y: Envelope, z: Envelope,
    now: int)
    requires IsValidEnvelope(p, x, request, machines, now) && IsValidEnvelope(p, y, request, machines, now)
    requires IsValidEnvelope(p, z, request, machines, now)
    ensures var a, b, c := Judged(Replied(x), now), Judged(Replied(y), now), Judged(Replied(z), now);
      Kept(p, request, machines, [a, b, c]) == [x, y, z]
  {
    hide IsValidEnvelope, Kept;
    var a, b, c := Judged(Replied(x), now), Judged(Replied(y), now), Judged(Replied(z), now);
    NothingKeptOfNone(p, request, machines);
    KeptLast(p, request, machines, [], a);
    KeptLast(p, request, machines, [a], b);
    KeptLast(p, request, machines, [a, b], c);
    assert [] + [a] == [a] && [a] + [b] == [a, b] && [a, b] + [c] == [a, b, c];
  }

  /** Three replies that all pass validation: two of a machine that signed two digests, and one of
      another machine over the first.  The first descriptor's call returning the one or the other
      of the two decides how the evaluation ends. */
  lemma EquivocationAtTheRelay(
    p: Primitives, request: ActionRequest, machines: seq<MachineDescriptor>, x: Envelope, y: Envelope, z: Envelope,
    now: int)
    requires Sways(x, y, z)
    requires IsValidEnvelope(p, x, request, machines, now) && IsValidEnvelope(p, y, request, machines, now)
    requires IsValidEnvelope(p, z, request, machines, now)
    ensures var a, b, c := Judged(Replied(x), now), Judged(Replied(y), now), Judged(Replied(z), now);
      && Ending(p, request, machines, [a, b, c]).status == THRESHOLD_READY
      && Ending(p, request, machines, [b, a, c]).status == SPLIT
  {
    hide IsValidEnvelope, Select, FirstPerMachine, ValidReplies;
    KeptThree(p, request, machines, x, y, z, now);
    KeptThree(p, request, machines, y, x, z, now);
    EquivocationDecides(x, y, z);
  }
}
