/** The coalescing key of apps/relay/src/relay.ts: the hash of a nested JSON text. */
module EvaluationKey {
  import opened Outcomes
  import opened Texts
  import opened Json
  import opened Protocol

  // ---- the key as the relay computes it -------------------------------------------------

  function BigText(n: int): Value { Str(PrintInt(n)) }

  function FtsoTree(ftso: Option<FtsoSnapshot>): Value {
    match ftso
    case None => Null
    case Some(f) =>
      List([Str(ToLower(f.feedId)), BigText(f.value), Num(f.decimals), BigText(f.timestamp),
            Str(ToLower(f.checkpoint))])
  }

  function EntryTree(p: Primitives, entry: HistoryEntry): Value {
    List([Str(p.requestHash(entry.request)), BigText(entry.accountedAt), FtsoTree(entry.ftso)])
  }

  function HistoryTrees(p: Primitives, history: seq<HistoryEntry>): seq<Value> {
    seq(|history|, i requires 0 <= i < |history| => EntryTree(p, history[i]))
  }

  function Href(p: Primitives, endpoint: Text): Text {
    match p.parseUrl(endpoint)
    case None => endpoint
    case Some(url) => url.href
  }

  function MachineTree(p: Primitives, m: MachineDescriptor): Value {
    List([Str(ToLower(m.machineId)), Str(ToLower(m.keyFingerprint)),
          Str(ToLower(GetAddress(p, m.signer))), Str(Href(p, m.endpoint))])
  }

  function MachineTrees(p: Primitives, machines: seq<MachineDescriptor>): seq<Value> {
    seq(|machines|, i requires 0 <= i < |machines| => MachineTree(p, machines[i]))
  }

  datatype Call = Call(request: ActionRequest, state: SpendState, machines: seq<MachineDescriptor>)

  /** The elements of the array that is printed. */
  function PublicFields(p: Primitives, call: Call): seq<Value> {
    var s := call.state;
    [Str(p.requestHash(call.request)),
     BigText(s.availableBalance),
     List(HistoryTrees(p, s.history)),
     Num(s.occurrenceCount),
     BigText(s.lastAccountingAt),
     Str(ToLower(s.spendCheckpoint)),
     Str(ToLower(s.balanceCheckpoint)),
     BigText(s.now),
     FtsoTree(s.ftso),
     List(MachineTrees(p, call.machines))]
  }

  function PublicState(p: Primitives, call: Call): Value { List(PublicFields(p, call)) }

  function Key(p: Primitives, call: Call): Text {
    p.keccak(Print(PublicState(p, call)))
  }

  // ---- what the key identifies ----------------------------------------------------------

  function NormalFtso(ftso: Option<FtsoSnapshot>): Option<FtsoSnapshot> {
    match ftso
    case None => None
    case Some(f) => Some(f.(feedId := ToLower(f.feedId), checkpoint := ToLower(f.checkpoint)))
  }

  function NormalEntry(e: HistoryEntry): HistoryEntry {
    HistoryEntry(NormalRequest(e.request), e.accountedAt, NormalFtso(e.ftso), None)
  }

  function NormalHistory(history: seq<HistoryEntry>): seq<HistoryEntry> {
    seq(|history|, i requires 0 <= i < |history| => NormalEntry(history[i]))
  }

  function NormalMachine(p: Primitives, m: MachineDescriptor): MachineDescriptor {
    MachineDescriptor(ToLower(m.machineId), ToLower(m.keyFingerprint),
                      ToLower(GetAddress(p, m.signer)), Href(p, m.endpoint))
  }

  function NormalMachines(p: Primitives, machines: seq<MachineDescriptor>): seq<MachineDescriptor> {
    seq(|machines|, i requires 0 <= i < |machines| => NormalMachine(p, machines[i]))
  }

  /** The call up to letter case and URL spelling, without its FDC facts. */
  function NormalCall(p: Primitives, call: Call): Call {
    var s := call.state;
    Call(NormalRequest(call.request),
         s.(history := NormalHistory(s.history),
            spendCheckpoint := ToLower(s.spendCheckpoint),
            balanceCheckpoint := ToLower(s.balanceCheckpoint), ftso := NormalFtso(s.ftso), fdc := None),
         NormalMachines(p, call.machines))
  }

  lemma PrintIntInjective(m: int, n: int)
    ensures PrintInt(m) == PrintInt(n) ==> m == n
  {
    if PrintInt(m) == PrintInt(n) {
      var a, b := if m < 0 then -m else m, if n < 0 then -n else n;
      PrintNatRoundTrip(a);
      PrintNatRoundTrip(b);
      assert (m < 0) == (n < 0);
      assert m < 0 ==> PrintInt(m)[1..] == PrintNat(-m) && PrintInt(n)[1..] == PrintNat(-n);
    }
  }

  lemma FtsoTreeIdentifies(f: Option<FtsoSnapshot>, g: Option<FtsoSnapshot>)
    ensures FtsoTree(f) == FtsoTree(g) <==> NormalFtso(f) == NormalFtso(g)
    ensures Flat(FtsoTree(f))
  {
    if f.Some? {
      ListIsFlat([Str(ToLower(f.value.feedId)), BigText(f.value.value), Num(f.value.decimals),
                  BigText(f.value.timestamp), Str(ToLower(f.value.checkpoint))]);
      if g.Some? {
        PrintIntInjective(f.value.value, g.value.value);
        PrintIntInjective(f.value.timestamp, g.value.timestamp);
        ListInjective(
          [Str(ToLower(f.value.feedId)), BigText(f.value.value), Num(f.value.decimals),
           BigText(f.value.timestamp), Str(ToLower(f.value.checkpoint))],
          [Str(ToLower(g.value.feedId)), BigText(g.value.value), Num(g.value.decimals),
           BigText(g.value.timestamp), Str(ToLower(g.value.checkpoint))]);
      }
    }
  }

  lemma EntryTreeIdentifies(p: Primitives, d: HistoryEntry, e: HistoryEntry)
    requires RequestHashIdentifies(p) && p.encodable(d.request) && p.encodable(e.request)
    ensures EntryTree(p, d) == EntryTree(p, e) <==> NormalEntry(d) == NormalEntry(e)
    ensures Flat(EntryTree(p, d))
  {
    FtsoTreeIdentifies(d.ftso, e.ftso);
    PrintIntInjective(d.accountedAt, e.accountedAt);
    var x := [Str(p.requestHash(d.request)), BigText(d.accountedAt), FtsoTree(d.ftso)];
    var y := [Str(p.requestHash(e.request)), BigText(e.accountedAt), FtsoTree(e.ftso)];
    ListIsFlat(x);
    ListInjective(x, y);
    assert p.requestHash(d.request) == p.requestHash(e.request)
      <==> NormalRequest(d.request) == NormalRequest(e.request);
    assert x == y <==> x[0] == y[0] && x[1] == y[1] && x[2] == y[2];
  }

  lemma MachineTreeIdentifies(p: Primitives, m: MachineDescriptor, n: MachineDescriptor)
    ensures MachineTree(p, m) == MachineTree(p, n) <==> NormalMachine(p, m) == NormalMachine(p, n)
    ensures Flat(MachineTree(p, m))
  {
    var x := [Str(ToLower(m.machineId)), Str(ToLower(m.keyFingerprint)),
              Str(ToLower(GetAddress(p, m.signer))), Str(Href(p, m.endpoint))];
    var y := [Str(ToLower(n.machineId)), Str(ToLower(n.keyFingerprint)),
              Str(ToLower(GetAddress(p, n.signer))), Str(Href(p, n.endpoint))];
    ListIsFlat(x);
    ListInjective(x, y);
    assert x == y <==> x[0] == y[0] && x[1] == y[1] && x[2] == y[2] && x[3] == y[3];
  }

  lemma HistoryIdentifies(p: Primitives, h: seq<HistoryEntry>, k: seq<HistoryEntry>)
    requires RequestHashIdentifies(p)
    requires forall e :: e in h || e in k ==> p.encodable(e.request)
    ensures List(HistoryTrees(p, h)) == List(HistoryTrees(p, k)) <==> NormalHistory(h) == NormalHistory(k)
    ensures Flat(List(HistoryTrees(p, h)))
  {
    var x, y := HistoryTrees(p, h), HistoryTrees(p, k);
    forall i | 0 <= i < |h| ensures Flat(x[i]) { EntryTreeIdentifies(p, h[i], h[i]); }
    ListIsFlat(x);
    ListInjective(x, y);
    if |h| == |k| {
      forall i | 0 <= i < |h| ensures x[i] == y[i] <==> NormalHistory(h)[i] == NormalHistory(k)[i] {
        EntryTreeIdentifies(p, h[i], k[i]);
      }
    } else {
      assert |x| != |y| && |NormalHistory(h)| != |NormalHistory(k)|;
    }
  }

  lemma MachinesIdentify(p: Primitives, m: seq<MachineDescriptor>, n: seq<MachineDescriptor>)
    ensures List(MachineTrees(p, m)) == List(MachineTrees(p, n)) <==> NormalMachines(p, m) == NormalMachines(p, n)
    ensures Flat(List(MachineTrees(p, m)))
  {
    var x, y := MachineTrees(p, m), MachineTrees(p, n);
    forall i | 0 <= i < |m| ensures Flat(x[i]) { MachineTreeIdentifies(p, m[i], m[i]); }
    ListIsFlat(x);
    ListInjective(x, y);
    if |m| == |n| {
      forall i | 0 <= i < |m| ensures x[i] == y[i] <==> NormalMachines(p, m)[i] == NormalMachines(p, n)[i] {
        MachineTreeIdentifies(p, m[i], n[i]);
      }
    } else {
      assert |x| != |y| && |NormalMachines(p, m)| != |NormalMachines(p, n)|;
    }
  }

  /** Hashing the call's requests does not throw. */
  predicate Encodable(p: Primitives, call: Call) {
    p.encodable(call.request) && forall e :: e in call.state.history ==> p.encodable(e.request)
  }

  /** Equality of normal forms, field by field. */
  ghost predicate Agree(p: Primitives, x: Call, y: Call) {
    var s, t := x.state, y.state;
    && NormalRequest(x.request) == NormalRequest(y.request)
    && s.availableBalance == t.availableBalance
    && NormalHistory(s.history) == NormalHistory(t.history)
    && s.occurrenceCount == t.occurrenceCount
    && s.lastAccountingAt == t.lastAccountingAt
    && ToLower(s.spendCheckpoint) == ToLower(t.spendCheckpoint)
    && ToLower(s.balanceCheckpoint) == ToLower(t.balanceCheckpoint)
    && s.now == t.now
    && NormalFtso(s.ftso) == NormalFtso(t.ftso)
    && NormalMachines(p, x.machines) == NormalMachines(p, y.machines)
  }

  lemma FieldsIdentify(p: Primitives, x: Call, y: Call)
    requires RequestHashIdentifies(p) && Encodable(p, x) && Encodable(p, y)
    ensures PublicFields(p, x) == PublicFields(p, y) <==> Agree(p, x, y)
  {
    hide List, PrintInt, ToLower, NormalRequest, FtsoTree, HistoryTrees, MachineTrees, NormalHistory, NormalMachines,
      NormalFtso;
    var u, v := PublicFields(p, x), PublicFields(p, y);
    HistoryIdentifies(p, x.state.history, y.state.history);
    MachinesIdentify(p, x.machines, y.machines);
    FtsoTreeIdentifies(x.state.ftso, y.state.ftso);
    PrintIntInjective(x.state.availableBalance, y.state.availableBalance);
    PrintIntInjective(x.state.lastAccountingAt, y.state.lastAccountingAt);
    PrintIntInjective(x.state.now, y.state.now);
    TenEqual(u, v);
    assert p.requestHash(x.request) == p.requestHash(y.request)
      <==> NormalRequest(x.request) == NormalRequest(y.request);
  }

  lemma TenEqual(u: seq<Value>, v: seq<Value>)
    requires |u| == |v| == 10
    ensures u == v <==>
      && u[0] == v[0] && u[1] == v[1] && u[2] == v[2] && u[3] == v[3] && u[4] == v[4]
      && u[5] == v[5] && u[6] == v[6] && u[7] == v[7] && u[8] == v[8] && u[9] == v[9]
  {
  }

  lemma TreeIdentifies(p: Primitives, x: Call, y: Call)
    requires RequestHashIdentifies(p) && Encodable(p, x) && Encodable(p, y)
    ensures PublicState(p, x) == PublicState(p, y) <==> NormalCall(p, x) == NormalCall(p, y)
  {
    FieldsIdentify(p, x, y);
    ListInjective(PublicFields(p, x), PublicFields(p, y));
    assert Agree(p, x, y) <==> NormalCall(p, x) == NormalCall(p, y);
  }

  lemma TreeIsFlat(p: Primitives, x: Call)
    requires RequestHashIdentifies(p) && Encodable(p, x)
    ensures Flat(PublicState(p, x))
  {
    HistoryIdentifies(p, x.state.history, x.state.history);
    MachinesIdentify(p, x.machines, x.machines);
    FtsoTreeIdentifies(x.state.ftso, x.state.ftso);
    ListIsFlat(PublicFields(p, x));
  }

  /** Two calls get the same key exactly when they agree, up to letter case and URL spelling,
      on the request, the whole history with its FTSO readings, the spend state and the ordered
      machine list. */
  lemma KeyIdentifiesCall(p: Primitives, x: Call, y: Call)
    requires KeccakInjective(p) && RequestHashIdentifies(p)
    requires Encodable(p, x) && Encodable(p, y)
    ensures Key(p, x) == Key(p, y) <==> NormalCall(p, x) == NormalCall(p, y)
  {
    PrintUnambiguous(PublicState(p, x), PublicState(p, y));
    TreeIsFlat(p, x);
    TreeIsFlat(p, y);
    TreeIdentifies(p, x, y);
  }

  /** The call without its FDC facts, neither its own nor those of its history. */
  function WithoutFdc(call: Call): Call {
    var h := call.state.history;
    call.(state := call.state.(fdc := None, history := seq(|h|, i requires 0 <= i < |h| => h[i].(fdc := None))))
  }

  lemma KeyWithoutFdc(p: Primitives, call: Call)
    ensures Key(p, WithoutFdc(call)) == Key(p, call)
  {
    var bare := WithoutFdc(call);
    assert HistoryTrees(p, bare.state.history) == HistoryTrees(p, call.state.history);
    assert PublicFields(p, bare) == PublicFields(p, call);
  }

  /** FDC facts are not part of the key: calls that differ only in their own or in their history's
      are coalesced. */
  lemma KeyIgnoresFdc(p: Primitives, x: Call, y: Call)
    requires WithoutFdc(x) == WithoutFdc(y)
    ensures Key(p, x) == Key(p, y)
  {
    KeyWithoutFdc(p, x);
    KeyWithoutFdc(p, y);
  }
}
