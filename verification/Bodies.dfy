/** The bodies of the relay's HTTP server: parsing with the bigint reviver, and the walk that
    refuses forbidden keys. */
module Bodies {
  import opened Outcomes
  import opened Texts
  import opened Json

  // ---- the bigint reviver ---------------------------------------------------------------

  const BIGINT_KEYS: seq<string> := [
    "chainId", "requestNonce", "amount", "scheduleSlot", "createdAt", "graceDeadline", "expiry",
    "availableBalance", "accountedAt", "lastAccountingAt", "now", "timestamp", "value",
    "reservedAmount", "issuedAt", "policyNonce", "receiptNonce", "maxPerAction", "dailyCap",
    "rollingCap"
  ]

  predicate IsBigintKey(key: Text) {
    exists name :: name in BIGINT_KEYS && key == Lit(name)
  }

  /** `JSON.parse` hands the reviver each leaf with its key; array items have their index as key. */
  function Revive(key: Text, v: Value): Value
    decreases v
  {
    match v
    case Str(s) => if IsBigintKey(key) && s != [] && AllDigits(s) then Big(ReadNat(s)) else v
    case Arr(items) => Arr(ReviveItems(items, 0))
    case Obj(members) => Obj(ReviveMembers(members))
    case _ => v
  }

  function ReviveItems(items: Values, index: nat): Values
    decreases items
  {
    match items
    case NoItems => NoItems
    case Item(head, tail) => Item(Revive(PrintNat(index), head), ReviveItems(tail, index + 1))
  }

  function ReviveMembers(members: Members): Members
    decreases members
  {
    match members
    case NoMembers => NoMembers
    case Member(key, value, others) => Member(key, Revive(key, value), ReviveMembers(others))
  }

  // ---- repeated keys --------------------------------------------------------------------

  function KeysIn(members: Members): set<Text> {
    match members
    case NoMembers => {}
    case Member(key, _, others) => {key} + KeysIn(others)
  }

  function Lookup(members: Members, key: Text): Value
    requires key in KeysIn(members)
  {
    if members.key == key then members.value else Lookup(members.others, key)
  }

  function TakeOutKey(members: Members, key: Text): Members {
    match members
    case NoMembers => NoMembers
    case Member(k, value, others) => if k == key then others else Member(k, value, TakeOutKey(others, key))
  }

  /** The value of a syntax tree: of repeated keys the last one's value stands, at the first one's
      place. */
  function Collapse(v: Value): Value {
    match v
    case Arr(items) => Arr(CollapseItems(items))
    case Obj(members) => Obj(CollapseMembers(members))
    case _ => v
  }

  function CollapseItems(items: Values): Values {
    match items
    case NoItems => NoItems
    case Item(head, tail) => Item(Collapse(head), CollapseItems(tail))
  }

  function CollapseMembers(members: Members): Members {
    match members
    case NoMembers => NoMembers
    case Member(key, value, others) =>
      var rest := CollapseMembers(others);
      if key in KeysIn(rest) then Member(key, Lookup(rest, key), TakeOutKey(rest, key))
      else Member(key, Collapse(value), rest)
  }

  /** No object at any depth has a key twice. */
  predicate Distinct(v: Value) {
    match v
    case Arr(items) => DistinctItems(items)
    case Obj(members) => DistinctMembers(members)
    case _ => true
  }

  predicate DistinctItems(items: Values) {
    items.Item? ==> Distinct(items.head) && DistinctItems(items.tail)
  }

  predicate DistinctMembers(members: Members) {
    members.Member? ==>
      members.key !in KeysIn(members.others) && Distinct(members.value) && DistinctMembers(members.others)
  }

  lemma {:induction false} TakeOutKeepsDistinct(members: Members, key: Text)
    requires DistinctMembers(members) && key in KeysIn(members)
    ensures DistinctMembers(TakeOutKey(members, key)) && Distinct(Lookup(members, key))
    ensures KeysIn(TakeOutKey(members, key)) == KeysIn(members) - {key}
    decreases members
  {
    if members.key != key {
      TakeOutKeepsDistinct(members.others, key);
    }
  }

  lemma {:induction false} CollapseKeepsKeysIn(members: Members)
    ensures KeysIn(CollapseMembers(members)) == KeysIn(members) && DistinctMembers(CollapseMembers(members))
    decreases members, 0
  {
    if members.Member? {
      CollapseKeepsKeysIn(members.others);
      CollapsedIsDistinct(members.value);
      var rest := CollapseMembers(members.others);
      if members.key in KeysIn(rest) {
        TakeOutKeepsDistinct(rest, members.key);
      }
    }
  }

  lemma {:induction false} CollapsedIsDistinct(v: Value)
    ensures Distinct(Collapse(v))
    decreases v, 1
  {
    match v
    case Arr(items) => CollapsedItemsAreDistinct(items);
    case Obj(members) => CollapseKeepsKeysIn(members);
    case _ =>
  }

  lemma {:induction false} CollapsedItemsAreDistinct(items: Values)
    ensures DistinctItems(CollapseItems(items))
    decreases items, 0
  {
    if items.Item? {
      CollapsedIsDistinct(items.head);
      CollapsedItemsAreDistinct(items.tail);
    }
  }

  lemma {:induction false} DistinctIsCollapsed(v: Value)
    requires Distinct(v)
    ensures Collapse(v) == v
    decreases v
  {
    match v
    case Arr(items) => DistinctItemsAreCollapsed(items);
    case Obj(members) => DistinctMembersAreCollapsed(members);
    case _ =>
  }

  lemma {:induction false} DistinctItemsAreCollapsed(items: Values)
    requires DistinctItems(items)
    ensures CollapseItems(items) == items
    decreases items
  {
    if items.Item? {
      DistinctIsCollapsed(items.head);
      DistinctItemsAreCollapsed(items.tail);
    }
  }

  lemma {:induction false} DistinctMembersAreCollapsed(members: Members)
    requires DistinctMembers(members)
    ensures CollapseMembers(members) == members
    decreases members
  {
    if members.Member? {
      DistinctIsCollapsed(members.value);
      DistinctMembersAreCollapsed(members.others);
    }
  }

  lemma {:induction false} FlattenKeepsDistinct(v: Value)
    ensures Distinct(Flatten(v)) <==> Distinct(v)
    decreases v
  {
    hide IsFractionToken;
    match v
    case Arr(items) => FlattenKeepsDistinctItems(items);
    case Obj(members) => FlattenKeepsDistinctMembers(members);
    case _ =>
  }

  lemma {:induction false} FlattenKeepsDistinctItems(items: Values)
    ensures DistinctItems(FlattenItems(items)) <==> DistinctItems(items)
    decreases items
  {
    if items.Item? {
      FlattenKeepsDistinct(items.head);
      FlattenKeepsDistinctItems(items.tail);
    }
  }

  lemma {:induction false} FlattenKeepsDistinctMembers(members: Members)
    ensures KeysIn(FlattenMembers(members)) == KeysIn(members)
    ensures DistinctMembers(FlattenMembers(members)) <==> DistinctMembers(members)
    decreases members
  {
    if members.Member? {
      FlattenKeepsDistinct(members.value);
      FlattenKeepsDistinctMembers(members.others);
    }
  }

  lemma {:induction false} ReviveKeepsDistinct(key: Text, v: Value)
    ensures Distinct(Revive(key, v)) <==> Distinct(v)
    decreases v
  {
    match v
    case Arr(items) => ReviveKeepsDistinctItems(items, 0);
    case Obj(members) => ReviveKeepsDistinctMembers(members);
    case _ =>
  }

  lemma {:induction false} ReviveKeepsDistinctItems(items: Values, index: nat)
    ensures DistinctItems(ReviveItems(items, index)) <==> DistinctItems(items)
    decreases items
  {
    if items.Item? {
      ReviveKeepsDistinct(PrintNat(index), items.head);
      ReviveKeepsDistinctItems(items.tail, index + 1);
    }
  }

  lemma {:induction false} ReviveKeepsDistinctMembers(members: Members)
    ensures KeysIn(ReviveMembers(members)) == KeysIn(members)
    ensures DistinctMembers(ReviveMembers(members)) <==> DistinctMembers(members)
    decreases members
  {
    if members.Member? {
      ReviveKeepsDistinct(members.key, members.value);
      ReviveKeepsDistinctMembers(members.others);
    }
  }

  // ---- parsing --------------------------------------------------------------------------

  /** `JSON.parse(text, bigintReviver)`; None is a thrown SyntaxError. */
  function ParseWithReviver(t: Text): Option<Value> {
    match ReadValue(t)
    case Fail => None
    case Done(v, rest) => if Skip(rest) == [] then Some(Revive([], Collapse(v))) else None
  }

  /** Bigints are non-negative and sit only under bigint fields, where no string is all digits. */
  predicate WireSafe(bigField: bool, v: Value)
    decreases v
  {
    match v
    case Big(n) => bigField && n >= 0
    case Frac(token) => IsFractionToken(token)
    case Str(s) => !(bigField && s != [] && AllDigits(s))
    case Arr(items) => WireSafeItems(items)
    case Obj(members) => WireSafeMembers(members)
    case _ => true
  }

  predicate WireSafeItems(items: Values)
    decreases items
  {
    items.Item? ==> WireSafe(false, items.head) && WireSafeItems(items.tail)
  }

  predicate WireSafeMembers(members: Members)
    decreases members
  {
    members.Member? ==>
      WireSafe(IsBigintKey(members.key), members.value) && WireSafeMembers(members.others)
  }

  predicate StartsWithLetter(name: string) { name != "" && 'a' <= name[0] <= 'z' }

  lemma BigKeysStartWithLetters()
    ensures forall i :: 0 <= i < |BIGINT_KEYS| ==> StartsWithLetter(BIGINT_KEYS[i])
  {
  }

  lemma IndexIsNoBigField(index: nat)
    ensures !IsBigintKey(PrintNat(index)) && !IsBigintKey([])
  {
    BigKeysStartWithLetters();
    hide BIGINT_KEYS, PrintNat;
    PrintNatUnits(index);
    forall name | name in BIGINT_KEYS ensures Lit(name) != [] && !IsDigit(Lit(name)[0]) {
      assert StartsWithLetter(name);
    }
  }

  lemma {:induction false} ReviveUndoesFlatten(key: Text, v: Value)
    ensures Revive(key, Flatten(v)) == v <==> WireSafe(IsBigintKey(key), v)
    decreases v
  {
    hide IsFractionToken;
    match v
    case Big(n) =>
      if n >= 0 { PrintNatRoundTrip(n); } else { assert PrintInt(n)[0] == 0x2D; }
    case Arr(items) => ReviveItemsUndoesFlatten(items, 0);
    case Obj(members) => ReviveMembersUndoesFlatten(members);
    case _ =>
  }

  lemma {:induction false} ReviveItemsUndoesFlatten(items: Values, index: nat)
    ensures ReviveItems(FlattenItems(items), index) == items <==> WireSafeItems(items)
    decreases items
  {
    match items
    case NoItems =>
    case Item(head, tail) =>
      IndexIsNoBigField(index);
      ReviveUndoesFlatten(PrintNat(index), head);
      ReviveItemsUndoesFlatten(tail, index + 1);
  }

  lemma {:induction false} ReviveMembersUndoesFlatten(members: Members)
    ensures ReviveMembers(FlattenMembers(members)) == members <==> WireSafeMembers(members)
    decreases members
  {
    match members
    case NoMembers =>
    case Member(key, value, others) =>
      ReviveUndoesFlatten(key, value);
      ReviveMembersUndoesFlatten(others);
  }

  /** Parsing with the reviver gives back exactly the wire-safe trees whose objects have distinct
      keys, as the objects of a program do, and no other. */
  lemma ParseUndoesStringify(v: Value)
    ensures ParseWithReviver(Print(v)) == Some(v) <==> WireSafe(false, v) && Distinct(v)
  {
    hide ReadValue, Print, Revive, WireSafe, Distinct, Collapse;
    PrintReads(v, []);
    assert Print(v) + [] == Print(v);
    assert Skip([]) == [];
    var flat := Flatten(v);
    FlattenKeepsDistinct(v);
    CollapsedIsDistinct(flat);
    ReviveKeepsDistinct([], Collapse(flat));
    if Distinct(v) {
      DistinctIsCollapsed(flat);
      IndexIsNoBigField(0);
      ReviveUndoesFlatten([], v);
    }
  }

  // ---- forbidden keys -------------------------------------------------------------------

  const FORBIDDEN_KEYS: set<Text> := set name | name in FORBIDDEN_NAMES :: Lit(name)

  const FORBIDDEN_NAMES: seq<string> := [
    "policy", "privateSalt", "ciphertext", "policyPlaintext", "allow", "decision",
    "publicReasonClass", "reservedAmount", "result"
  ]

  /** `rejectForbiddenKeys`: true when the walk returns, false when it throws. */
  predicate PassesForbiddenWalk(v: Value) {
    match v
    case Arr(items) => PassesItems(items)
    case Obj(members) => PassesMembers(members)
    case _ => true
  }

  predicate PassesItems(items: Values) {
    match items
    case NoItems => true
    case Item(head, tail) => PassesForbiddenWalk(head) && PassesItems(tail)
  }

  predicate PassesMembers(members: Members) {
    match members
    case NoMembers => true
    case Member(key, value, others) =>
      key !in FORBIDDEN_KEYS && PassesForbiddenWalk(value) && PassesMembers(others)
  }

  /** Every key of every object at any depth. */
  function KeysOf(v: Value): set<Text> {
    match v
    case Arr(items) => KeysOfItems(items)
    case Obj(members) => KeysOfMembers(members)
    case _ => {}
  }

  function KeysOfItems(items: Values): set<Text> {
    match items
    case NoItems => {}
    case Item(head, tail) => KeysOf(head) + KeysOfItems(tail)
  }

  function KeysOfMembers(members: Members): set<Text> {
    match members
    case NoMembers => {}
    case Member(key, value, others) => {key} + KeysOf(value) + KeysOfMembers(others)
  }

  lemma {:induction false} WalkFindsEveryKey(v: Value)
    ensures PassesForbiddenWalk(v) <==> KeysOf(v) !! FORBIDDEN_KEYS
    decreases v
  {
    match v
    case Arr(items) => ItemWalkFindsEveryKey(items);
    case Obj(members) => MemberWalkFindsEveryKey(members);
    case _ =>
  }

  lemma {:induction false} ItemWalkFindsEveryKey(items: Values)
    ensures PassesItems(items) <==> KeysOfItems(items) !! FORBIDDEN_KEYS
    decreases items
  {
    if items.Item? {
      WalkFindsEveryKey(items.head);
      ItemWalkFindsEveryKey(items.tail);
    }
  }

  lemma {:induction false} MemberWalkFindsEveryKey(members: Members)
    ensures PassesMembers(members) <==> KeysOfMembers(members) !! FORBIDDEN_KEYS
    decreases members
  {
    if members.Member? {
      WalkFindsEveryKey(members.value);
      MemberWalkFindsEveryKey(members.others);
    }
  }

  lemma {:induction false} ReviveKeepsKeys(key: Text, v: Value)
    ensures KeysOf(Revive(key, v)) == KeysOf(v)
    decreases v
  {
    match v
    case Arr(items) => ReviveKeepsItemKeys(items, 0);
    case Obj(members) => ReviveKeepsMemberKeys(members);
    case _ =>
  }

  lemma {:induction false} ReviveKeepsItemKeys(items: Values, index: nat)
    ensures KeysOfItems(ReviveItems(items, index)) == KeysOfItems(items)
    decreases items
  {
    if items.Item? {
      ReviveKeepsKeys(PrintNat(index), items.head);
      ReviveKeepsItemKeys(items.tail, index + 1);
    }
  }

  lemma {:induction false} ReviveKeepsMemberKeys(members: Members)
    ensures KeysOfMembers(ReviveMembers(members)) == KeysOfMembers(members)
    decreases members
  {
    if members.Member? {
      ReviveKeepsKeys(members.key, members.value);
      ReviveKeepsMemberKeys(members.others);
    }
  }

  lemma {:induction false} FlattenKeepsKeys(v: Value)
    ensures KeysOf(Flatten(v)) == KeysOf(v)
    decreases v
  {
    match v
    case Arr(items) => FlattenKeepsItemKeys(items);
    case Obj(members) => FlattenKeepsMemberKeys(members);
    case _ =>
  }

  lemma {:induction false} FlattenKeepsItemKeys(items: Values)
    ensures KeysOfItems(FlattenItems(items)) == KeysOfItems(items)
    decreases items
  {
    if items.Item? {
      FlattenKeepsKeys(items.head);
      FlattenKeepsItemKeys(items.tail);
    }
  }

  lemma {:induction false} FlattenKeepsMemberKeys(members: Members)
    ensures KeysOfMembers(FlattenMembers(members)) == KeysOfMembers(members)
    decreases members
  {
    if members.Member? {
      FlattenKeepsKeys(members.value);
      FlattenKeepsMemberKeys(members.others);
    }
  }

  // ---- bodies ---------------------------------------------------------------------------

  predicate IsJsonText(body: Text) { ReadValue(body).Done? && Skip(ReadValue(body).rest) == [] }

  /** The keys at any depth that are not inside a member which a later one of its object replaces. */
  function LiveKeys(v: Value): set<Text> {
    match v
    case Arr(items) => LiveKeysOfItems(items)
    case Obj(members) => LiveKeysOfMembers(members)
    case _ => {}
  }

  function LiveKeysOfItems(items: Values): set<Text> {
    match items
    case NoItems => {}
    case Item(head, tail) => LiveKeys(head) + LiveKeysOfItems(tail)
  }

  function LiveKeysOfMembers(members: Members): set<Text> {
    match members
    case NoMembers => {}
    case Member(key, value, others) =>
      LiveKeysOfMembers(others) + (if key in KeysIn(others) then {} else {key} + LiveKeys(value))
  }

  lemma {:induction false} CollapseKeepsLiveKeys(v: Value)
    ensures KeysOf(Collapse(v)) == LiveKeys(v)
    decreases v
  {
    match v
    case Arr(items) => CollapseKeepsLiveItemKeys(items);
    case Obj(members) => CollapseKeepsLiveMemberKeys(members);
    case _ =>
  }

  lemma {:induction false} CollapseKeepsLiveItemKeys(items: Values)
    ensures KeysOfItems(CollapseItems(items)) == LiveKeysOfItems(items)
    decreases items
  {
    if items.Item? {
      CollapseKeepsLiveKeys(items.head);
      CollapseKeepsLiveItemKeys(items.tail);
    }
  }

  lemma {:induction false} CollapseKeepsLiveMemberKeys(members: Members)
    ensures KeysOfMembers(CollapseMembers(members)) == LiveKeysOfMembers(members)
    decreases members
  {
    if members.Member? {
      var rest := CollapseMembers(members.others);
      CollapseKeepsKeysIn(members.others);
      CollapseKeepsLiveKeys(members.value);
      CollapseKeepsLiveMemberKeys(members.others);
      if members.key in KeysIn(rest) {
        TakenOutKeys(rest, members.key);
      }
    }
  }

  lemma {:induction false} TakenOutKeys(members: Members, key: Text)
    requires key in KeysIn(members)
    ensures KeysOfMembers(members)
         == {key} + KeysOf(Lookup(members, key)) + KeysOfMembers(TakeOutKey(members, key))
    decreases members
  {
    if members.key != key {
      TakenOutKeys(members.others, key);
    }
  }

  /** Every live key is a key of the text; without repeated keys there is no difference. */
  lemma {:induction false} LiveKeysAreKeys(v: Value)
    ensures LiveKeys(v) <= KeysOf(v)
    ensures Distinct(v) ==> LiveKeys(v) == KeysOf(v)
    decreases v
  {
    match v
    case Arr(items) => LiveItemKeysAreKeys(items);
    case Obj(members) => LiveMemberKeysAreKeys(members);
    case _ =>
  }

  lemma {:induction false} LiveItemKeysAreKeys(items: Values)
    ensures LiveKeysOfItems(items) <= KeysOfItems(items)
    ensures DistinctItems(items) ==> LiveKeysOfItems(items) == KeysOfItems(items)
    decreases items
  {
    if items.Item? {
      LiveKeysAreKeys(items.head);
      LiveItemKeysAreKeys(items.tail);
    }
  }

  lemma {:induction false} LiveMemberKeysAreKeys(members: Members)
    ensures LiveKeysOfMembers(members) <= KeysOfMembers(members)
    ensures DistinctMembers(members) ==> LiveKeysOfMembers(members) == KeysOfMembers(members)
    decreases members
  {
    if members.Member? {
      LiveKeysAreKeys(members.value);
      LiveMemberKeysAreKeys(members.others);
    }
  }

  /** A body, whoever wrote it, is parsed exactly when it is one JSON value, and then passes the walk
      if and only if no forbidden key stands anywhere in it outside the members that a later member
      of the same key replaces: what is replaced the walk never sees. */
  lemma BodyPassesIffKeysAllowed(body: Text)
    ensures var parsed := ParseWithReviver(body);
      && (parsed.Some? <==> IsJsonText(body))
      && (parsed.Some? ==>
            && (PassesForbiddenWalk(parsed.value) <==> KeysOf(parsed.value) !! FORBIDDEN_KEYS)
            && KeysOf(parsed.value) == LiveKeys(ReadValue(body).value))
  {
    hide ReadValue, FORBIDDEN_KEYS, Collapse;
    match ReadValue(body)
    case Fail =>
    case Done(v, rest) =>
      ReviveKeepsKeys([], Collapse(v));
      CollapseKeepsLiveKeys(v);
      WalkFindsEveryKey(Revive([], Collapse(v)));
  }

  /** A printed tree with distinct keys, wire-safe or not, passes exactly when it has no forbidden
      key; white space before and after it makes no difference. */
  lemma PrintedBodyPasses(v: Value, before: Text, after: Text)
    requires Distinct(v) && AllBlank(before) && AllBlank(after)
    ensures ParseWithReviver(before + (Print(v) + after)) == ParseWithReviver(Print(v))
    ensures ParseWithReviver(Print(v)).Some?
    ensures PassesForbiddenWalk(ParseWithReviver(Print(v)).value) <==> KeysOf(v) !! FORBIDDEN_KEYS
  {
    hide FORBIDDEN_KEYS, ReadValue, Print;
    LeadingBlanks(before, Print(v) + after);
    PrintReads(v, after);
    PrintReads(v, []);
    assert Print(v) + [] == Print(v) && after + [] == after;
    SkipBlanks(after, []);
    FlattenKeepsKeys(v);
    FlattenKeepsDistinct(v);
    LiveKeysAreKeys(Flatten(v));
    BodyPassesIffKeysAllowed(Print(v));
  }

  /** An object with a repeated key. */
  function Twice(key: Text, first: Value, second: Value): Value {
    Obj(Member(key, first, Member(key, second, NoMembers)))
  }

  lemma TwiceFlattens(key: Text, first: Value, second: Value)
    ensures Flatten(Twice(key, first, second)) == Twice(key, Flatten(first), Flatten(second))
  {
    var last := Member(key, second, NoMembers);
    assert FlattenMembers(last) == Member(key, Flatten(second), NoMembers);
    assert FlattenMembers(Member(key, first, last)) == Member(key, Flatten(first), FlattenMembers(last));
  }

  lemma TwiceCollapses(key: Text, first: Value, second: Value)
    ensures Collapse(Twice(key, first, second)) == Obj(Member(key, Collapse(second), NoMembers))
  {
    var last := Member(key, second, NoMembers);
    var rest := Member(key, Collapse(second), NoMembers);
    assert CollapseMembers(last) == rest;
    assert Lookup(rest, key) == Collapse(second) && TakeOutKey(rest, key) == NoMembers;
    assert CollapseMembers(Member(key, first, last)) == Member(key, Lookup(rest, key), TakeOutKey(rest, key));
  }

  /** Of a body with a repeated key nothing is seen but the last member, whatever the first holds. */
  lemma ReplacedMemberIsNotSeen(key: Text, first: Value, second: Value)
    ensures ParseWithReviver(Print(Twice(key, first, second)))
         == Some(Revive([], Obj(Member(key, Collapse(Flatten(second)), NoMembers))))
    ensures IsJsonText(Print(Twice(key, first, second)))
    ensures ReadValue(Print(Twice(key, first, second))).value == Twice(key, Flatten(first), Flatten(second))
  {
    var v := Twice(key, first, second);
    var f, s := Flatten(first), Flatten(second);
    TwiceFlattens(key, first, second);
    TwiceCollapses(key, f, s);
    hide Print, ReadValue, Collapse, Flatten, Revive;
    PrintReads(v, []);
    assert Print(v) + [] == Print(v);
    assert Skip([]) == [];
  }

  /** The object `{"policy":1}`. */
  function Hidden(): Value { Obj(Member(Lit("policy"), Num(1), NoMembers)) }

  /** The interesting case, the body `{"a":{"policy":1},"a":0}`: a forbidden key stands in its text,
      and it passes. */
  lemma ReplacedKeyPasses()
    ensures var body := Print(Twice(Lit("a"), Hidden(), Num(0)));
      && ParseWithReviver(body) == Some(Obj(Member(Lit("a"), Num(0), NoMembers)))
      && PassesForbiddenWalk(ParseWithReviver(body).value)
      && Lit("policy") in FORBIDDEN_KEYS && Lit("policy") in KeysOf(ReadValue(body).value)
  {
    hide Print, ReadValue, ParseWithReviver, FORBIDDEN_KEYS, Lit;
    ReplacedMemberIsNotSeen(Lit("a"), Hidden(), Num(0));
    PolicyIsForbidden();
    assert Flatten(Num(0)) == Num(0) == Collapse(Num(0)) && Flatten(Hidden()) == Hidden();
    assert Lit("policy") in KeysOf(Hidden());
  }

  lemma PolicyIsForbidden()
    ensures Lit("policy") in FORBIDDEN_KEYS && Lit("a") !in FORBIDDEN_KEYS
  {
    assert "policy" in FORBIDDEN_NAMES;
    assert forall name :: name in FORBIDDEN_NAMES ==> |name| > 1;
    hide FORBIDDEN_NAMES;
    assert |Lit("a")| == 1;
  }
}
