/** JSON texts: printing as `JSON.stringify` with the bigint replacer does, and reading by the
    grammar of RFC 8259.  What is read is the syntax tree, with repeated keys as they stand. */
module Json {
  import opened Outcomes
  import opened Texts

  /** A JavaScript value tree.  Big is a bigint, which JSON has no form for.  A number that is not
      written as an integer is kept as its token; a token that is none stands for the numbers that
      are not finite. */
  datatype Value =
    | Null
    | Bool(b: bool)
    | Num(n: int)
    | Frac(token: Text)
    | Str(s: Text)
    | Big(big: int)
    | Arr(items: Values)
    | Obj(members: Members)

  datatype Values = NoItems | Item(head: Value, tail: Values)

  datatype Members = NoMembers | Member(key: Text, value: Value, others: Members)

  // ---- printing -------------------------------------------------------------------------

  const NULL_TEXT: Text := [0x6E, 0x75, 0x6C, 0x6C]
  const TRUE_TEXT: Text := [0x74, 0x72, 0x75, 0x65]
  const FALSE_TEXT: Text := [0x66, 0x61, 0x6C, 0x73, 0x65]

  predicate IsHighSurrogate(u: CodeUnit) { 0xD800 <= u <= 0xDBFF }

  predicate IsLowSurrogate(u: CodeUnit) { 0xDC00 <= u <= 0xDFFF }

  function HexUnit(d: nat): CodeUnit
    requires d < 16
  {
    if d < 10 then 0x30 + d else 0x57 + d
  }

  function UnicodeEscape(u: CodeUnit): Text {
    [0x5C, 0x75, HexUnit(u / 0x1000), HexUnit(u / 0x100 % 16), HexUnit(u / 16 % 16), HexUnit(u % 16)]
  }

  /** The escape of one code unit that is not half of a surrogate pair. */
  function EscapeUnit(u: CodeUnit): Text {
    if u == 0x22 then [0x5C, 0x22]
    else if u == 0x5C then [0x5C, 0x5C]
    else if u == 0x08 then [0x5C, 0x62]
    else if u == 0x09 then [0x5C, 0x74]
    else if u == 0x0A then [0x5C, 0x6E]
    else if u == 0x0C then [0x5C, 0x66]
    else if u == 0x0D then [0x5C, 0x72]
    else if u < 0x20 || IsHighSurrogate(u) || IsLowSurrogate(u) then UnicodeEscape(u)
    else [u]
  }

  function Escape(s: Text): Text {
    if s == [] then []
    else if |s| >= 2 && IsHighSurrogate(s[0]) && IsLowSurrogate(s[1]) then [s[0]] + ([s[1]] + Escape(s[2..]))
    else EscapeUnit(s[0]) + Escape(s[1..])
  }

  function Quote(s: Text): Text { [0x22] + (Escape(s) + [0x22]) }

  function PrintInt(n: int): Text {
    if n < 0 then [0x2D] + PrintNat(-n) else PrintNat(n)
  }

  /** How many units at the start of the text are digits. */
  function DigitRun(t: Text): (n: nat)
    ensures n <= |t| && AllDigits(t[..n])
  {
    if t == [] || !IsDigit(t[0]) then 0 else 1 + DigitRun(t[1..])
  }

  function SignLength(t: Text): (n: nat)
    ensures n <= |t| && n <= 1
  {
    if t != [] && t[0] == 0x2D then 1 else 0
  }

  /** A sign and the digits after it. */
  function IntegerLength(t: Text): (n: nat)
    ensures n <= |t| && SignLength(t) <= n && AllDigits(t[SignLength(t)..n])
  {
    var k := SignLength(t);
    var n := DigitRun(t[k..]);
    assert t[k..k + n] == t[k..][..n];
    k + n
  }

  /** A dot and one digit at least, or nothing; None is a dot without digits. */
  function FractionLength(t: Text): (n: Option<nat>)
    ensures n.Some? ==> n.value <= |t|
  {
    if t == [] || t[0] != 0x2E then Some(0)
    else if DigitRun(t[1..]) == 0 then None
    else Some(1 + DigitRun(t[1..]))
  }

  /** An exponent, or nothing; None is an exponent without digits. */
  function ExponentLength(t: Text): (n: Option<nat>)
    ensures n.Some? ==> n.value <= |t|
  {
    if t == [] || (t[0] != 0x65 && t[0] != 0x45) then Some(0)
    else
      var sign := if |t| > 1 && (t[1] == 0x2B || t[1] == 0x2D) then 1 else 0;
      var n := DigitRun(t[1 + sign..]);
      if n == 0 then None else Some(1 + sign + n)
  }

  /** The length of the number at the start of the text; None when there is none. */
  function NumberLength(t: Text): (n: Option<nat>)
    ensures n.Some? ==> IntegerLength(t) <= n.value <= |t|
    ensures n.Some? ==> IsCanonicalDecimal(t[SignLength(t)..IntegerLength(t)])
  {
    var k := IntegerLength(t);
    if !IsCanonicalDecimal(t[SignLength(t)..k]) then None
    else
      match FractionLength(t[k..])
      case None => None
      case Some(f) =>
        match ExponentLength(t[k + f..])
        case None => None
        case Some(x) => Some(k + f + x)
  }

  /** A number with a fraction or an exponent, and nothing else. */
  predicate IsFractionToken(t: Text) { NumberLength(t) == Some(|t|) && IntegerLength(t) < |t| }

  /** `stringifyPublic`: a bigint is printed as the string of its decimal digits. */
  function Print(v: Value): Text
    decreases v, 0
  {
    match v
    case Null => NULL_TEXT
    case Bool(b) => if b then TRUE_TEXT else FALSE_TEXT
    case Num(n) => PrintInt(n)
    case Frac(token) => if IsFractionToken(token) then token else NULL_TEXT
    case Str(s) => Quote(s)
    case Big(n) => Quote(PrintInt(n))
    case Arr(items) =>
      [0x5B] + (match items
                case NoItems => [0x5D]
                case Item(head, tail) => Print(head) + PrintItems(tail))
    case Obj(members) =>
      [0x7B] + (match members
                case NoMembers => [0x7D]
                case Member(key, value, others) => PrintMember(key, value, PrintMembers(others)))
  }

  /** The items after the first one, up to and with the closing bracket. */
  function PrintItems(items: Values): Text
    decreases items, 0
  {
    match items
    case NoItems => [0x5D]
    case Item(head, tail) => [0x2C] + (Print(head) + PrintItems(tail))
  }

  function PrintMember(key: Text, value: Value, after: Text): Text
    decreases value, 1
  {
    Quote(key) + ([0x3A] + (Print(value) + after))
  }

  function PrintMembers(members: Members): Text
    decreases members, 0
  {
    match members
    case NoMembers => [0x7D]
    case Member(key, value, others) =>
      [0x2C] + PrintMember(key, value, PrintMembers(others))
  }

  // ---- reading --------------------------------------------------------------------------

  datatype Read<+T> = Fail | Done(value: T, rest: Text)

  function HexDigit(u: CodeUnit): nat
    requires IsHexDigit(u)
  {
    if IsDigit(u) then u - 0x30 else if u >= 0x61 then u - 0x57 else u - 0x37
  }

  function Unescape(u: CodeUnit): Option<CodeUnit> {
    if u == 0x22 || u == 0x5C || u == 0x2F then Some(u)
    else if u == 0x62 then Some(0x08)
    else if u == 0x74 then Some(0x09)
    else if u == 0x6E then Some(0x0A)
    else if u == 0x66 then Some(0x0C)
    else if u == 0x72 then Some(0x0D)
    else None
  }

  function Prepend(u: CodeUnit, r: Read<Text>): Read<Text> {
    match r
    case Fail => Fail
    case Done(s, rest) => Done([u] + s, rest)
  }

  /** The rest of a string, after its opening quote. */
  function ReadString(t: Text): (r: Read<Text>)
    ensures r.Done? ==> |r.rest| < |t|
  {
    if t == [] || t[0] < 0x20 then Fail
    else if t[0] == 0x22 then Done([], t[1..])
    else if t[0] != 0x5C then Prepend(t[0], ReadString(t[1..]))
    else if |t| >= 6 && t[1] == 0x75 && AllHex(t[2..6]) then
      assert forall i :: 0 <= i < 4 ==> IsHexDigit(t[2..6][i]);
      Prepend(HexDigit(t[2]) * 0x1000 + HexDigit(t[3]) * 0x100 + HexDigit(t[4]) * 16 + HexDigit(t[5]),
              ReadString(t[6..]))
    else if |t| >= 2 && Unescape(t[1]).Some? then Prepend(Unescape(t[1]).value, ReadString(t[2..]))
    else Fail
  }

  /** The number at the start of the text, as an integer or as its token. */
  function ReadNumber(t: Text): (r: Read<Value>)
    ensures r.Done? ==> |r.rest| < |t|
  {
    match NumberLength(t)
    case None => Fail
    case Some(n) =>
      if n > IntegerLength(t) then Done(Frac(t[..n]), t[n..])
      else if t[0] == 0x2D then Done(Num(0 - ReadNat(t[1..n])), t[n..])
      else Done(Num(ReadNat(t[..n])), t[n..])
  }

  function ReadLiteral(t: Text, literal: Text, v: Value): (r: Read<Value>)
    requires literal != []
    ensures r.Done? ==> |r.rest| < |t|
  {
    if |t| >= |literal| && t[..|literal|] == literal then Done(v, t[|literal|..]) else Fail
  }

  predicate IsBlank(u: CodeUnit) { u == 0x20 || u == 0x09 || u == 0x0A || u == 0x0D }

  /** The text without the white space at its start. */
  function Skip(t: Text): (r: Text)
    ensures |r| <= |t|
    ensures r != [] ==> !IsBlank(r[0])
    ensures t == [] || !IsBlank(t[0]) ==> r == t
  {
    if t != [] && IsBlank(t[0]) then Skip(t[1..]) else t
  }

  function ReadValue(t: Text): (r: Read<Value>)
    ensures r.Done? ==> |r.rest| < |t|
    decreases |t|, 1
  {
    var s := Skip(t);
    if s == [] then Fail
    else if s[0] == 0x6E then ReadLiteral(s, NULL_TEXT, Null)
    else if s[0] == 0x74 then ReadLiteral(s, TRUE_TEXT, Bool(true))
    else if s[0] == 0x66 then ReadLiteral(s, FALSE_TEXT, Bool(false))
    else if s[0] == 0x22 then
      match ReadString(s[1..])
      case Fail => Fail
      case Done(u, rest) => Done(Str(u), rest)
    else if s[0] == 0x2D || IsDigit(s[0]) then ReadNumber(s)
    else if s[0] == 0x5B then ReadArray(s[1..])
    else if s[0] == 0x7B then ReadObject(s[1..])
    else Fail
  }

  /** The rest of an array, after its opening bracket. */
  function ReadArray(t: Text): (r: Read<Value>)
    ensures r.Done? ==> |r.rest| < |t|
    decreases |t|, 3
  {
    var s := Skip(t);
    if s != [] && s[0] == 0x5D then Done(Arr(NoItems), s[1..])
    else
      match ReadValue(s)
      case Fail => Fail
      case Done(head, rest) =>
        match ReadItems(rest)
        case Fail => Fail
        case Done(tail, last) => Done(Arr(Item(head, tail)), last)
  }

  /** The rest of an object, after its opening brace. */
  function ReadObject(t: Text): (r: Read<Value>)
    ensures r.Done? ==> |r.rest| < |t|
    decreases |t|, 3
  {
    var s := Skip(t);
    if s != [] && s[0] == 0x7D then Done(Obj(NoMembers), s[1..])
    else
      match ReadMember(s)
      case Fail => Fail
      case Done(members, rest) => Done(Obj(members), rest)
  }

  function ReadItems(t: Text): (r: Read<Values>)
    ensures r.Done? ==> |r.rest| < |t|
    decreases |t|, 0
  {
    var s := Skip(t);
    if s == [] then Fail
    else if s[0] == 0x5D then Done(NoItems, s[1..])
    else if s[0] == 0x2C then
      match ReadValue(s[1..])
      case Fail => Fail
      case Done(head, rest) =>
        match ReadItems(rest)
        case Fail => Fail
        case Done(tail, last) => Done(Item(head, tail), last)
    else Fail
  }

  /** One member and all that follow it, up to and with the closing brace. */
  function ReadMember(t: Text): (r: Read<Members>)
    ensures r.Done? ==> |r.rest| < |t|
    decreases |t|, 0
  {
    var s := Skip(t);
    if s == [] || s[0] != 0x22 then Fail
    else
      match ReadString(s[1..])
      case Fail => Fail
      case Done(key, afterKey) =>
        var colon := Skip(afterKey);
        if colon == [] || colon[0] != 0x3A then Fail
        else
          match ReadValue(colon[1..])
          case Fail => Fail
          case Done(value, afterValue) => ReadMore(key, value, Skip(afterValue))
  }

  /** What follows a member: the closing brace, or a comma and further members. */
  function ReadMore(key: Text, value: Value, rest: Text): (r: Read<Members>)
    ensures r.Done? ==> |r.rest| < |rest|
    decreases |rest|, 1
  {
    if rest == [] then Fail
    else if rest[0] == 0x7D then Done(Member(key, value, NoMembers), rest[1..])
    else if rest[0] == 0x2C then
      match ReadMember(rest[1..])
      case Fail => Fail
      case Done(others, last) => Done(Member(key, value, others), last)
    else Fail
  }

  // ---- reading undoes printing ----------------------------------------------------------

  /** What is left of a tree on the wire: bigints have become strings, and numbers that are not
      finite have become null. */
  function Flatten(v: Value): Value {
    match v
    case Big(n) => Str(PrintInt(n))
    case Frac(token) => if IsFractionToken(token) then v else Null
    case Arr(items) => Arr(FlattenItems(items))
    case Obj(members) => Obj(FlattenMembers(members))
    case _ => v
  }

  function FlattenItems(items: Values): Values {
    match items
    case NoItems => NoItems
    case Item(head, tail) => Item(Flatten(head), FlattenItems(tail))
  }

  function FlattenMembers(members: Members): Members {
    match members
    case NoMembers => NoMembers
    case Member(key, value, others) => Member(key, Flatten(value), FlattenMembers(others))
  }

  lemma HexDigitsCompose(u: CodeUnit)
    ensures u == u / 0x1000 * 0x1000 + u / 0x100 % 16 * 0x100 + u / 16 % 16 * 16 + u % 16
  {
    assert u / 0x100 == u / 0x1000 * 16 + u / 0x100 % 16;
    assert u / 16 == u / 0x100 * 16 + u / 16 % 16;
  }

  lemma UnicodeEscapeReads(u: CodeUnit, rest: Text)
    ensures ReadString(UnicodeEscape(u) + rest) == Prepend(u, ReadString(rest))
  {
    var e := UnicodeEscape(u);
    var t := e + rest;
    assert forall d: nat :: d < 16 ==> IsHexDigit(HexUnit(d)) && HexDigit(HexUnit(d)) == d;
    HexDigitsCompose(u);
    assert t[6..] == rest;
    assert t[0] == 0x5C && t[1] == 0x75;
    assert AllHex(t[2..6]);
  }

  lemma EscapeUnitReads(u: CodeUnit, rest: Text)
    ensures ReadString(EscapeUnit(u) + rest) == Prepend(u, ReadString(rest))
  {
    var t := EscapeUnit(u) + rest;
    if EscapeUnit(u) == UnicodeEscape(u) {
      UnicodeEscapeReads(u, rest);
    } else if |EscapeUnit(u)| == 1 {
      assert t[1..] == rest;
    } else {
      assert t[2..] == rest;
      assert t[1] == EscapeUnit(u)[1];
    }
  }

  lemma RawUnitReads(u: CodeUnit, rest: Text)
    requires u >= 0x20 && u != 0x22 && u != 0x5C
    ensures ReadString([u] + rest) == Prepend(u, ReadString(rest))
  {
    assert ([u] + rest)[1..] == rest;
  }

  lemma PairReads(high: CodeUnit, low: CodeUnit, rest: Text)
    requires IsHighSurrogate(high) && IsLowSurrogate(low)
    ensures ReadString([high] + ([low] + rest)) == Prepend(high, Prepend(low, ReadString(rest)))
  {
    RawUnitReads(low, rest);
    RawUnitReads(high, [low] + rest);
  }

  lemma ClosingQuoteReads(rest: Text)
    ensures ReadString([0x22] + rest) == Done([], rest)
  {
    assert ([0x22] + rest)[1..] == rest;
  }

  lemma {:induction false} QuoteReads(s: Text, rest: Text)
    ensures ReadString(Escape(s) + ([0x22] + rest)) == Done(s, rest)
  {
    hide ReadString, EscapeUnit;
    var end := [0x22] + rest;
    if s == [] {
      ClosingQuoteReads(rest);
      assert Escape(s) + end == end;
    } else if |s| >= 2 && IsHighSurrogate(s[0]) && IsLowSurrogate(s[1]) {
      QuoteReads(s[2..], rest);
      var inner := Escape(s[2..]);
      assert ([s[0]] + ([s[1]] + inner)) + end == [s[0]] + ([s[1]] + (inner + end));
      PairReads(s[0], s[1], inner + end);
      assert s == [s[0]] + ([s[1]] + s[2..]);
    } else {
      QuoteReads(s[1..], rest);
      var first, inner := EscapeUnit(s[0]), Escape(s[1..]);
      assert (first + inner) + end == first + (inner + end);
      EscapeUnitReads(s[0], inner + end);
      assert s == [s[0]] + s[1..];
    }
  }

  lemma {:induction false} DigitRunStops(digits: Text, rest: Text)
    requires AllDigits(digits)
    requires rest == [] || !IsDigit(rest[0])
    ensures DigitRun(digits + rest) == |digits|
  {
    if digits == [] {
      assert digits + rest == rest;
    } else {
      assert (digits + rest)[1..] == digits[1..] + rest;
      DigitRunStops(digits[1..], rest);
    }
  }

  /** A unit that cannot continue a number. */
  predicate EndsNumber(rest: Text) {
    rest == [] || (!IsDigit(rest[0]) && rest[0] != 0x2E && rest[0] != 0x65 && rest[0] != 0x45)
  }

  /** More text after the digits does not lengthen the run. */
  lemma {:induction false} DigitRunKept(t: Text, rest: Text)
    requires rest == [] || !IsDigit(rest[0])
    ensures DigitRun(t + rest) == DigitRun(t)
  {
    if t == [] {
      assert t + rest == rest;
    } else {
      assert (t + rest)[1..] == t[1..] + rest;
      DigitRunKept(t[1..], rest);
    }
  }

  lemma IntegerKept(t: Text, rest: Text)
    requires EndsNumber(rest) && IntegerLength(t) > 0
    ensures SignLength(t + rest) == SignLength(t) && IntegerLength(t + rest) == IntegerLength(t)
  {
    var k := SignLength(t);
    assert t != [] && (t + rest)[0] == t[0];
    assert (t + rest)[k..] == t[k..] + rest;
    DigitRunKept(t[k..], rest);
  }

  lemma FractionKept(t: Text, rest: Text)
    requires EndsNumber(rest)
    ensures FractionLength(t + rest) == FractionLength(t)
  {
    if t == [] {
      assert t + rest == rest;
    } else {
      assert (t + rest)[1..] == t[1..] + rest;
      DigitRunKept(t[1..], rest);
    }
  }

  lemma ExponentKept(t: Text, rest: Text)
    requires EndsNumber(rest) && ExponentLength(t).Some?
    ensures ExponentLength(t + rest) == ExponentLength(t)
  {
    if t == [] {
      assert t + rest == rest;
    } else if t[0] == 0x65 || t[0] == 0x45 {
      var sign := if |t| > 1 && (t[1] == 0x2B || t[1] == 0x2D) then 1 else 0;
      assert |t| > 1 + sign;
      assert (t + rest)[1] == t[1];
      assert (t + rest)[1 + sign..] == t[1 + sign..] + rest;
      DigitRunKept(t[1 + sign..], rest);
    }
  }

  /** A number is read as far as it goes, whatever follows that cannot continue it. */
  lemma NumberKept(t: Text, rest: Text)
    requires EndsNumber(rest) && NumberLength(t).Some?
    ensures NumberLength(t + rest) == NumberLength(t)
    ensures SignLength(t + rest) == SignLength(t) && IntegerLength(t + rest) == IntegerLength(t)
  {
    hide IntegerLength, FractionLength, ExponentLength, SignLength, EndsNumber;
    var k := IntegerLength(t);
    IntegerKept(t, rest);
    assert (t + rest)[SignLength(t)..k] == t[SignLength(t)..k];
    assert (t + rest)[k..] == t[k..] + rest;
    FractionKept(t[k..], rest);
    var f := FractionLength(t[k..]).value;
    assert (t + rest)[k + f..] == t[k + f..] + rest;
    ExponentKept(t[k + f..], rest);
  }

  lemma TokenReads(token: Text, rest: Text)
    requires EndsNumber(rest) && IsFractionToken(token)
    ensures ReadNumber(token + rest) == Done(Frac(token), rest)
  {
    hide NumberLength, IntegerLength, EndsNumber;
    NumberKept(token, rest);
    assert (token + rest)[..|token|] == token && (token + rest)[|token|..] == rest;
  }

  /** A canonical decimal, with a sign or without, is a number without fraction and exponent. */
  lemma SignedDigitsAreNumber(t: Text, digits: Text)
    requires IsCanonicalDecimal(digits) && (t == digits || t == [0x2D] + digits)
    ensures NumberLength(t) == Some(|t|) && IntegerLength(t) == |t|
  {
    var k := SignLength(t);
    assert digits[0] != 0x2D;
    assert t[k..] == digits;
    hide IsCanonicalDecimal;
    DigitRunOfDigits(digits);
    assert IntegerLength(t) == |t| && t[k..|t|] == digits && t[|t|..] == [];
    assert FractionLength([]) == Some(0) && ExponentLength([]) == Some(0);
  }

  lemma DigitRunOfDigits(digits: Text)
    requires IsCanonicalDecimal(digits)
    ensures DigitRun(digits) == |digits|
  {
    assert digits + [] == digits;
    DigitRunStops(digits, []);
  }

  lemma PrintedIntegerIsNumber(n: int)
    ensures var t := PrintInt(n);
      && NumberLength(t) == Some(|t|) && IntegerLength(t) == |t| && t != []
      && (t[0] == 0x2D <==> n < 0)
      && (if n < 0 then t[1..] == PrintNat(-n) else t == PrintNat(n))
  {
    hide PrintNat, ReadNat, NumberLength, IntegerLength;
    var m: nat := if n < 0 then -n else n;
    PrintNatUnits(m);
    PrintNatRoundTrip(m);
    SignedDigitsAreNumber(PrintInt(n), PrintNat(m));
  }

  lemma IntegerReads(n: int, rest: Text)
    requires EndsNumber(rest)
    ensures ReadNumber(PrintInt(n) + rest) == Done(Num(n), rest)
  {
    hide NumberLength, IntegerLength, EndsNumber, PrintNat, PrintInt, ReadNat;
    var t := PrintInt(n);
    PrintedIntegerIsNumber(n);
    NumberKept(t, rest);
    PrintNatRoundTrip(if n < 0 then -n else n);
    var u := t + rest;
    assert u[..|t|] == t && u[|t|..] == rest && u[1..|t|] == t[1..] && u[0] == t[0];
  }

  lemma PrintNatUnits(n: nat)
    ensures PrintNat(n) != [] && AllDigits(PrintNat(n)) && IsDigit(PrintNat(n)[0])
  {
    hide PrintNat, ReadNat;
    PrintNatRoundTrip(n);
  }

  /** A number starts with a sign or a digit. */
  lemma NumberStarts(t: Text)
    requires NumberLength(t).Some?
    ensures t != [] && (t[0] == 0x2D || IsDigit(t[0]))
  {
    var k := SignLength(t);
    if k == 0 { assert t[0] == t[k..IntegerLength(t)][0]; }
  }

  // One step of the reader each, on any text of the right form.

  lemma ArrayStep(t: Text, head: Value, tail: Values, mid: Text, rest: Text)
    requires |t| >= 2 && t[0] == 0x5B && t[1] != 0x5D && !IsBlank(t[1])
    requires ReadValue(t[1..]) == Done(head, mid) && ReadItems(mid) == Done(tail, rest)
    ensures ReadValue(t) == Done(Arr(Item(head, tail)), rest)
  {
    assert Skip(t) == t && Skip(t[1..]) == t[1..];
    assert ReadArray(t[1..]) == Done(Arr(Item(head, tail)), rest);
  }

  lemma EmptyArrayStep(t: Text)
    requires |t| >= 2 && t[0] == 0x5B && t[1] == 0x5D
    ensures ReadValue(t) == Done(Arr(NoItems), t[2..])
  {
    assert Skip(t) == t && Skip(t[1..]) == t[1..];
    assert ReadArray(t[1..]) == Done(Arr(NoItems), t[1..][1..]);
  }

  lemma ItemStep(t: Text, head: Value, tail: Values, mid: Text, rest: Text)
    requires t != [] && t[0] == 0x2C
    requires ReadValue(t[1..]) == Done(head, mid) && ReadItems(mid) == Done(tail, rest)
    ensures ReadItems(t) == Done(Item(head, tail), rest)
  {
    assert Skip(t) == t;
  }

  lemma NumberStep(t: Text)
    requires t != [] && (t[0] == 0x2D || IsDigit(t[0]))
    ensures ReadValue(t) == ReadNumber(t)
  {
    hide ReadLiteral, ReadArray, ReadObject, ReadString, ReadNumber, ReadItems, ReadMember;
    assert Skip(t) == t;
  }

  /** A quoted key, a colon and a value, with `after` still to come. */
  ghost predicate ReadsField(t: Text, key: Text, value: Value, after: Text) {
    && t != [] && t[0] == 0x22
    && ReadString(t[1..]).Done? && ReadString(t[1..]).value == key
    && var colon := ReadString(t[1..]).rest;
       colon != [] && colon[0] == 0x3A && ReadValue(colon[1..]) == Done(value, after)
  }

  lemma FieldStep(t: Text, key: Text, value: Value, after: Text)
    requires ReadsField(t, key, value, after)
    ensures ReadMember(t) == ReadMore(key, value, Skip(after))
  {
    hide ReadMore;
    assert Skip(t) == t;
    assert Skip(ReadString(t[1..]).rest) == ReadString(t[1..]).rest;
  }

  lemma LastMemberStep(t: Text, key: Text, value: Value, after: Text)
    requires ReadsField(t, key, value, after) && after != [] && after[0] == 0x7D
    ensures ReadMember(t) == Done(Member(key, value, NoMembers), after[1..])
  {
    hide ReadMember, ReadsField;
    FieldStep(t, key, value, after);
  }

  lemma MemberStep(t: Text, key: Text, value: Value, after: Text, others: Members, rest: Text)
    requires ReadsField(t, key, value, after) && after != [] && after[0] == 0x2C
    requires ReadMember(after[1..]) == Done(others, rest)
    ensures ReadMember(t) == Done(Member(key, value, others), rest)
  {
    hide ReadMember, ReadsField;
    FieldStep(t, key, value, after);
  }

  lemma ObjectStep(t: Text, members: Members, rest: Text)
    requires |t| >= 2 && t[0] == 0x7B && t[1] == 0x22 && ReadMember(t[1..]) == Done(members, rest)
    ensures ReadValue(t) == Done(Obj(members), rest)
  {
    assert Skip(t) == t && Skip(t[1..]) == t[1..];
    assert ReadObject(t[1..]) == Done(Obj(members), rest);
  }

  lemma EmptyObjectStep(t: Text)
    requires |t| >= 2 && t[0] == 0x7B && t[1] == 0x7D
    ensures ReadValue(t) == Done(Obj(NoMembers), t[2..])
  {
    assert Skip(t) == t && Skip(t[1..]) == t[1..];
    assert ReadObject(t[1..]) == Done(Obj(NoMembers), t[1..][1..]);
  }

  lemma QuoteStep(t: Text, s: Text, rest: Text)
    requires t != [] && t[0] == 0x22 && ReadString(t[1..]) == Done(s, rest)
    ensures ReadValue(t) == Done(Str(s), rest)
  {
    assert Skip(t) == t;
  }

  lemma StringReads(s: Text, rest: Text)
    ensures ReadValue(Quote(s) + rest) == Done(Str(s), rest)
  {
    hide ReadValue, ReadString, Escape;
    var t := Quote(s) + rest;
    assert t[0] == 0x22 && t[1..] == Escape(s) + ([0x22] + rest);
    QuoteReads(s, rest);
    QuoteStep(t, s, rest);
  }

  lemma NumberReads(v: Value, rest: Text)
    requires EndsNumber(rest) && (v.Num? || (v.Frac? && IsFractionToken(v.token)))
    ensures ReadValue(Print(v) + rest) == Done(v, rest)
  {
    hide ReadValue, ReadNumber, NumberLength, EndsNumber, PrintInt, IntegerLength;
    var t := Print(v);
    if v.Num? {
      PrintedIntegerIsNumber(v.n);
      IntegerReads(v.n, rest);
    } else {
      TokenReads(v.token, rest);
    }
    NumberStarts(t);
    assert (t + rest)[0] == t[0];
    NumberStep(t + rest);
  }

  lemma LiteralReads(literal: Text, v: Value, rest: Text)
    requires literal != []
    ensures ReadLiteral(literal + rest, literal, v) == Done(v, rest)
  {
    assert (literal + rest)[..|literal|] == literal && (literal + rest)[|literal|..] == rest;
  }

  lemma LiteralStep(t: Text)
    requires t != []
    ensures t[0] == 0x6E ==> ReadValue(t) == ReadLiteral(t, NULL_TEXT, Null)
    ensures t[0] == 0x74 ==> ReadValue(t) == ReadLiteral(t, TRUE_TEXT, Bool(true))
    ensures t[0] == 0x66 ==> ReadValue(t) == ReadLiteral(t, FALSE_TEXT, Bool(false))
  {
  }

  lemma AtomReads(v: Value, rest: Text)
    requires v.Null? || v.Bool?
    ensures ReadValue(Print(v) + rest) == Done(v, rest)
  {
    hide ReadValue, ReadLiteral;
    LiteralReads(if v.Null? then NULL_TEXT else if v.b then TRUE_TEXT else FALSE_TEXT, v, rest);
    LiteralStep(Print(v) + rest);
  }

  /** No printed value starts with a closing bracket or a blank. */
  lemma FirstUnit(v: Value)
    ensures Print(v) != [] && Print(v)[0] != 0x5D && !IsBlank(Print(v)[0])
  {
    if v.Num? {
      PrintedIntegerIsNumber(v.n);
      hide NumberLength, PrintInt;
      NumberStarts(PrintInt(v.n));
    } else if v.Frac? {
      hide NumberLength;
      if IsFractionToken(v.token) { NumberStarts(v.token); }
    }
  }

  /** A printed value is read back as its flattened form, whatever follows it that does not
      continue a number. */
  lemma {:induction false} PrintReads(v: Value, rest: Text)
    requires EndsNumber(rest)
    ensures ReadValue(Print(v) + rest) == Done(Flatten(v), rest)
    decreases v, 0
  {
    hide ReadValue, ReadItems, ReadMember, PrintInt, Quote, EndsNumber, IsFractionToken;
    match v
    case Num(n) => NumberReads(v, rest);
    case Frac(token) => if IsFractionToken(token) { NumberReads(v, rest); } else { AtomReads(Null, rest); }
    case Str(s) => StringReads(s, rest);
    case Big(n) => StringReads(PrintInt(n), rest);
    case Arr(items) => ArrayReads(items, rest);
    case Obj(members) => ObjectReads(members, rest);
    case _ => AtomReads(v, rest);
  }

  lemma {:induction false} ArrayReads(items: Values, rest: Text)
    ensures ReadValue(Print(Arr(items)) + rest) == Done(Arr(FlattenItems(items)), rest)
    decreases items, 1
  {
    var t := Print(Arr(items)) + rest;
    match items
    case NoItems =>
      assert t[2..] == rest;
      EmptyArrayStep(t);
    case Item(head, tail) =>
      var mid := PrintItems(tail) + rest;
      hide ReadValue, ReadItems;
      assert t[1..] == Print(head) + mid;
      FirstUnit(head);
      PrintReads(head, mid);
      ItemsRead(tail, rest);
      ArrayStep(t, Flatten(head), FlattenItems(tail), mid, rest);
  }

  lemma {:induction false} ItemsRead(items: Values, rest: Text)
    ensures ReadItems(PrintItems(items) + rest) == Done(FlattenItems(items), rest)
    decreases items, 0
  {
    var t := PrintItems(items) + rest;
    match items
    case NoItems => assert Skip(t) == t && t[1..] == rest;
    case Item(head, tail) =>
      hide ReadValue, ReadItems;
      var mid := PrintItems(tail) + rest;
      assert t[1..] == Print(head) + mid;
      PrintReads(head, mid);
      ItemsRead(tail, rest);
      ItemStep(t, Flatten(head), FlattenItems(tail), mid, rest);
  }

  lemma {:induction false} ObjectReads(members: Members, rest: Text)
    ensures ReadValue(Print(Obj(members)) + rest) == Done(Obj(FlattenMembers(members)), rest)
    decreases members, 1
  {
    var t := Print(Obj(members)) + rest;
    match members
    case NoMembers =>
      assert t[2..] == rest;
      EmptyObjectStep(t);
    case Member(key, value, others) =>
      hide ReadValue, ReadMember;
      assert t[1..] == PrintMember(key, value, PrintMembers(others)) + rest;
      MembersRead(members, rest);
      ObjectStep(t, FlattenMembers(members), rest);
  }

  lemma FieldText(key: Text, value: Value, after: Text, rest: Text)
    ensures var colon := [0x3A] + (Print(value) + (after + rest));
      PrintMember(key, value, after) + rest == [0x22] + (Escape(key) + ([0x22] + colon))
  {
    hide Print, Escape;
  }

  lemma FieldReads(key: Text, value: Value, after: Text, rest: Text)
    requires after != [] && EndsNumber(after)
    ensures ReadsField(PrintMember(key, value, after) + rest, key, Flatten(value), after + rest)
    decreases value, 1
  {
    hide ReadValue, ReadString, Escape, Print, PrintMember, Flatten;
    var t := PrintMember(key, value, after) + rest;
    var colon := [0x3A] + (Print(value) + (after + rest));
    FieldText(key, value, after, rest);
    assert t[1..] == Escape(key) + ([0x22] + colon);
    QuoteReads(key, colon);
    assert colon[1..] == Print(value) + (after + rest);
    PrintReads(value, after + rest);
  }

  lemma {:induction false} MembersRead(members: Members, rest: Text)
    requires members.Member?
    ensures ReadMember(PrintMember(members.key, members.value, PrintMembers(members.others)) + rest)
         == Done(FlattenMembers(members), rest)
    decreases members, 0
  {
    hide ReadValue, ReadMember, ReadsField, PrintMember;
    var key, value, others := members.key, members.value, members.others;
    var after := PrintMembers(others);
    var t := PrintMember(key, value, after) + rest;
    FieldReads(key, value, after, rest);
    match others
    case NoMembers =>
      assert (after + rest)[1..] == rest;
      LastMemberStep(t, key, Flatten(value), after + rest);
    case Member(k, v, more) =>
      assert (after + rest)[1..] == PrintMember(k, v, PrintMembers(more)) + rest;
      MembersRead(others, rest);
      MemberStep(t, key, Flatten(value), after + rest, FlattenMembers(others), rest);
  }

  /** Two trees with the same text are the same tree on the wire. */
  lemma PrintUnambiguous(v: Value, w: Value)
    ensures Print(v) == Print(w) <==> Flatten(v) == Flatten(w)
  {
    PrintReads(v, []);
    PrintReads(w, []);
    assert Print(v) + [] == Print(v) && Print(w) + [] == Print(w);
    FlattenPrints(v);
    FlattenPrints(w);
  }

  function ItemsOf(vs: seq<Value>): Values {
    if vs == [] then NoItems else Item(vs[0], ItemsOf(vs[1..]))
  }

  /** An array literal. */
  function List(vs: seq<Value>): Value { Arr(ItemsOf(vs)) }

  /** The tree holds no bigint. */
  predicate Flat(v: Value) { Flatten(v) == v }

  lemma {:induction false} ListIsFlat(vs: seq<Value>)
    requires forall v :: v in vs ==> Flat(v)
    ensures Flat(List(vs))
  {
    if vs != [] {
      ListIsFlat(vs[1..]);
      assert Flat(vs[0]) && Flat(List(vs[1..]));
      assert ItemsOf(vs) == Item(vs[0], ItemsOf(vs[1..]));
    }
  }

  lemma {:induction false} ListInjective(vs: seq<Value>, ws: seq<Value>)
    ensures List(vs) == List(ws) <==> vs == ws
  {
    if vs != [] && ws != [] {
      ListInjective(vs[1..], ws[1..]);
      assert vs == [vs[0]] + vs[1..] && ws == [ws[0]] + ws[1..];
    }
  }

  lemma FlattenPrints(v: Value)
    ensures Print(Flatten(v)) == Print(v)
    decreases v
  {
    hide IsFractionToken;
    match v
    case Arr(items) => FlattenItemsPrints(items);
    case Obj(members) => FlattenMembersPrints(members);
    case _ =>
  }

  lemma FlattenItemsPrints(items: Values)
    ensures PrintItems(FlattenItems(items)) == PrintItems(items)
    ensures items.Item? ==> Print(Flatten(items.head)) == Print(items.head)
    ensures items.Item? ==> PrintItems(FlattenItems(items.tail)) == PrintItems(items.tail)
    decreases items
  {
    if items.Item? {
      FlattenPrints(items.head);
      FlattenItemsPrints(items.tail);
    }
  }

  lemma FlattenMembersPrints(members: Members)
    ensures PrintMembers(FlattenMembers(members)) == PrintMembers(members)
    ensures members.Member? ==> Print(Flatten(members.value)) == Print(members.value)
    ensures members.Member? ==> PrintMembers(FlattenMembers(members.others)) == PrintMembers(members.others)
    decreases members
  {
    if members.Member? {
      FlattenPrints(members.value);
      FlattenMembersPrints(members.others);
    }
  }

  // ---- white space ----------------------------------------------------------------------

  predicate AllBlank(t: Text) { forall i :: 0 <= i < |t| ==> IsBlank(t[i]) }

  lemma {:induction false} SkipBlanks(blanks: Text, t: Text)
    requires AllBlank(blanks)
    ensures Skip(blanks + t) == Skip(t)
  {
    if blanks == [] {
      assert blanks + t == t;
    } else {
      assert (blanks + t)[1..] == blanks[1..] + t;
      SkipBlanks(blanks[1..], t);
    }
  }

  lemma SkipIdempotent(t: Text)
    ensures Skip(Skip(t)) == Skip(t)
  {
  }

  lemma ReadsAfterSkip(t: Text)
    ensures ReadValue(t) == ReadValue(Skip(t)) || (ReadValue(t).Fail? && ReadValue(Skip(t)).Fail?)
  {
    hide ReadLiteral, ReadArray, ReadObject, ReadString, ReadNumber, ReadItems, ReadMember;
    SkipIdempotent(t);
  }

  lemma LeadingBlanks(blanks: Text, t: Text)
    requires AllBlank(blanks)
    ensures ReadValue(blanks + t) == ReadValue(t)
  {
    hide ReadValue;
    SkipBlanks(blanks, t);
    ReadsAfterSkip(blanks + t);
    ReadsAfterSkip(t);
  }
}
