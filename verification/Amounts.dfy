/** Decimal token amounts with six decimals: the accepted texts, `parseUnits` and `formatUnits`
    of the viem library on them, and the two parsers of the web client. */
module Amounts {
  import opened Outcomes
  import opened Texts

  const DOT: CodeUnit := 0x2E
  const ZERO_DIGIT: CodeUnit := 0x30
  const DECIMALS: nat := 6

  // ---- trimming -------------------------------------------------------------------------

  /** The white space and line terminators that `trim` removes. */
  predicate IsSpace(u: CodeUnit) {
    0x09 <= u <= 0x0D || u == 0x20 || u == 0xA0 || u == 0x1680 || 0x2000 <= u <= 0x200A || u == 0x2028 || u == 0x2029
    || u == 0x202F || u == 0x205F || u == 0x3000 || u == 0xFEFF
  }

  function TrimStart(t: Text): Text {
    if t != [] && IsSpace(t[0]) then TrimStart(t[1..]) else t
  }

  function TrimEnd(t: Text): Text {
    if t != [] && IsSpace(t[|t| - 1]) then TrimEnd(t[..|t| - 1]) else t
  }

  function Trim(t: Text): Text { TrimEnd(TrimStart(t)) }

  ghost predicate AllSpaces(t: Text) { forall i :: 0 <= i < |t| ==> IsSpace(t[i]) }

  lemma {:induction false} TrimStartTakesSpaces(t: Text) returns (k: nat)
    ensures k <= |t| && TrimStart(t) == t[k..] && AllSpaces(t[..k])
    ensures k < |t| ==> !IsSpace(t[k])
  {
    hide IsSpace;
    k := 0;
    if t != [] && IsSpace(t[0]) {
      var rest := TrimStartTakesSpaces(t[1..]);
      k := rest + 1;
      assert t[..k] == [t[0]] + t[1..][..rest];
    }
  }

  lemma {:induction false} TrimEndTakesSpaces(t: Text) returns (k: nat)
    ensures k <= |t| && TrimEnd(t) == t[..k] && AllSpaces(t[k..])
    ensures k > 0 ==> !IsSpace(t[k - 1])
  {
    hide IsSpace;
    k := |t|;
    if t != [] && IsSpace(t[|t| - 1]) {
      k := TrimEndTakesSpaces(t[..|t| - 1]);
      assert t[k..] == t[..|t| - 1][k..] + [t[|t| - 1]];
    }
  }

  /** Trimming takes white space off both ends, and all of it. */
  lemma TrimIsExact(t: Text) returns (from: nat, to: nat)
    ensures from <= to <= |t| && Trim(t) == t[from..to]
    ensures AllSpaces(t[..from]) && AllSpaces(t[to..])
    ensures Trim(t) != [] ==> !IsSpace(t[from]) && !IsSpace(t[to - 1])
  {
    from := TrimStartTakesSpaces(t);
    var kept := t[from..];
    var k := TrimEndTakesSpaces(kept);
    to := from + k;
    assert kept[k..] == t[to..] && kept[..k] == t[from..to];
  }

  // ---- amounts --------------------------------------------------------------------------

  /** The place of the first dot, or the length of the text. */
  function DotAt(t: Text): (d: nat)
    ensures d <= |t| && (d < |t| ==> t[d] == DOT) && forall i :: 0 <= i < d ==> t[i] != DOT
  {
    if t == [] || t[0] == DOT then 0 else 1 + DotAt(t[1..])
  }

  function Whole(t: Text): Text { t[..DotAt(t)] }

  /** The digits after the dot, none without one. */
  function Fraction(t: Text): Text { if DotAt(t) < |t| then t[DotAt(t) + 1..] else [] }

  /** The pattern `^(?:0|[1-9][0-9]*)(?:\.[0-9]{1,6})?$`. */
  predicate IsTokenAmount(t: Text) {
    && IsCanonicalDecimal(Whole(t)) && AllDigits(Fraction(t)) && |Fraction(t)| <= DECIMALS
    && (DotAt(t) < |t| ==> Fraction(t) != [])
  }

  function Zeros(n: nat): Text { seq(n, i requires 0 <= i < n => ZERO_DIGIT) }

  function TrimZeros(f: Text): Text {
    if f != [] && f[|f| - 1] == ZERO_DIGIT then TrimZeros(f[..|f| - 1]) else f
  }

  function PadEnd(f: Text): Text { if |f| < DECIMALS then f + Zeros(DECIMALS - |f|) else f }

  function PadStart(t: Text): Text { if |t| < DECIMALS then Zeros(DECIMALS - |t|) + t else t }

  lemma {:induction false} TrimZerosKeeps(f: Text)
    ensures |TrimZeros(f)| <= |f| && f == TrimZeros(f) + Zeros(|f| - |TrimZeros(f)|)
    ensures AllDigits(f) ==> AllDigits(TrimZeros(f))
    ensures TrimZeros(f) == [] || TrimZeros(f)[|TrimZeros(f)| - 1] != ZERO_DIGIT
  {
    if f != [] && f[|f| - 1] == ZERO_DIGIT {
      var n := |f| - 1;
      TrimZerosKeeps(f[..n]);
      assert f == f[..n] + [ZERO_DIGIT];
      assert Zeros(|f| - |TrimZeros(f)|) == Zeros(n - |TrimZeros(f)|) + [ZERO_DIGIT];
    }
  }

  /** `parseUnits(t, 6)` on an accepted text. */
  function ParseUnits(t: Text): nat
    requires IsTokenAmount(t)
  {
    UnitsAreDigits(t);
    ReadNat(Whole(t) + PadEnd(TrimZeros(Fraction(t))))
  }

  lemma PaddedDigits(f: Text)
    requires AllDigits(f) && |f| <= DECIMALS
    ensures AllDigits(PadEnd(f)) && |PadEnd(f)| == DECIMALS && PadEnd(TrimZeros(f)) == PadEnd(f)
  {
    hide TrimZeros;
    TrimZerosKeeps(f);
    var k := TrimZeros(f);
    assert PadEnd(k) == k + (Zeros(|f| - |k|) + Zeros(DECIMALS - |f|));
  }

  lemma UnitsAreDigits(t: Text)
    requires IsTokenAmount(t)
    ensures AllDigits(Whole(t) + PadEnd(TrimZeros(Fraction(t)))) && AllDigits(Whole(t) + PadEnd(Fraction(t)))
    ensures PadEnd(TrimZeros(Fraction(t))) == PadEnd(Fraction(t)) && |PadEnd(Fraction(t))| == DECIMALS
  {
    hide TrimZeros, PadEnd, Whole, Fraction;
    PaddedDigits(Fraction(t));
  }

  /** `formatUnits(n, 6)`. */
  function FormatUnits(n: nat): Text {
    var display := PadStart(PrintNat(n));
    var k := |display| - DECIMALS;
    var whole, fraction := display[..k], TrimZeros(display[k..]);
    (if whole == [] then [ZERO_DIGIT] else whole) + (if fraction == [] then [] else [DOT] + fraction)
  }

  // ---- what they mean -------------------------------------------------------------------

  function Pow10(n: nat): (r: nat)
    ensures r > 0
  {
    if n == 0 then 1 else 10 * Pow10(n - 1)
  }

  lemma TenTimes(x: nat, y: nat)
    ensures x * (10 * y) == x * y * 10
  {
  }

  lemma {:induction false} ReadNatJoins(a: Text, b: Text)
    requires AllDigits(a) && AllDigits(b)
    ensures AllDigits(a + b) && ReadNat(a + b) == ReadNat(a) * Pow10(|b|) + ReadNat(b)
  {
    if b == [] {
      assert a + b == a;
    } else {
      var n := |b| - 1;
      ReadNatJoins(a, b[..n]);
      assert (a + b)[..|a + b| - 1] == a + b[..n];
      TenTimes(ReadNat(a), Pow10(n));
    }
  }

  lemma {:induction false} ReadZeros(n: nat)
    ensures ReadNat(Zeros(n)) == 0
  {
    if n > 0 {
      assert Zeros(n)[..n - 1] == Zeros(n - 1);
      ReadZeros(n - 1);
    }
  }

  /** The parsed amount is the number the text denotes, scaled by a million. */
  lemma ParsedAmountIsExact(t: Text)
    requires IsTokenAmount(t)
    ensures ParseUnits(t) == ReadNat(Whole(t)) * 1_000_000 + ReadNat(Fraction(t)) * Pow10(DECIMALS - |Fraction(t)|)
  {
    hide ReadNat, TrimZeros;
    UnitsAreDigits(t);
    var f := Fraction(t);
    assert PadEnd(f) == f + Zeros(DECIMALS - |f|);
    ReadNatJoins(Whole(t), PadEnd(f));
    ReadNatJoins(f, Zeros(DECIMALS - |f|));
    ReadZeros(DECIMALS - |f|);
    assert Pow10(6) == 1_000_000;
  }

  lemma DotComesAfter(whole: Text, fraction: Text)
    requires AllDigits(whole)
    ensures DotAt(whole) == |whole| && DotAt(whole + [DOT] + fraction) == |whole|
  {
    var t := whole + [DOT] + fraction;
    assert forall i :: 0 <= i < |whole| ==> t[i] == whole[i] && whole[i] != DOT;
    if DotAt(t) > |whole| { assert t[|whole|] == DOT; }
  }

  /** The text made of an integer part and a trimmed fraction. */
  function Assemble(whole: Text, fraction: Text): Text {
    whole + (if fraction == [] then [] else [DOT] + fraction)
  }

  lemma AssembledParts(whole: Text, fraction: Text)
    requires AllDigits(whole)
    ensures Whole(Assemble(whole, fraction)) == whole && Fraction(Assemble(whole, fraction)) == fraction
    ensures DotAt(Assemble(whole, fraction)) < |Assemble(whole, fraction)| ==> fraction != []
  {
    DotComesAfter(whole, fraction);
    assert whole + [] == whole;
    assert whole + [DOT] + fraction == whole + ([DOT] + fraction);
  }

  /** The two parts of a printed amount. */
  lemma FormatParts(n: nat) returns (whole: Text, rest: Text)
    ensures whole == PadStart(PrintNat(n))[..|PadStart(PrintNat(n))| - DECIMALS] || whole == [ZERO_DIGIT]
    ensures rest == PadStart(PrintNat(n))[|PadStart(PrintNat(n))| - DECIMALS..] && |rest| == DECIMALS
    ensures IsCanonicalDecimal(whole) && AllDigits(rest)
    ensures FormatUnits(n) == Assemble(whole, TrimZeros(rest))
    ensures AllDigits(whole + rest) && ReadNat(whole + rest) == n
  {
    hide ReadNat, TrimZeros, PrintNat;
    PrintNatRoundTrip(n);
    var display := PadStart(PrintNat(n));
    var k := |display| - DECIMALS;
    whole, rest := if k == 0 then [ZERO_DIGIT] else display[..k], display[k..];
    ReadPadded(PrintNat(n));
    if k == 0 {
      ZeroesInFront(display);
      assert rest == display;
    } else {
      assert whole + rest == display;
    }
  }

  /** Printing with six decimals and parsing again gives the same amount. */
  lemma FormatRoundTrip(n: nat)
    ensures IsTokenAmount(FormatUnits(n)) && ParseUnits(FormatUnits(n)) == n
  {
    hide ReadNat, TrimZeros, PrintNat, FormatUnits, PadStart, Assemble;
    var whole, rest := FormatParts(n);
    TrimZerosKeeps(rest);
    AssembledParts(whole, TrimZeros(rest));
    UnitsAreDigits(FormatUnits(n));
    PaddedBack(rest);
  }

  lemma PaddedBack(f: Text)
    requires |f| == DECIMALS
    ensures PadEnd(TrimZeros(f)) == f
  {
    TrimZerosKeeps(f);
  }

  lemma ZeroesInFront(t: Text)
    requires AllDigits(t)
    ensures ReadNat([ZERO_DIGIT] + t) == ReadNat(t)
  {
    ReadNatJoins([ZERO_DIGIT], t);
    assert [ZERO_DIGIT] == Zeros(1);
    ReadZeros(1);
  }

  lemma ReadPadded(t: Text)
    requires AllDigits(t)
    ensures AllDigits(PadStart(t)) && ReadNat(PadStart(t)) == ReadNat(t)
  {
    if |t| < DECIMALS {
      ReadNatJoins(Zeros(DECIMALS - |t|), t);
      ReadZeros(DECIMALS - |t|);
    }
  }

  // ---- the web client's parsers ---------------------------------------------------------

  /** `parseFTestXrpAmount`: a positive amount. */
  function ParseFTestXrpAmount(value: Text): (r: Result<nat>)
    ensures r.Ok? <==> IsTokenAmount(Trim(value)) && ParseUnits(Trim(value)) > 0
    ensures r.Ok? ==> r.value > 0
  {
    var normalized := Trim(value);
    if !IsTokenAmount(normalized) then Err("INPUT_INVALID")
    else if ParseUnits(normalized) == 0 then Err("INPUT_INVALID")
    else Ok(ParseUnits(normalized))
  }

  lemma {:induction false} DigitsAreTrimmed(t: Text)
    requires t != [] && IsDigit(t[0]) && IsDigit(t[|t| - 1])
    ensures Trim(t) == t
  {
  }

  /** Every positive amount has a text that is read as it. */
  lemma EveryAmountCanBeEntered(n: nat)
    requires n > 0
    ensures ParseFTestXrpAmount(FormatUnits(n)) == Ok(n)
  {
    FormatRoundTrip(n);
    var t := FormatUnits(n);
    EndsAreDigits(t);
    DigitsAreTrimmed(t);
  }

  lemma EndsAreDigits(t: Text)
    requires IsTokenAmount(t)
    ensures t != [] && IsDigit(t[0]) && IsDigit(t[|t| - 1])
  {
    assert t[0] == Whole(t)[0];
    if DotAt(t) < |t| {
      assert t[|t| - 1] == Fraction(t)[|Fraction(t)| - 1];
    } else {
      assert t == Whole(t);
    }
  }
}
