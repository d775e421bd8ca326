/** Text as the TypeScript code sees it: sequences of UTF-16 code units, with the
    decimal, hex and letter-case conventions that every wire format here relies on. */
module Texts {

  type CodeUnit = u: int | 0 <= u < 0x10000

  type Text = seq<CodeUnit>

  const MAX_UINT8: nat := 0x100 - 1
  const MAX_UINT32: nat := 0x1_0000_0000 - 1
  const MAX_UINT64: nat := 0x1_0000_0000_0000_0000 - 1
  const MAX_UINT256: nat :=
    0x1_0000000000000000_0000000000000000_0000000000000000_0000000000000000 - 1

  /** The code units of a literal; only characters of the basic plane are ever written here. */
  function Lit(s: string): Text {
    seq(|s|, i requires 0 <= i < |s| => if (s[i] as int) < 0x10000 then s[i] as int else 0xFFFD)
  }

  predicate IsDigit(u: CodeUnit) { 0x30 <= u <= 0x39 }

  predicate IsUpperHexLetter(u: CodeUnit) { 0x41 <= u <= 0x46 }

  predicate IsHexDigit(u: CodeUnit) { IsDigit(u) || 0x61 <= u <= 0x66 || IsUpperHexLetter(u) }

  predicate AllDigits(t: Text) { forall i :: 0 <= i < |t| ==> IsDigit(t[i]) }

  predicate AllHex(t: Text) { forall i :: 0 <= i < |t| ==> IsHexDigit(t[i]) }

  // ---- letter case ----------------------------------------------------------------------

  function LowerUnit(u: CodeUnit): CodeUnit { if 0x41 <= u <= 0x5A then u + 0x20 else u }

  /** `toLowerCase`, on the ASCII range that hex texts and addresses live in. */
  function ToLower(t: Text): (r: Text)
    ensures |r| == |t| && forall i :: 0 <= i < |t| ==> r[i] == LowerUnit(t[i])
  {
    seq(|t|, i requires 0 <= i < |t| => LowerUnit(t[i]))
  }

  lemma ToLowerIdempotent(t: Text)
    ensures ToLower(ToLower(t)) == ToLower(t)
  {
    assert forall i :: 0 <= i < |t| ==> ToLower(ToLower(t))[i] == ToLower(t)[i];
  }

  /** `0x` followed by exactly `digits` hex digits. */
  predicate IsHexOf(t: Text, digits: nat) {
    |t| == digits + 2 && t[0] == 0x30 && t[1] == 0x78 && AllHex(t[2..])
  }

  /** `0x` and so many zeros. */
  function ZeroHex(digits: nat): Text { [0x30, 0x78] + seq(digits, i requires 0 <= i < digits => 0x30) }

  const ZERO_BYTES32: Text := ZeroHex(64)
  const ZERO_ADDRESS: Text := ZeroHex(40)

  lemma ZeroHexIsLow(digits: nat)
    ensures IsHexOf(ZeroHex(digits), digits) && ToLower(ZeroHex(digits)) == ZeroHex(digits)
  {
    var t := ZeroHex(digits);
    assert forall i :: 0 <= i < digits ==> t[2..][i] == 0x30;
  }

  lemma LowerKeepsHex(t: Text, digits: nat)
    ensures IsHexOf(t, digits) ==> IsHexOf(ToLower(t), digits)
  {
    if IsHexOf(t, digits) {
      assert forall i :: 0 <= i < |t| - 2 ==> ToLower(t)[2..][i] == LowerUnit(t[2..][i]);
    }
  }

  // ---- unsigned decimals ----------------------------------------------------------------

  /** `BigInt.prototype.toString` on a non-negative value. */
  function PrintNat(n: nat): Text {
    if n < 10 then [0x30 + n] else PrintNat(n / 10) + [0x30 + n % 10]
  }

  /** `BigInt` of a text of digits; the empty text reads as zero, as in JavaScript. */
  function ReadNat(t: Text): nat
    requires AllDigits(t)
  {
    if t == [] then 0 else ReadNat(t[..|t| - 1]) * 10 + (t[|t| - 1] - 0x30)
  }

  /** The pattern `^(0|[1-9][0-9]*)$`. */
  predicate IsCanonicalDecimal(t: Text) {
    t != [] && AllDigits(t) && (|t| == 1 || t[0] != 0x30)
  }

  lemma {:induction false} PrintNatRoundTrip(n: nat)
    ensures IsCanonicalDecimal(PrintNat(n))
    ensures ReadNat(PrintNat(n)) == n
    ensures n > 0 ==> PrintNat(n)[0] != 0x30
  {
    if n < 10 {
      assert PrintNat(n)[..0] == [];
    } else {
      PrintNatRoundTrip(n / 10);
      var p := PrintNat(n);
      assert p[..|p| - 1] == PrintNat(n / 10);
    }
  }

  lemma {:induction false} CanonicalDecimalRoundTrip(t: Text)
    requires IsCanonicalDecimal(t)
    ensures PrintNat(ReadNat(t)) == t
    ensures t[0] != 0x30 ==> ReadNat(t) > 0
  {
    var front := t[..|t| - 1];
    if |t| == 1 {
      assert ReadNat(front) == 0;
    } else {
      CanonicalDecimalRoundTrip(front);
      assert t == front + [t[|t| - 1]];
    }
  }
}
