/**
 * Decimal rendering of a non-negative integer, as Kotlin's string template `"$idx"` produces it,
 * together with its inverse.
 */
module Decimal {

  function DigitChar(d: nat): (c: char)
    requires d < 10
    ensures '0' <= c <= '9'
  {
    "0123456789"[d]
  }

  function DigitValue(c: char): (d: nat)
    ensures '0' <= c <= '9' ==> d < 10 && DigitChar(d) == c
  {
    if '0' <= c <= '9' then (c - '0') as nat else 0
  }

  /** `"$n"`: the shortest decimal numeral of `n`, most significant digit first. */
  function NatToString(n: nat): (s: string)
    ensures |s| >= 1
    ensures forall k :: 0 <= k < |s| ==> '0' <= s[k] <= '9'
    ensures s[0] == '0' ==> s == "0"
  {
    if n < 10 then [DigitChar(n)] else NatToString(n / 10) + [DigitChar(n % 10)]
  }

  /** Reads a string of decimal digits back as a number. */
  function StringToNat(s: string): nat {
    if |s| == 0 then 0 else StringToNat(s[..|s| - 1]) * 10 + DigitValue(s[|s| - 1])
  }

  lemma {:induction false} StringToNatOfNatToString(n: nat)
    ensures StringToNat(NatToString(n)) == n
  {
    var s := NatToString(n);
    if n < 10 {
      assert s[..|s| - 1] == [];
    } else {
      var p := NatToString(n / 10);
      assert s[..|s| - 1] == p;
      StringToNatOfNatToString(n / 10);
    }
  }

  /** Distinct numbers render as distinct strings. */
  lemma NatToStringInjective(a: nat, b: nat)
    ensures NatToString(a) == NatToString(b) <==> a == b
  {
    if NatToString(a) == NatToString(b) {
      StringToNatOfNatToString(a);
      StringToNatOfNatToString(b);
    }
  }
}
