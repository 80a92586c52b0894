/** Character classes and decimal rendering shared by the two components. */
module Text {

  /** JavaScript's `\d` class: only the ASCII digits `0`..`9`. */
  predicate IsDigit(c: char) {
    '0' <= c <= '9'
  }

  /** `IsDigit` holds of exactly the ten characters `\d` matches. */
  lemma IsDigitClass(c: char)
    ensures IsDigit(c) <==> c in "0123456789"
  {
  }

  function DigitChar(d: nat): (c: char)
    requires d < 10
    ensures IsDigit(c) && c as int - '0' as int == d
  {
    ('0' as int + d) as char
  }

  function DigitValue(c: char): (d: nat)
    requires IsDigit(c)
    ensures d < 10 && DigitChar(d) == c
  {
    c as int - '0' as int
  }

  /** How a template literal `${k}` renders a non-negative integer:
      decimal, most significant digit first, no leading zeros. */
  function NatToString(k: nat): (s: string)
    ensures |s| > 0
    ensures forall i :: 0 <= i < |s| ==> IsDigit(s[i])
    ensures k >= 10 <==> |s| > 1
    ensures s[0] == '0' <==> k == 0
    decreases k
  {
    if k < 10 then [DigitChar(k)] else NatToString(k / 10) + [DigitChar(k % 10)]
  }

  /** Reads a string of decimal digits back as a number. */
  function ParseDecimal(s: string): nat
    requires forall i :: 0 <= i < |s| ==> IsDigit(s[i])
    decreases |s|
  {
    if s == [] then 0 else 10 * ParseDecimal(s[..|s| - 1]) + DigitValue(s[|s| - 1])
  }

  /** Rendering a number in decimal and reading it back gives the number. */
  lemma {:induction false} ParseNatToString(k: nat)
    ensures ParseDecimal(NatToString(k)) == k
    decreases k
  {
    var s := NatToString(k);
    if k < 10 {
      assert s[..0] == [];
    } else {
      ParseNatToString(k / 10);
      assert s[..|s| - 1] == NatToString(k / 10);
    }
  }

  /** Distinct numbers render as distinct strings. */
  lemma NatToStringInjective(j: nat, k: nat)
    requires NatToString(j) == NatToString(k)
    ensures j == k
  {
    ParseNatToString(j);
    ParseNatToString(k);
  }
}
