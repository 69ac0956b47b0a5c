/** Decimal digit strings and natural numbers: the `toString()` and
    `Number`/`parseInt` conversions of the source, restricted to digit strings. */
module Decimal {

  predicate IsDigit(c: char) { '0' <= c <= '9' }

  predicate AllDigits(s: string) { forall i :: 0 <= i < |s| ==> IsDigit(s[i]) }

  /** A digit string as `toString()` writes it: non-empty, no leading zero. */
  predicate Canonical(s: string) {
    |s| >= 1 && AllDigits(s) && (s[0] == '0' ==> |s| == 1)
  }

  function DigitValue(c: char): (d: nat)
    requires IsDigit(c)
    ensures d < 10
  {
    (c as int) - ('0' as int)
  }

  function DigitChar(d: nat): (c: char)
    requires d < 10
    ensures IsDigit(c) && DigitValue(c) == d
  {
    ('0' as int + d) as char
  }

  /** The number a digit string denotes; the empty string denotes 0. */
  function Value(s: string): nat
    requires AllDigits(s)
  {
    if s == [] then 0 else 10 * Value(s[..|s| - 1]) + DigitValue(s[|s| - 1])
  }

  /** `n.toString()` for a natural number. */
  function FromNat(n: nat): (r: string)
    ensures |r| >= 1 && AllDigits(r)
    ensures (|r| == 1) == (n < 10)
  {
    if n < 10 then [DigitChar(n)] else FromNat(n / 10) + [DigitChar(n % 10)]
  }

  lemma {:induction false} ValueOfFromNat(n: nat)
    ensures Value(FromNat(n)) == n
  {
    if n >= 10 {
      var r := FromNat(n);
      assert r[..|r| - 1] == FromNat(n / 10);
      ValueOfFromNat(n / 10);
    }
  }

  lemma FromNatInjective(a: nat, b: nat)
    requires FromNat(a) == FromNat(b)
    ensures a == b
  {
    ValueOfFromNat(a);
    ValueOfFromNat(b);
  }

  lemma {:induction false} FromNatCanonical(n: nat)
    ensures Canonical(FromNat(n))
  {
    if n >= 10 {
      FromNatCanonical(n / 10);
      assert FromNat(n)[0] == FromNat(n / 10)[0];
    }
  }

  /** A digit string that starts with a non-zero digit denotes a positive number. */
  lemma {:induction false} ValuePositive(s: string)
    requires AllDigits(s) && |s| >= 1 && s[0] != '0'
    ensures Value(s) >= 1
  {
    if |s| > 1 {
      ValuePositive(s[..|s| - 1]);
    }
  }

  /** `toString()` is the inverse of reading a canonical digit string. */
  lemma {:induction false} FromNatOfValue(s: string)
    requires Canonical(s)
    ensures FromNat(Value(s)) == s
  {
    if |s| > 1 {
      var init := s[..|s| - 1];
      ValuePositive(init);
      FromNatOfValue(init);
      assert Value(s) / 10 == Value(init) && Value(s) % 10 == DigitValue(s[|s| - 1]);
    }
  }

  /** A leading zero does not change the value: `Number("07") == 7`. */
  lemma {:induction false} LeadingZero(s: string)
    requires AllDigits(s)
    ensures AllDigits("0" + s) && Value("0" + s) == Value(s)
  {
    if s != [] {
      assert ("0" + s)[..|s|] == "0" + s[..|s| - 1];
      LeadingZero(s[..|s| - 1]);
    }
  }
}
