/** Decimal numerals in text. */
module Numerals {
  import Radix

  predicate IsDigit(c: char) { '0' <= c <= '9' }

  predicate AllDigits(s: string) { forall i :: 0 <= i < |s| ==> IsDigit(s[i]) }

  function DigitsOf(s: string): (ds: seq<int>)
    ensures |ds| == |s| && forall i :: 0 <= i < |ds| ==> ds[i] == s[i] as int - '0' as int
  {
    seq(|s|, i requires 0 <= i < |s| => s[i] as int - '0' as int)
  }

  /** `int(s)`. */
  function NumberOf(s: string): nat
    requires AllDigits(s)
  {
    Radix.ValueNat(DigitsOf(s), 10);
    Radix.Value(DigitsOf(s), 10)
  }

  lemma {:induction false} DigitsInjective(a: string, b: string)
    requires DigitsOf(a) == DigitsOf(b)
    ensures a == b
  {
    forall i | 0 <= i < |a|
      ensures a[i] == b[i]
    {
      assert DigitsOf(a)[i] == DigitsOf(b)[i];
    }
  }

  function DigitChar(d: int): char
    requires 0 <= d < 10
  {
    (d + '0' as int) as char
  }

  /** `str(n)`. */
  function Show(n: nat): (s: string)
    ensures |s| == |Radix.Print(n, 10)|
  {
    var ds := Radix.Print(n, 10);
    Radix.PrintDigits(n, 10);
    seq(|ds|, i requires 0 <= i < |ds| => DigitChar(ds[i]))
  }

  lemma {:induction false} ShowDigits(n: nat)
    ensures DigitsOf(Show(n)) == Radix.Print(n, 10)
    ensures Show(n) != "" && AllDigits(Show(n)) && NumberOf(Show(n)) == n
  {
    Radix.PrintDigits(n, 10);
    Radix.PrintValue(n, 10);
  }

  function LeadingDigits(s: string): (n: nat)
    ensures n <= |s| && AllDigits(s[..n]) && (n < |s| ==> !IsDigit(s[n]))
  {
    if s == "" || !IsDigit(s[0]) then 0 else 1 + LeadingDigits(s[1..])
  }

  lemma {:induction false} DigitsEnd(a: string, b: string)
    requires AllDigits(a) && (b == "" || !IsDigit(b[0]))
    ensures LeadingDigits(a + b) == |a| && (a + b)[..|a|] == a && (a + b)[|a|..] == b
  {
    if a == "" {
      assert a + b == b;
    } else {
      assert (a + b)[1..] == a[1..] + b;
      DigitsEnd(a[1..], b);
    }
  }
}
