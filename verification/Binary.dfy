/** Binary strings: fixed width, zero padding, concatenation and truncation. */
module Binary {
  import Radix

  function Pow2(n: nat): (p: nat)
    ensures p >= 1
  {
    Radix.Power(2, n)
  }

  predicate IsBit(c: char) { c == '0' || c == '1' }

  ghost predicate AreBits(s: string) {
    forall i :: 0 <= i < |s| ==> IsBit(s[i])
  }

  function BitChar(d: int): char { if d == 0 then '0' else '1' }

  function BitValues(s: string): (ds: seq<int>)
    ensures |ds| == |s| && forall i :: 0 <= i < |s| ==> ds[i] == if s[i] == '0' then 0 else 1
  {
    seq(|s|, i requires 0 <= i < |s| => if s[i] == '0' then 0 else 1)
  }

  /** The number a string of bits denotes. */
  function ValueOf(s: string): nat {
    Radix.ValueNat(BitValues(s), 2);
    Radix.Value(BitValues(s), 2)
  }

  function Zeros(n: nat): string { seq(n, _ => '0') }

  /** Python's `format(n, "b")`. */
  function Print(n: nat): (s: string)
    ensures |s| == |Radix.Print(n, 2)| && forall i :: 0 <= i < |s| ==> s[i] == BitChar(Radix.Print(n, 2)[i])
  {
    var ds := Radix.Print(n, 2);
    seq(|ds|, i requires 0 <= i < |ds| => BitChar(ds[i]))
  }

  /** Python's `format(n, "0<width>b")`. */
  function Format(n: nat, width: nat): string {
    var s := Print(n);
    Zeros(if |s| < width then width - |s| else 0) + s
  }

  // ---- Values ----

  lemma {:induction false} ValueAppend(a: string, b: string)
    ensures ValueOf(a + b) == ValueOf(a) * Pow2(|b|) + ValueOf(b)
  {
    assert BitValues(a + b) == BitValues(a) + BitValues(b);
    Radix.ValueAppend(BitValues(a), BitValues(b), 2);
  }

  lemma {:induction false} ZerosValue(n: nat)
    ensures ValueOf(Zeros(n)) == 0 && AreBits(Zeros(n))
  {
    if n > 0 {
      ZerosValue(n - 1);
      assert BitValues(Zeros(n))[..n - 1] == BitValues(Zeros(n - 1));
    }
  }

  lemma {:induction false} PrintMeans(n: nat)
    ensures AreBits(Print(n)) && ValueOf(Print(n)) == n
  {
    Radix.PrintDigits(n, 2);
    Radix.PrintValue(n, 2);
    BitCharsMean(Radix.Print(n, 2), Print(n));
  }

  lemma {:induction false} BitCharsMean(ds: seq<int>, s: string)
    requires Radix.AreDigits(ds, 2) && |s| == |ds| && forall i :: 0 <= i < |s| ==> s[i] == BitChar(ds[i])
    ensures AreBits(s) && BitValues(s) == ds
  {}

  /** A number that fits is printed at exactly the width. */
  lemma {:induction false} FormatMeans(n: nat, width: nat)
    requires width > 0 && n < Pow2(width)
    ensures |Format(n, width)| == width && AreBits(Format(n, width)) && ValueOf(Format(n, width)) == n
  {
    PrintMeans(n);
    Radix.PrintFits(n, 2, width);
    PaddedMeans(Print(n), width - |Print(n)|);
  }

  lemma {:induction false} PaddedMeans(s: string, k: nat)
    requires AreBits(s)
    ensures |Zeros(k) + s| == k + |s| && AreBits(Zeros(k) + s) && ValueOf(Zeros(k) + s) == ValueOf(s)
  {
    ZerosValue(k);
    ValueAppend(Zeros(k), s);
  }

  lemma {:induction false} ModUnique(q: int, r: int, m: int)
    requires 0 <= r < m
    ensures (q * m + r) % m == r
  {
    Radix.SplitUnique(q, r, m);
  }

  /** The last `width` bits are the value modulo 2^width. */
  lemma {:induction false} Truncated(s: string, width: nat)
    requires width <= |s|
    ensures ValueOf(s[|s| - width..]) == ValueOf(s) % Pow2(width)
  {
    var a, b := s[..|s| - width], s[|s| - width..];
    assert s == a + b;
    ValueAppend(a, b);
    Radix.ValueBound(BitValues(b), 2);
    ModUnique(ValueOf(a), ValueOf(b), Pow2(width));
  }

  /** Bits of the same width with the same value are the same. */
  lemma {:induction false} BitsUnique(a: string, b: string)
    requires AreBits(a) && AreBits(b) && |a| == |b| && ValueOf(a) == ValueOf(b)
    ensures a == b
  {
    Radix.ValueInjective(BitValues(a), BitValues(b), 2);
    forall i | 0 <= i < |a|
      ensures a[i] == b[i]
    {
      assert IsBit(a[i]) && IsBit(b[i]) && BitValues(a)[i] == BitValues(b)[i];
    }
  }
}
