/** Numbers written in a base, most significant digit first. */
module Radix {

  ghost predicate AreDigits(ds: seq<int>, base: int) {
    forall i :: 0 <= i < |ds| ==> 0 <= ds[i] < base
  }

  function Value(ds: seq<int>, base: int): int {
    if ds == [] then 0 else Value(ds[..|ds| - 1], base) * base + ds[|ds| - 1]
  }

  function Power(base: int, n: nat): (p: nat)
    requires base >= 1
    ensures p >= 1
  {
    if n == 0 then 1
    else
      ProductPositive(base, Power(base, n - 1));
      base * Power(base, n - 1)
  }

  lemma {:induction false} ProductPositive(a: int, b: int)
    requires a >= 1 && b >= 1
    ensures a * b >= 1
  {}

  function Print(n: nat, base: int): (ds: seq<int>)
    requires base >= 2
  {
    if n < base then [n] else Print(n / base, base) + [n % base]
  }

  lemma {:induction false} ValueSnoc(ds: seq<int>, d: int, base: int)
    ensures Value(ds + [d], base) == Value(ds, base) * base + d
  {
    assert (ds + [d])[..|ds|] == ds;
  }

  lemma {:induction false} PrintDigits(n: nat, base: int)
    requires base >= 2
    ensures Print(n, base) != [] && AreDigits(Print(n, base), base)
    ensures n > 0 ==> Print(n, base)[0] > 0
  {
    if n >= base {
      QuotientShrinks(n, base);
      PrintDigits(n / base, base);
    }
  }

  lemma {:induction false} QuotientShrinks(n: nat, base: int)
    requires base >= 2 && n >= base
    ensures 0 < n / base < n && n == n / base * base + n % base
  {
    QuotientBetween(n / base, n % base, n, base);
  }

  lemma {:induction false} QuotientBetween(q: int, r: int, n: nat, base: int)
    requires n == q * base + r && 0 <= r < base && base >= 2 && n >= base
    ensures 0 < q < n
  {
    assert q <= 0 ==> q * base <= 0;
    assert q > 0 ==> q * base >= q * 2;
  }

  lemma {:induction false} ValueAppend(a: seq<int>, b: seq<int>, base: int)
    requires base >= 1
    ensures Value(a + b, base) == Value(a, base) * Power(base, |b|) + Value(b, base)
  {
    if b == [] {
      assert a + b == a;
    } else {
      var init := b[..|b| - 1];
      ValueAppend(a, init, base);
      assert (a + b)[..|a + b| - 1] == a + init;
      AppendStep(base, Value(a, base), Power(base, |init|), Value(init, base), b[|b| - 1]);
    }
  }

  lemma {:induction false} AppendStep(base: int, a: int, p: int, v: int, d: int)
    ensures (a * p + v) * base + d == a * (base * p) + (v * base + d)
  {}

  /** Digits denote a number below the power of their count. */
  lemma {:induction false} ValueBound(ds: seq<int>, base: int)
    requires base >= 2 && AreDigits(ds, base)
    ensures 0 <= Value(ds, base) < Power(base, |ds|)
  {
    if ds != [] {
      var init := ds[..|ds| - 1];
      ValueBound(init, base);
      BoundStep(base, Value(init, base), Power(base, |init|), ds[|ds| - 1]);
    }
  }

  lemma {:induction false} BoundStep(base: int, v: int, p: int, d: int)
    requires 0 <= v < p && 0 <= d < base
    ensures 0 <= v * base + d < base * p
  {
    assert v * base <= (p - 1) * base;
  }

  /** Digits of the same count with the same value are the same. */
  lemma {:induction false} ValueInjective(a: seq<int>, b: seq<int>, base: int)
    requires base >= 2 && AreDigits(a, base) && AreDigits(b, base)
    requires |a| == |b| && Value(a, base) == Value(b, base)
    ensures a == b
  {
    if a != [] {
      var last := |a| - 1;
      SplitUnique(Value(a[..last], base), a[last], base);
      SplitUnique(Value(b[..last], base), b[last], base);
      ValueInjective(a[..last], b[..last], base);
      assert a == a[..last] + [a[last]] && b == b[..last] + [b[last]];
    }
  }

  /** Reading inverts printing. */
  lemma {:induction false} PrintValue(n: nat, base: int)
    requires base >= 2
    ensures Value(Print(n, base), base) == n
  {
    if n >= base {
      QuotientShrinks(n, base);
      PrintValue(n / base, base);
      ValueSnoc(Print(n / base, base), n % base, base);
    } else {
      ValueSnoc([], n, base);
    }
  }

  /** A number below a power prints within that many digits. */
  lemma {:induction false} PrintFits(n: nat, base: int, width: nat)
    requires base >= 2 && width > 0 && n < Power(base, width)
    ensures |Print(n, base)| <= width
    decreases n
  {
    assert Power(base, 1) == base * Power(base, 0);
    if n >= base {
      QuotientShrinks(n, base);
      QuotientBelow(n, base, Power(base, width - 1));
      PrintFits(n / base, base, width - 1);
    }
  }

  lemma {:induction false} QuotientBelow(n: nat, base: int, p: int)
    requires base >= 2 && n < base * p
    ensures n / base < p
  {
    QuotientLess(n / base, n % base, base, p);
  }

  lemma {:induction false} QuotientLess(q: int, r: int, base: int, p: int)
    requires base >= 1 && r >= 0 && q * base + r < base * p
    ensures q < p
  {
    assert q >= p ==> q * base >= p * base;
  }

  lemma {:induction false} ValueNat(ds: seq<int>, base: int)
    requires base >= 2 && AreDigits(ds, base)
    ensures Value(ds, base) >= 0
    ensures ds != [] && ds[0] > 0 ==> Value(ds, base) > 0
  {
    if ds != [] {
      ValueNat(ds[..|ds| - 1], base);
      assert Value(ds[..|ds| - 1], base) * base >= 0;
    }
  }

  lemma {:induction false} PrintSnoc(v: int, d: int, base: int)
    requires v >= 1 && 0 <= d < base && base >= 2
    ensures v * base + d >= 0 && Print(v * base + d, base) == Print(v, base) + [d]
  {
    assert v * base >= base;
    SplitUnique(v, d, base);
  }

  /** A numeral prints back when it has no needless leading zero. */
  lemma {:induction false} ValuePrint(ds: seq<int>, base: int)
    requires base >= 2 && AreDigits(ds, base) && ds != [] && (ds[0] > 0 || |ds| == 1)
    ensures Value(ds, base) >= 0 && Print(Value(ds, base), base) == ds
  {
    ValueNat(ds, base);
    var last := |ds| - 1;
    var head := ds[..last];
    if last == 0 {
      assert head == [] && ds == [ds[0]];
    } else {
      ValuePrint(head, base);
      ValueNat(head, base);
      PrintSnoc(Value(head, base), ds[last], base);
      assert ds == head + [ds[last]];
    }
  }

  lemma {:induction false} SplitUnique(v: int, d: int, base: int)
    requires 0 <= d < base
    ensures (v * base + d) / base == v && (v * base + d) % base == d
  {
    var n := v * base + d;
    assert n == n / base * base + n % base;
    var q := n / base - v;
    assert q * base == d - n % base;
    assert q >= 1 ==> q * base >= base;
    assert q <= -1 ==> q * base <= -base;
  }
}
