/** Products under Python's default decimal context: 28 significant digits, halves to even. */
module DecimalContext {
  import Radix

  function Pow10(n: nat): (p: nat)
    ensures p >= 1
  {
    Radix.Power(10, n)
  }

  const LIMIT: nat := 10000000000000000000000000000

  /** The nearest multiple count: `n / d` rounded, halves to even. */
  function RoundHalfEven(n: nat, d: nat): nat
    requires d >= 1
  {
    var q, r := n / d, n % d;
    if 2 * r < d || (2 * r == d && q % 2 == 0) then q else q + 1
  }

  /** How many digits a number has beyond 28. */
  function Excess(p: nat): nat { if p < LIMIT then 0 else 1 + Excess(p / 10) }

  /** The number a product becomes in the context. */
  function Rounded(p: nat): nat { RoundHalfEven(p, Pow10(Excess(p))) * Pow10(Excess(p)) }

  /** The number without its trailing zeros. */
  function Stripped(p: nat): nat { if p > 0 && p % 10 == 0 then Stripped(p / 10) else p }

  /** At most 28 significant digits. */
  predicate Short(p: nat) { Stripped(p) < LIMIT }

  // ---- Rounding is exact for short numbers only ----

  lemma {:induction false} DivModTen(p: nat, d: nat)
    requires d >= 1 && p % 10 == 0
    ensures p % (10 * d) == 0 <==> p / 10 % d == 0
  {
    var q := p / 10;
    assert p == 10 * q;
    if q % d == 0 {
      var t := q / d;
      assert q == t * d;
      assert p == t * (10 * d) + 0 by { Reassociate(t, d); }
      Radix.SplitUnique(t, 0, 10 * d);
    }
    if p % (10 * d) == 0 {
      var t := p / (10 * d);
      assert p == t * (10 * d);
      Reassociate(t, d);
      assert q == t * d + 0;
      Radix.SplitUnique(t, 0, d);
    }
  }

  lemma {:induction false} Reassociate(t: int, d: int)
    ensures t * (10 * d) == 10 * (t * d)
  {}

  lemma {:induction false} TenDivides(p: nat, d: nat)
    requires d >= 1 && p % (10 * d) == 0
    ensures p % 10 == 0
  {
    var t := p / (10 * d);
    assert p == t * (10 * d);
    Reassociate(t, d);
    Radix.SplitUnique(t * d, 0, 10);
  }

  lemma {:induction false} StrippedSmaller(p: nat)
    ensures Stripped(p) <= p
  {
    if p > 0 && p % 10 == 0 {
      StrippedSmaller(p / 10);
    }
  }

  lemma {:induction false} ExcessDivides(p: nat)
    ensures p % Pow10(Excess(p)) == 0 <==> Short(p)
  {
    if p < LIMIT {
      StrippedSmaller(p);
    } else {
      var d := Pow10(Excess(p / 10));
      assert Pow10(Excess(p)) == 10 * d;
      if p % 10 == 0 {
        ExcessDivides(p / 10);
        DivModTen(p, d);
      } else if p % (10 * d) == 0 {
        TenDivides(p, d);
      }
    }
  }

  lemma {:induction false} RoundExact(n: nat, d: nat)
    requires d >= 1
    ensures RoundHalfEven(n, d) * d == n <==> n % d == 0
  {
    var q, r := n / d, n % d;
    assert n == q * d + r;
    assert (q + 1) * d == q * d + d;
  }

  /** A product is kept exactly when it has at most 28 significant digits. */
  lemma {:induction false} RoundedExact(p: nat)
    ensures Rounded(p) == p <==> Short(p)
  {
    RoundExact(p, Pow10(Excess(p)));
    ExcessDivides(p);
  }

  /** Scaling by a power of ten does not change the significant digits. */
  lemma {:induction false} ScaledShort(c: nat, k: nat)
    ensures Short(c * Pow10(k)) <==> Short(c)
  {
    if k > 0 && c > 0 {
      ScaledShort(c, k - 1);
      var p := c * Pow10(k - 1);
      Reassociate(c, Pow10(k - 1));
      Radix.ProductPositive(c, Pow10(k - 1));
      assert Stripped(10 * p) == Stripped(p);
    }
  }

  // ---- The context, by the book ----

  lemma {:induction false} PowerAdd(m: nat, n: nat)
    ensures Pow10(m + n) == Pow10(m) * Pow10(n)
  {
    if n > 0 {
      PowerAdd(m, n - 1);
      Reassociate(Pow10(m), Pow10(n - 1));
    }
  }

  /** The limit is 28 digits. */
  lemma {:induction false} LimitIsPower()
    ensures LIMIT == Radix.Power(10, 28)
  {
    assert Pow10(1) == 10 && Pow10(2) == 100 && Pow10(3) == 1000 && Pow10(4) == 10000 && Pow10(5) == 100000;
    assert Pow10(6) == 1000000 && Pow10(7) == 10000000;
    PowerAdd(7, 7);
    PowerAdd(14, 14);
  }

  lemma {:induction false} ExcessBounds(p: nat)
    ensures Pow10(Excess(p)) * LIMIT > p
    ensures Excess(p) > 0 ==> Pow10(Excess(p) - 1) * LIMIT <= p
  {
    if p >= LIMIT {
      ExcessBounds(p / 10);
      var d := Pow10(Excess(p / 10));
      assert Pow10(Excess(p)) == 10 * d;
      ScaleUp(d, p);
      if Excess(p / 10) > 0 {
        ScaleDown(Pow10(Excess(p / 10) - 1), p);
      }
    }
  }

  lemma {:induction false} ScaleUp(d: int, p: nat)
    requires d * LIMIT > p / 10
    ensures 10 * d * LIMIT > p
  {}

  lemma {:induction false} ScaleDown(d: int, p: nat)
    requires d * LIMIT <= p / 10
    ensures 10 * d * LIMIT <= p
  {}

  /** Rounding to 28 digits: to a multiple of the power of ten that leaves 28 digits, the nearest one, and
      on a tie the even one. */
  lemma {:induction false} RoundedNearest(p: nat)
    ensures var e := Excess(p);
            && p < Pow10(e) * Radix.Power(10, 28) && (e > 0 ==> Pow10(e - 1) * Radix.Power(10, 28) <= p)
            && exists q: nat :: Nearest(p, Pow10(e), q) && Rounded(p) == q * Pow10(e)
  {
    LimitIsPower();
    ExcessBounds(p);
    var d := Pow10(Excess(p));
    HalfEvenNearest(p, d);
    assert Nearest(p, d, RoundHalfEven(p, d));
  }

  /** `q` times `d` is nearest to `p`, or one of two nearest and `q` is even. */
  predicate Nearest(p: int, d: int, q: int) {
    -d <= 2 * (q * d - p) <= d && (2 * (q * d - p) == d || 2 * (q * d - p) == -d ==> q % 2 == 0)
  }

  lemma {:induction false} HalfEvenNearest(p: nat, d: nat)
    requires d >= 1
    ensures Nearest(p, d, RoundHalfEven(p, d))
  {
    NearestQuotient(p / d, p % d, p, d);
  }

  lemma {:induction false} NearestQuotient(q: int, r: int, p: int, d: int)
    requires p == q * d + r && 0 <= r < d
    ensures Nearest(p, d, if 2 * r < d || (2 * r == d && q % 2 == 0) then q else q + 1)
  {
    assert (q + 1) * d == q * d + d;
  }
}
