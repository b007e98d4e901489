/** `canonical_time`: a time with a unit as an integer number of femtoseconds. */
module TimeValue {
  import opened Bytes
  import opened DecimalContext
  import opened Numerals
  import opened Folding
  import Radix

  // ---- Spelling ----

  /** The parts of a time: sign, whole digits, an optional point with fraction digits, white
      space and unit. */
  datatype Time = Time(sign: string, whole: string, point: bool, fraction: string, space: string, unit: string)

  /** White space as Python's `\s` has it. */
  predicate IsSpace(c: char) {
    || '\U{9}' <= c <= '\U{D}' || '\U{1C}' <= c <= '\U{20}' || c == '\U{85}' || c == '\U{A0}' || c == '\U{1680}'
    || '\U{2000}' <= c <= '\U{200A}' || c == '\U{2028}' || c == '\U{2029}' || c == '\U{202F}'
    || c == '\U{205F}' || c == '\U{3000}'
  }

  predicate AllSpace(s: string) { forall i :: 0 <= i < |s| ==> IsSpace(s[i]) }

  const LONG_S := '\U{17F}'

  /** What a case-insensitive `s` matches: the long s as well. */
  predicate IsS(c: char) { c == 's' || c == 'S' || c == LONG_S }

  predicate IsPrefix(c: char) { c in "munpfMUNPF" }

  predicate IsUnit(u: string) {
    (|u| == 1 && (IsS(u[0]) || IsPrefix(u[0]))) || (|u| == 2 && IsPrefix(u[0]) && IsS(u[1]))
  }

  predicate IsSign(s: string) { s == "" || s == "+" || s == "-" }

  predicate WellFormed(t: Time) {
    && IsSign(t.sign)
    && AllDigits(t.whole) && AllDigits(t.fraction) && AllSpace(t.space) && IsUnit(t.unit)
    && (t.whole != "" || t.fraction != "") && (!t.point ==> t.fraction == "")
  }

  function Tail(t: Time): string { t.space + t.unit }

  function Fraction(t: Time): string { (if t.point then "." else "") + t.fraction + Tail(t) }

  function Spelling(t: Time): string { t.sign + (t.whole + Fraction(t)) }

  // ---- Matching ----

  function LeadingSpace(s: string): (n: nat)
    ensures n <= |s| && AllSpace(s[..n]) && (n < |s| ==> !IsSpace(s[n]))
  {
    if s == "" || !IsSpace(s[0]) then 0 else 1 + LeadingSpace(s[1..])
  }

  function MatchTail(sign: string, whole: string, point: bool, fraction: string, s: string): Option<Time> {
    var n := LeadingSpace(s);
    if IsUnit(s[n..]) then Some(Time(sign, whole, point, fraction, s[..n], s[n..])) else None
  }

  function MatchFraction(sign: string, whole: string, s: string): Option<Time> {
    if s != "" && s[0] == '.' then
      var n := LeadingDigits(s[1..]);
      if whole == "" && n == 0 then None else MatchTail(sign, whole, true, s[1..][..n], s[1..][n..])
    else if whole == "" then None
    else MatchTail(sign, whole, false, "", s)
  }

  /** The pattern of a time, matched against a whole string. */
  function Match(value: string): Option<Time> {
    var k := SignLength(value);
    var rest := value[k..];
    var n := LeadingDigits(rest);
    MatchFraction(value[..k], rest[..n], rest[n..])
  }

  lemma {:induction false} SpaceEnds(a: string, b: string)
    requires AllSpace(a) && (b == "" || !IsSpace(b[0]))
    ensures LeadingSpace(a + b) == |a| && (a + b)[..|a|] == a && (a + b)[|a|..] == b
  {
    if a == "" {
      assert a + b == b;
    } else {
      assert (a + b)[1..] == a[1..] + b;
      SpaceEnds(a[1..], b);
    }
  }

  lemma {:induction false} SpaceChar(c: char)
    requires IsSpace(c)
    ensures !IsDigit(c) && c != '.'
  {}

  lemma {:induction false} UnitChar(u: string)
    requires IsUnit(u)
    ensures !IsDigit(u[0]) && u[0] != '.' && !IsSpace(u[0])
  {}

  /** White space, digits, points and unit letters do not overlap. */
  lemma {:induction false} TailStarts(t: Time)
    requires AllSpace(t.space) && IsUnit(t.unit)
    ensures Tail(t) != "" && !IsDigit(Tail(t)[0]) && Tail(t)[0] != '.' && !IsSpace(t.unit[0])
  {
    UnitChar(t.unit);
    if t.space == "" {
      assert Tail(t) == t.unit;
    } else {
      SpaceChar(t.space[0]);
    }
  }

  lemma {:induction false} TailSpelled(t: Time)
    requires AllSpace(t.space) && IsUnit(t.unit)
    ensures MatchTail(t.sign, t.whole, t.point, t.fraction, Tail(t)) == Some(t)
  {
    TailStarts(t);
    SpaceEnds(t.space, t.unit);
  }

  lemma {:induction false} PointSpelled(sign: string, whole: string, fraction: string, tail: string)
    requires AllDigits(fraction) && (whole != "" || fraction != "") && (tail == "" || !IsDigit(tail[0]))
    ensures MatchFraction(sign, whole, "." + fraction + tail) == MatchTail(sign, whole, true, fraction, tail)
  {
    var s := "." + fraction + tail;
    assert s[0] == '.' && s[1..] == fraction + tail;
    DigitsEnd(fraction, tail);
  }

  lemma {:induction false} FractionSpelled(t: Time)
    requires WellFormed(t)
    ensures MatchFraction(t.sign, t.whole, Fraction(t)) == Some(t)
  {
    TailStarts(t);
    TailSpelled(t);
    if t.point {
      PointSpelled(t.sign, t.whole, t.fraction, Tail(t));
    } else {
      assert Fraction(t) == Tail(t);
    }
  }

  lemma {:induction false} SignEnds(sign: string, rest: string)
    requires IsSign(sign) && rest != "" && rest[0] != '+' && rest[0] != '-'
    ensures SignLength(sign + rest) == |sign| && (sign + rest)[..|sign|] == sign && (sign + rest)[|sign|..] == rest
  {
    assert sign == "" ==> sign + rest == rest;
  }

  lemma {:induction false} FractionStarts(t: Time)
    requires WellFormed(t)
    ensures Fraction(t) != "" && !IsDigit(Fraction(t)[0])
    ensures Fraction(t)[0] == '.' || t.whole != ""
  {
    TailStarts(t);
    assert t.point ==> Fraction(t)[0] == '.';
    assert !t.point ==> Fraction(t) == Tail(t);
  }

  lemma {:induction false} MatchSpelling(t: Time)
    requires WellFormed(t)
    ensures Match(Spelling(t)) == Some(t)
  {
    FractionSpelled(t);
    FractionStarts(t);
    var rest := t.whole + Fraction(t);
    DigitsEnd(t.whole, Fraction(t));
    assert rest[0] == if t.whole != "" then t.whole[0] else Fraction(t)[0];
    SignEnds(t.sign, rest);
  }

  lemma {:induction false} TailMatched(sign: string, whole: string, point: bool, fraction: string, s: string)
    requires MatchTail(sign, whole, point, fraction, s).Some?
    ensures var t := MatchTail(sign, whole, point, fraction, s).value;
            && t.sign == sign && t.whole == whole && t.point == point && t.fraction == fraction
            && AllSpace(t.space) && IsUnit(t.unit) && s == Tail(t)
  {}

  lemma {:induction false} PointSplits(s: string, n: nat)
    requires s != "" && s[0] == '.' && n < |s|
    ensures s == "." + s[1..][..n] + s[1..][n..]
  {}

  lemma {:induction false} PointMatched(sign: string, whole: string, fraction: string, tail: string, s: string)
    requires MatchTail(sign, whole, true, fraction, tail).Some? && s == "." + fraction + tail
    requires AllDigits(whole) && AllDigits(fraction) && (whole != "" || fraction != "") && IsSign(sign)
    ensures var t := MatchTail(sign, whole, true, fraction, tail).value;
            WellFormed(t) && t.sign == sign && t.whole == whole && s == Fraction(t)
  {
    TailMatched(sign, whole, true, fraction, tail);
  }

  lemma {:induction false} NoPointMatched(sign: string, whole: string, s: string)
    requires MatchTail(sign, whole, false, "", s).Some? && AllDigits(whole) && whole != "" && IsSign(sign)
    ensures var t := MatchTail(sign, whole, false, "", s).value;
            WellFormed(t) && t.sign == sign && t.whole == whole && s == Fraction(t)
  {
    TailMatched(sign, whole, false, "", s);
    assert "" + "" + s == s;
  }

  lemma {:induction false} FractionMatched(sign: string, whole: string, s: string)
    requires MatchFraction(sign, whole, s).Some? && AllDigits(whole) && IsSign(sign)
    ensures var t := MatchFraction(sign, whole, s).value;
            WellFormed(t) && t.sign == sign && t.whole == whole && s == Fraction(t)
  {
    if s != "" && s[0] == '.' {
      var r := s[1..];
      var n := LeadingDigits(r);
      PointSplits(s, n);
      PointMatched(sign, whole, r[..n], r[n..], s);
    } else {
      NoPointMatched(sign, whole, s);
    }
  }

  function SignLength(value: string): (k: nat)
    ensures k <= |value| && IsSign(value[..k])
  {
    if value != "" && (value[0] == '+' || value[0] == '-') then
      assert value[..1] == [value[0]];
      1
    else 0
  }

  lemma {:induction false} MatchSound(value: string)
    requires Match(value).Some?
    ensures WellFormed(Match(value).value) && value == Spelling(Match(value).value)
  {
    var k := SignLength(value);
    var rest := value[k..];
    var n := LeadingDigits(rest);
    FractionMatched(value[..k], rest[..n], rest[n..]);
    Splits(value, k, n);
  }

  lemma {:induction false} Splits(value: string, k: nat, n: nat)
    requires k <= |value| && n <= |value| - k
    ensures value == value[..k] + (value[k..][..n] + value[k..][n..])
  {}

  /** Matching accepts exactly the well-formed spellings and returns their parts. */
  lemma {:induction false} MatchExact(value: string, t: Time)
    ensures Match(value) == Some(t) <==> WellFormed(t) && value == Spelling(t)
  {
    if WellFormed(t) && value == Spelling(t) {
      MatchSpelling(t);
    }
    if Match(value) == Some(t) {
      MatchSound(value);
    }
  }

  // ---- Femtoseconds ----

  const BAD_TIME := Malformed("invalid time value")
  const FRACTIONAL := Malformed("time is not representable in integer femtoseconds")

  function Lower(c: char): char {
    if 'A' <= c <= 'Z' then (c as int + 32) as char else c
  }

  /** `unit.lower()` on what the pattern matches: the long s has no lower case of its own. */
  function LowerAll(u: string): (r: string)
    ensures |r| == |u| && forall i :: 0 <= i < |u| ==> r[i] == Lower(u[i])
  {
    seq(|u|, i requires 0 <= i < |u| => Lower(u[i]))
  }

  /** Femtoseconds per unit, as powers of ten. */
  const TIME_FS: map<string, nat> := map[
    "s" := 15, "m" := 12, "ms" := 12, "u" := 9, "us" := 9, "n" := 6, "ns" := 6,
    "p" := 3, "ps" := 3, "f" := 0, "fs" := 0]

  function UnitPower(u: string): Option<nat> {
    var key := LowerAll(u);
    if key in TIME_FS then Some(TIME_FS[key]) else None
  }

  /** The number without its point, and how many digits follow the point. */
  function Coefficient(t: Time): nat
    requires AllDigits(t.whole) && AllDigits(t.fraction)
  {
    NumberOf(t.whole + t.fraction)
  }

  function Signed(sign: string, n: int): int { if sign == "-" then -n else n }

  /** `coefficient` at ten to the `power`, over ten to the `digits`, in whole femtoseconds. The product
      is rounded to the decimal context and must then be integral. */
  function Measure(coefficient: nat, power: nat, digits: nat): Option<nat> {
    var product, scale := Rounded(coefficient * Pow10(power)), Pow10(digits);
    var integral := RoundHalfEven(product, scale);
    if product == integral * scale then Some(integral) else None
  }

  function Combine(sign: string, coefficient: nat, power: Option<nat>, digits: nat): Result<int> {
    match power
    case None => Err(BAD_TIME)
    case Some(k) =>
      match Measure(coefficient, k, digits)
      case None => Err(FRACTIONAL)
      case Some(n) => Ok(Signed(sign, n))
  }

  function Femtoseconds(t: Time): Result<int>
    requires WellFormed(t)
  {
    Combine(t.sign, Coefficient(t), UnitPower(t.unit), |t.fraction|)
  }

  /** `canonical_time`: nothing for a string that is no time. */
  function CanonicalTime(value: string): Result<Option<int>> {
    match Match(value)
    case None => Ok(None)
    case Some(t) =>
      MatchExact(value, t);
      match Femtoseconds(t)
      case Err(e) => Err(e)
      case Ok(n) => Ok(Some(n))
  }

  // ---- Exactness ----

  /** `n` femtoseconds is exactly what the number and unit denote. */
  predicate Denotes(coefficient: nat, power: nat, digits: nat, n: int) {
    coefficient * Pow10(power) == n * Pow10(digits)
  }

  lemma {:induction false} QuotientFits(product: nat, scale: nat, n: int)
    requires scale >= 1
    ensures product == n * scale ==> RoundHalfEven(product, scale) == n
  {
    if product == n * scale {
      Radix.SplitUnique(n, 0, scale);
    }
  }

  /** With at most 28 significant digits the result is the exact number of femtoseconds, and there is
      none exactly when that number is not whole. */
  lemma {:induction false} MeasureShort(coefficient: nat, power: nat, digits: nat, n: nat)
    requires Short(coefficient)
    ensures Measure(coefficient, power, digits) == Some(n) <==> Denotes(coefficient, power, digits, n)
  {
    var product := coefficient * Pow10(power);
    ScaledShort(coefficient, power);
    RoundedExact(product);
    QuotientFits(product, Pow10(digits), n);
  }

  /** With more digits an accepted result is never the exact number. */
  lemma {:induction false} MeasureLong(coefficient: nat, power: nat, digits: nat)
    requires !Short(coefficient) && Measure(coefficient, power, digits).Some?
    ensures !Denotes(coefficient, power, digits, Measure(coefficient, power, digits).value)
  {
    ScaledShort(coefficient, power);
    RoundedExact(coefficient * Pow10(power));
  }

  lemma {:induction false} Outcome(t: Time)
    requires WellFormed(t)
    ensures Femtoseconds(t).Ok? ==> CanonicalTime(Spelling(t)) == Ok(Some(Femtoseconds(t).value))
    ensures Femtoseconds(t).Err? ==> CanonicalTime(Spelling(t)) == Err(Femtoseconds(t).error)
  {
    MatchExact(Spelling(t), t);
  }

  /** `n` femtoseconds is exactly what a signed number and a unit denote. */
  predicate DenotesSigned(sign: string, coefficient: nat, power: nat, digits: nat, n: int) {
    Signed(sign, coefficient) * Pow10(power) == n * Pow10(digits)
  }

  /** Femtoseconds per unit, letter by letter; none for a unit with a long s (U+017F). */
  function UnitScale(u: string): Option<int> {
    if u == "" || '\U{17F}' in u then None
    else
      match u[0]
      case 's' => Some(1000000000000000) case 'S' => Some(1000000000000000)
      case 'm' => Some(1000000000000) case 'M' => Some(1000000000000)
      case 'u' => Some(1000000000) case 'U' => Some(1000000000)
      case 'n' => Some(1000000) case 'N' => Some(1000000)
      case 'p' => Some(1000) case 'P' => Some(1000)
      case 'f' => Some(1) case 'F' => Some(1)
      case _ => None
  }

  /** `n` femtoseconds is exactly what the digits, the sign and the unit of a time say. */
  predicate DenotesTime(t: Time, n: int)
    requires WellFormed(t) && UnitScale(t.unit).Some?
  {
    (if t.sign == "-" then -(Coefficient(t) as int) else Coefficient(t)) * UnitScale(t.unit).value ==
    n * Radix.Power(10, |t.fraction|)
  }

  lemma {:induction false} PowersOfTen()
    ensures Pow10(0) == 1 && Pow10(3) == 1000 && Pow10(6) == 1000000 && Pow10(9) == 1000000000
    ensures Pow10(12) == 1000000000000 && Pow10(15) == 1000000000000000
  {
    assert Pow10(1) == 10 && Pow10(2) == 100 && Pow10(3) == 1000 && Pow10(4) == 10000 && Pow10(5) == 100000;
    assert Pow10(6) == 1000000 && Pow10(7) == 10000000 && Pow10(8) == 100000000 && Pow10(9) == 1000000000;
    assert Pow10(10) == 10000000000 && Pow10(11) == 100000000000 && Pow10(12) == 1000000000000;
    assert Pow10(13) == 10000000000000 && Pow10(14) == 100000000000000;
  }

  lemma {:induction false} KeyPower(key: string)
    requires key in TIME_FS
    ensures key != "" && TIME_FS[key] ==
            match key[0] case 's' => 15 case 'm' => 12 case 'u' => 9 case 'n' => 6 case 'p' => 3 case _ => 0
    ensures key[0] == 's' || key[0] == 'm' || key[0] == 'u' || key[0] == 'n' || key[0] == 'p' || key[0] == 'f'
  {}

  /** The table gives every matched unit its scale. */
  lemma {:induction false} UnitMeans(u: string)
    requires IsUnit(u)
    ensures UnitPower(u).Some? <==> UnitScale(u).Some?
    ensures UnitPower(u).Some? ==> Pow10(UnitPower(u).value) == UnitScale(u).value
  {
    UnitLongS(u);
    PowersOfTen();
    if UnitPower(u).Some? {
      KeyPower(LowerAll(u));
    }
  }

  lemma {:induction false} DenotesMeans(t: Time, n: int)
    requires WellFormed(t) && UnitScale(t.unit).Some?
    ensures UnitPower(t.unit).Some?
    ensures DenotesTime(t, n) <==> DenotesSigned(t.sign, Coefficient(t), UnitPower(t.unit).value, |t.fraction|, n)
  {
    UnitMeans(t.unit);
  }

  lemma {:induction false} SignedProduct(sign: string, c: int, p: int, n: int, q: int)
    requires c >= 0 && p >= 1 && q >= 1
    ensures Signed(sign, c) * p == n * q <==> c * p == Signed(sign, n) * q
    ensures c * p == Signed(sign, n) * q ==> Signed(sign, n) >= 0
  {
    assert (-c) * p == -(c * p) && (-n) * q == -(n * q);
    assert c * p >= 0;
    var m := Signed(sign, n);
    assert m < 0 ==> m * q < 0;
  }

  lemma {:induction false} CombineExact(sign: string, coefficient: nat, power: nat, digits: nat, n: int)
    requires Short(coefficient)
    ensures Combine(sign, coefficient, Some(power), digits) == Ok(n) <==>
            DenotesSigned(sign, coefficient, power, digits, n)
  {
    var m := Signed(sign, n);
    SignedProduct(sign, coefficient, Pow10(power), n, Pow10(digits));
    assert Signed(sign, m) == n;
    if m >= 0 {
      MeasureShort(coefficient, power, digits, m);
    }
  }

  /** A time of at most 28 significant digits becomes exactly the femtoseconds it denotes, and is
      refused exactly when it denotes no whole number of them. */
  lemma {:induction false} TimeExact(t: Time, n: int)
    requires WellFormed(t) && UnitScale(t.unit).Some? && Short(Coefficient(t))
    ensures CanonicalTime(Spelling(t)) == Ok(Some(n)) <==> DenotesTime(t, n)
    ensures CanonicalTime(Spelling(t)).Err? || CanonicalTime(Spelling(t)).value.Some?
  {
    Outcome(t);
    DenotesMeans(t, n);
    CombineExact(t.sign, Coefficient(t), UnitPower(t.unit).value, |t.fraction|, n);
  }

  /** An accepted time is exact when it has at most 28 significant digits, and never otherwise. */
  lemma {:induction false} TimeExactIffShort(t: Time, n: int)
    requires WellFormed(t) && UnitScale(t.unit).Some? && CanonicalTime(Spelling(t)) == Ok(Some(n))
    ensures DenotesTime(t, n) <==> Short(Coefficient(t))
  {
    Outcome(t);
    DenotesMeans(t, n);
    CombineIffShort(t.sign, Coefficient(t), UnitPower(t.unit).value, |t.fraction|, n);
  }

  lemma {:induction false} CombineIffShort(sign: string, coefficient: nat, power: nat, digits: nat, n: int)
    requires Combine(sign, coefficient, Some(power), digits) == Ok(n)
    ensures DenotesSigned(sign, coefficient, power, digits, n) <==> Short(coefficient)
  {
    if Short(coefficient) {
      CombineExact(sign, coefficient, power, digits, n);
    } else {
      MeasureLong(coefficient, power, digits);
      SignedProduct(sign, coefficient, Pow10(power), n, Pow10(digits));
    }
  }

  /** Two such times, in whatever units, become equal exactly when they denote the same whole number
      of femtoseconds. */
  lemma {:induction false} TimesAgree(t: Time, u: Time)
    requires WellFormed(t) && UnitScale(t.unit).Some? && Short(Coefficient(t))
    requires WellFormed(u) && UnitScale(u.unit).Some? && Short(Coefficient(u))
    requires CanonicalTime(Spelling(t)).Ok?
    ensures CanonicalTime(Spelling(t)) == CanonicalTime(Spelling(u)) <==>
            exists n :: DenotesTime(t, n) && DenotesTime(u, n)
  {
    TimeExact(t, 0);
    var n := CanonicalTime(Spelling(t)).value.value;
    TimeExact(t, n);
    TimeExact(u, n);
    if m :| DenotesTime(t, m) && DenotesTime(u, m) {
      TimeExact(t, m);
      TimeExact(u, m);
    }
  }

  lemma {:induction false} CombineUnit(sign: string, coefficient: nat, power: Option<nat>, digits: nat)
    ensures Combine(sign, coefficient, power, digits) == Err(BAD_TIME) <==> power.None?
  {}

  lemma {:induction false} PrefixKeys(c: char)
    requires IsPrefix(c)
    ensures [Lower(c)] in TIME_FS && [Lower(c), 's'] in TIME_FS
  {
    var p := Lower(c);
    assert p == 'm' || p == 'u' || p == 'n' || p == 'p' || p == 'f';
    assert [p] == "m" || [p] == "u" || [p] == "n" || [p] == "p" || [p] == "f";
    assert [p, 's'] == "ms" || [p, 's'] == "us" || [p, 's'] == "ns" || [p, 's'] == "ps" || [p, 's'] == "fs";
  }

  lemma {:induction false} KeyLetters(key: string)
    requires key in TIME_FS
    ensures LONG_S !in key
  {}

  /** Every unit the pattern matches is in the table, apart from those with a long s. */
  lemma {:induction false} UnitLongS(u: string)
    requires IsUnit(u)
    ensures UnitPower(u).None? <==> LONG_S in u
  {
    var key := LowerAll(u);
    if LONG_S in u {
      var i :| 0 <= i < |u| && u[i] == LONG_S;
      assert key[i] == LONG_S;
      if key in TIME_FS {
        KeyLetters(key);
      }
    } else if |u| == 1 {
      assert key == [Lower(u[0])];
      if IsPrefix(u[0]) {
        PrefixKeys(u[0]);
      } else {
        assert key == "s";
      }
    } else {
      PrefixKeys(u[0]);
      assert Lower(u[1]) == 's';
      assert key == [Lower(u[0]), 's'];
    }
  }

  /** The long s is matched as a unit letter but names no unit. */
  lemma {:induction false} LongSRefused(t: Time)
    requires WellFormed(t)
    ensures CanonicalTime(Spelling(t)) == Err(BAD_TIME) <==> LONG_S in t.unit
  {
    Outcome(t);
    UnitLongS(t.unit);
    CombineUnit(t.sign, Coefficient(t), UnitPower(t.unit), |t.fraction|);
  }

  // ---- Across units ----

  /** A whole number with a unit. */
  function Timed(m: nat, unit: string): Time { Time("", Show(m), false, "", "", unit) }

  lemma {:induction false} TimedParts(m: nat, unit: string)
    requires IsUnit(unit)
    ensures WellFormed(Timed(m, unit)) && Coefficient(Timed(m, unit)) == m && Spelling(Timed(m, unit)) == Show(m) + unit
  {
    ShowDigits(m);
    assert Timed(m, unit).whole + Timed(m, unit).fraction == Show(m);
    assert "" + (Show(m) + ("" + "" + ("" + unit))) == Show(m) + unit;
  }

  /** A whole number of at most 28 significant digits in any unit. */
  lemma {:induction false} UnitTime(m: nat, unit: string)
    requires Short(m) && IsUnit(unit) && UnitScale(unit).Some?
    ensures CanonicalTime(Show(m) + unit) == Ok(Some(m * UnitScale(unit).value))
  {
    TimedParts(m, unit);
    assert Radix.Power(10, 0) == 1;
    TimeExact(Timed(m, unit), m * UnitScale(unit).value);
  }

  lemma {:induction false} ThousandShort(m: nat)
    requires Short(m)
    ensures Short(1000 * m)
  {
    PowersOfTen();
    ScaledShort(m, 3);
    assert m * Pow10(3) == 1000 * m;
  }

  /** `s` is accepted as `n` femtoseconds. */
  ghost predicate Becomes(s: string, n: int) {
    forall x {:trigger Unfold(x)} :: Unfold(x) ==> CanonicalTime(s) == Ok(Some(n))
  }

  lemma {:induction false} UnitBecomes(m: nat, unit: string, scale: int)
    requires Short(m) && IsUnit(unit) && UnitScale(unit) == Some(scale)
    ensures Becomes(Show(m) + unit, m * scale)
  {
    UnitTime(m, unit);
  }

  lemma {:induction false} Products(m: int, k: int)
    ensures 1000 * m * k == m * (1000 * k)
  {}

  /** A thousand of a unit is one of the next: the same time, whichever spells it. */
  lemma {:induction false} AdjacentUnits(m: nat, unit: string, smaller: string, scale: int)
    requires Short(m) && IsUnit(unit) && IsUnit(smaller)
    requires UnitScale(unit) == Some(1000 * scale) && UnitScale(smaller) == Some(scale)
    ensures Becomes(Show(m) + unit, m * (1000 * scale)) && Becomes(Show(1000 * m) + smaller, m * (1000 * scale))
  {
    ThousandShort(m);
    Products(m, scale);
    UnitBecomes(m, unit, 1000 * scale);
    UnitBecomes(1000 * m, smaller, scale);
  }

  /** In particular "m ns" and the spelling of 1000 m in ps become the same time. */
  lemma {:induction false} NanoIsThousandPico(m: nat)
    requires Short(m)
    ensures CanonicalTime(Show(m) + "ns") == Ok(Some(m * 1000000))
    ensures CanonicalTime(Show(1000 * m) + "ps") == Ok(Some(m * 1000000))
  {
    AdjacentUnits(m, "ns", "ps", 1000);
    assert Unfold(0);
  }

  // ---- The pattern, character by character ----

  /** A matched unit: s in either case or long, a prefix letter in either case, or a prefix and an s. */
  predicate UnitLetters(u: string) {
    || (|u| == 1 && u[0] in ['s', 'S', '\U{17F}', 'm', 'u', 'n', 'p', 'f', 'M', 'U', 'N', 'P', 'F'])
    || (|u| == 2 && u[0] in ['m', 'u', 'n', 'p', 'f', 'M', 'U', 'N', 'P', 'F'] && u[1] in ['s', 'S', '\U{17F}'])
  }

  /** White space, by code point. */
  predicate SpaceCode(c: int) {
    || c in [9, 10, 11, 12, 13, 28, 29, 30, 31, 32, 133, 160, 5760]
    || c in [8192, 8193, 8194, 8195, 8196, 8197, 8198, 8199, 8200, 8201, 8202, 8232, 8233, 8239, 8287, 12288]
  }

  lemma {:induction false} WellFormedMeans(t: Time)
    ensures WellFormed(t) <==>
            && t.sign in ["", "+", "-"] && (t.whole != "" || t.fraction != "") && (t.point || t.fraction == "")
            && (forall i :: 0 <= i < |t.whole| ==> 48 <= t.whole[i] as int <= 57)
            && (forall i :: 0 <= i < |t.fraction| ==> 48 <= t.fraction[i] as int <= 57)
            && (forall i :: 0 <= i < |t.space| ==> SpaceCode(t.space[i] as int))
            && UnitLetters(t.unit)
  {
    forall c: char
      ensures IsSpace(c) <==> SpaceCode(c as int)
      ensures IsDigit(c) <==> 48 <= c as int <= 57
    {
      SpaceMeans(c);
    }
    UnitLettersMean(t.unit);
  }

  lemma {:induction false} SpaceMeans(c: char)
    ensures IsSpace(c) <==> SpaceCode(c as int)
  {
    var n := c as int;
    assert '\U{9}' as int == 9 && '\U{D}' as int == 13 && '\U{1C}' as int == 28 && '\U{20}' as int == 32;
    assert '\U{85}' as int == 133 && '\U{A0}' as int == 160 && '\U{1680}' as int == 5760;
    assert '\U{2000}' as int == 8192 && '\U{200A}' as int == 8202 && '\U{2028}' as int == 8232;
    assert '\U{2029}' as int == 8233 && '\U{202F}' as int == 8239 && '\U{205F}' as int == 8287 && '\U{3000}' as int == 12288;
  }

  lemma {:induction false} UnitLettersMean(u: string)
    ensures IsUnit(u) <==> UnitLetters(u)
  {}

  // ---- Beyond 28 digits ----

  /** A plain number of femtoseconds. */
  function Plain(n: nat): Time { Timed(n, "fs") }

  lemma {:induction false} PlainParts(n: nat)
    ensures WellFormed(Plain(n)) && Coefficient(Plain(n)) == n && UnitPower(Plain(n).unit) == Some(0)
  {
    var t := Plain(n);
    ShowDigits(n);
    assert t.whole + t.fraction == t.whole;
    assert LowerAll("fs") == "fs";
  }

  lemma {:induction false} MeasurePlain(n: nat)
    ensures Measure(n, 0, 0) == Some(Rounded(n))
  {
    assert Pow10(0) == 1 && n * 1 == n;
    QuotientFits(Rounded(n), 1, Rounded(n));
  }

  lemma {:induction false} PlainTime(n: nat)
    ensures WellFormed(Plain(n)) && CanonicalTime(Spelling(Plain(n))) == Ok(Some(Rounded(n)))
  {
    PlainParts(n);
    MeasurePlain(n);
    Outcome(Plain(n));
  }

  /** A plain number of femtoseconds survives exactly when it has at most 28 significant digits. */
  lemma {:induction false} PlainTimeExact(n: nat)
    ensures WellFormed(Plain(n))
    ensures CanonicalTime(Spelling(Plain(n))) == Ok(Some(n)) <==> Short(n)
  {
    PlainTime(n);
    RoundedExact(n);
  }

  lemma {:induction false} LimitRounds()
    ensures Rounded(LIMIT) == LIMIT == Rounded(LIMIT + 1)
  {
    assert Excess(LIMIT) == 1 && Excess(LIMIT + 1) == 1 && Pow10(1) == 10;
  }

  lemma {:induction false} PlainDiffer(m: nat, n: nat)
    requires m != n
    ensures Spelling(Plain(m)) != Spelling(Plain(n))
  {
    PlainParts(m);
    PlainParts(n);
    MatchSpelling(Plain(m));
    MatchSpelling(Plain(n));
  }

  /** Beyond that, different times can become equal. */
  lemma {:induction false} LongTimesCollide()
    ensures Spelling(Plain(LIMIT)) != Spelling(Plain(LIMIT + 1))
    ensures CanonicalTime(Spelling(Plain(LIMIT))) == CanonicalTime(Spelling(Plain(LIMIT + 1))) == Ok(Some(LIMIT))
  {
    PlainDiffer(LIMIT, LIMIT + 1);
    PlainTime(LIMIT);
    PlainTime(LIMIT + 1);
    LimitRounds();
  }
}
