/** What the bits of a canonical literal are. */
module LiteralValue {
  import opened Bytes
  import opened Binary
  import opened SvLiteral
  import opened Numerals
  import PointerText
  import Radix

  // ---- Exactly `width` four-state bits ----

  predicate IsState(c: char) { c in "01XZ" }

  ghost predicate AreStates(s: string) { forall i :: 0 <= i < |s| ==> IsState(s[i]) }

  lemma {:induction false} BitsAreStates(s: string)
    requires AreBits(s)
    ensures AreStates(s)
  {
    forall i | 0 <= i < |s|
      ensures IsState(s[i])
    {
      assert IsBit(s[i]);
    }
  }

  lemma {:induction false} ExpandShape(c: char, k: nat)
    requires k > 0 && Allowed(c, k)
    ensures |Expand(c, k)| == k && AreStates(Expand(c, k))
    ensures !IsFill(c) ==> AreBits(Expand(c, k)) && ValueOf(Expand(c, k)) == DigitValue(c)
  {
    if !IsFill(c) {
      FormatMeans(DigitValue(c), k);
      BitsAreStates(Expand(c, k));
    }
  }

  lemma {:induction false} InitAllowed(ds: string, k: nat)
    requires ds != "" && AllAllowed(ds, k)
    ensures AllAllowed(ds[..|ds| - 1], k) && Allowed(ds[|ds| - 1], k)
  {}

  lemma {:induction false} ExpandAllSnoc(ds: string, k: nat)
    requires ds != ""
    ensures ExpandAll(ds, k) == ExpandAll(ds[..|ds| - 1], k) + Expand(ds[|ds| - 1], k)
  {
    assert Parts(ds, k)[..|ds| - 1] == Parts(ds[..|ds| - 1], k);
  }

  lemma {:induction false} ExpandAllShape(ds: string, k: nat)
    requires k > 0 && AllAllowed(ds, k)
    ensures |ExpandAll(ds, k)| == |ds| * k && AreStates(ExpandAll(ds, k))
  {
    if ds != "" {
      InitAllowed(ds, k);
      ExpandAllSnoc(ds, k);
      ExpandAllShape(ds[..|ds| - 1], k);
      ExpandShape(ds[|ds| - 1], k);
      StatesAppend(ExpandAll(ds[..|ds| - 1], k), Expand(ds[|ds| - 1], k), |ds| - 1, k);
    }
  }

  lemma {:induction false} StatesAppend(a: string, b: string, n: int, k: int)
    requires AreStates(a) && AreStates(b) && |a| == n * k && |b| == k
    ensures AreStates(a + b) && |a + b| == (n + 1) * k
  {}

  lemma {:induction false} FitShape(bits: string, width: nat)
    requires AreStates(bits)
    ensures |Fit(bits, width)| == width && AreStates(Fit(bits, width))
  {}

  lemma {:induction false} ReducedMod(number: nat, m: nat)
    requires m >= 1
    ensures (if number >= m then number % m else number) == number % m < m
  {
    if number < m {
      ModUnique(0, number, m);
    }
  }

  lemma {:induction false} DecimalShape(ds: string, width: nat)
    requires width > 0 && DecimalBits(ds, width).Ok?
    ensures |DecimalBits(ds, width).value| == width && AreStates(DecimalBits(ds, width).value)
    ensures ds != "" && AllDigits(ds) ==>
              var bits := DecimalBits(ds, width).value;
              AreBits(bits) && ValueOf(bits) == NumberOf(ds) % Pow2(width)
  {
    if ds != "" && AllDigits(ds) {
      var number := NumberOf(ds);
      var n := if number >= Pow2(width) then number % Pow2(width) else number;
      ReducedMod(number, Pow2(width));
      FormatMeans(n, width);
      BitsAreStates(Format(n, width));
    }
  }

  lemma {:induction false} BitsShape(base: char, ds: string, width: nat)
    requires width > 0 && BitsOf(base, ds, width).Ok?
    ensures |BitsOf(base, ds, width).value| == width && AreStates(BitsOf(base, ds, width).value)
  {
    if IsDecimal(base) {
      DecimalShape(ds, width);
    } else {
      var k := DigitWidth(base);
      ExpandAllShape(ds, k);
      FitShape(ExpandAll(ds, k), width);
    }
  }

  /** Every accepted literal yields exactly its width of bits over 0, 1, X and Z. */
  lemma {:induction false} LiteralShape(value: string, g: Logic)
    requires CanonicalLiteral(value) == Ok(Some(g))
    ensures g.width > 0 && |g.bits| == g.width && AreStates(g.bits)
  {
    var l := Match(value).value;
    MatchExact(value, l);
    BitsShape(l.base, Strip(l.digits), NumberOf(l.width));
  }

  // ---- Letters and digits, by the book ----

  /** The value of a digit; -1 for any other character. */
  function HexDigit(c: char): int {
    match c
    case '0' => 0 case '1' => 1 case '2' => 2 case '3' => 3 case '4' => 4
    case '5' => 5 case '6' => 6 case '7' => 7 case '8' => 8 case '9' => 9
    case 'a' => 10 case 'b' => 11 case 'c' => 12 case 'd' => 13 case 'e' => 14 case 'f' => 15
    case 'A' => 10 case 'B' => 11 case 'C' => 12 case 'D' => 13 case 'E' => 14 case 'F' => 15
    case _ => -1
  }

  /** The state an unknown digit stands for; none for any other character. */
  function UnknownState(c: char): Option<char> {
    match c
    case 'x' => Some('X') case 'X' => Some('X')
    case 'z' => Some('Z') case 'Z' => Some('Z') case '?' => Some('Z')
    case _ => None
  }

  /** The radix a base letter stands for. */
  function BaseNumber(base: char): int {
    match base
    case 'b' => 2 case 'B' => 2 case 'o' => 8 case 'O' => 8
    case 'd' => 10 case 'D' => 10 case _ => 16
  }

  lemma {:induction false} HexMeans(c: char)
    ensures IsHex(c) <==> HexDigit(c) >= 0
    ensures IsHex(c) ==> DigitValue(c) == HexDigit(c)
  {}

  lemma {:induction false} FillMeans(c: char)
    ensures IsFill(c) <==> UnknownState(c).Some?
    ensures IsFill(c) ==> FillOf(c) == UnknownState(c).value
  {}

  lemma {:induction false} BaseMeans(base: char)
    ensures IsDecimal(base) <==> BaseNumber(base) == 10
    ensures !IsDecimal(base) ==> Pow2(DigitWidth(base)) == BaseNumber(base)
  {
    assert Radix.Power(2, 1) == 2 && Radix.Power(2, 2) == 4 && Radix.Power(2, 3) == 8 && Radix.Power(2, 4) == 16;
  }

  /** The pattern, character by character. */
  lemma {:induction false} WellFormedMeans(l: Literal)
    ensures WellFormed(l) <==>
            && l.width != "" && (forall i :: 0 <= i < |l.width| ==> 0 <= HexDigit(l.width[i]) <= 9)
            && l.base in ['b', 'B', 'o', 'O', 'd', 'D', 'h', 'H']
            && l.digits != ""
            && forall i :: 0 <= i < |l.digits| ==>
                 HexDigit(l.digits[i]) >= 0 || UnknownState(l.digits[i]).Some? || l.digits[i] == '_'
  {
    forall c: char
      ensures IsHex(c) <==> HexDigit(c) >= 0
      ensures IsFill(c) <==> UnknownState(c).Some?
      ensures IsDigit(c) <==> 0 <= HexDigit(c) <= 9
      ensures IsBase(c) <==> c in ['b', 'B', 'o', 'O', 'd', 'D', 'h', 'H']
    {
      HexMeans(c);
      FillMeans(c);
    }
  }

  // ---- Known digits ----

  predicate Known(ds: string) { forall i :: 0 <= i < |ds| ==> HexDigit(ds[i]) >= 0 }

  function DigitValues(ds: string): (vs: seq<int>)
    ensures |vs| == |ds| && forall i :: 0 <= i < |ds| ==> vs[i] == HexDigit(ds[i])
  {
    seq(|ds|, i requires 0 <= i < |ds| => HexDigit(ds[i]))
  }

  lemma {:induction false} HexIsNotFill(c: char)
    requires IsHex(c)
    ensures !IsFill(c)
  {}

  lemma {:induction false} ExpandAllValue(ds: string, k: nat)
    requires k > 0 && AllAllowed(ds, k) && Known(ds)
    ensures AreBits(ExpandAll(ds, k)) && ValueOf(ExpandAll(ds, k)) == Radix.Value(DigitValues(ds), Pow2(k))
  {
    if ds != "" {
      var init, c := ds[..|ds| - 1], ds[|ds| - 1];
      InitAllowed(ds, k);
      ExpandAllSnoc(ds, k);
      ExpandAllValue(init, k);
      HexMeans(c);
      HexIsNotFill(c);
      ExpandShape(c, k);
      ValueAppend(ExpandAll(init, k), Expand(c, k));
      assert DigitValues(ds)[..|ds| - 1] == DigitValues(init);
    }
  }

  function Missing(bits: string, width: nat): nat { if |bits| < width then width - |bits| else 0 }

  lemma {:induction false} FitPads(bits: string, width: nat)
    requires AreBits(bits)
    ensures Fit(bits, width) == (Zeros(Missing(bits, width)) + bits)[|bits| + Missing(bits, width) - width..]
  {
    assert bits != "" ==> IsBit(bits[0]);
    assert Repeat('0', Missing(bits, width)) == Zeros(Missing(bits, width));
  }

  lemma {:induction false} FitValue(bits: string, width: nat)
    requires AreBits(bits)
    ensures AreBits(Fit(bits, width)) && ValueOf(Fit(bits, width)) == ValueOf(bits) % Pow2(width)
  {
    FitPads(bits, width);
    PaddedMeans(bits, Missing(bits, width));
    Truncated(Zeros(Missing(bits, width)) + bits, width);
  }

  lemma {:induction false} DecimalDigits(ds: string)
    requires AllDigits(ds)
    ensures Known(ds) && NumberOf(ds) == Radix.Value(DigitValues(ds), 10)
  {
    forall i | 0 <= i < |ds|
      ensures HexDigit(ds[i]) == ds[i] as int - '0' as int
    {
      assert IsDigit(ds[i]);
      HexMeans(ds[i]);
    }
    assert DigitsOf(ds) == DigitValues(ds);
  }

  /** Known digits in any base give the binary form of their number modulo 2^width. */
  lemma {:induction false} KnownBits(base: char, ds: string, width: nat)
    requires width > 0 && BitsOf(base, ds, width).Ok? && Known(ds)
    ensures var bits := BitsOf(base, ds, width).value;
            AreBits(bits) && ValueOf(bits) == Radix.Value(DigitValues(ds), BaseNumber(base)) % Pow2(width)
  {
    BaseMeans(base);
    if IsDecimal(base) {
      if |ds| == 1 {
        HexMeans(ds[0]);
        HexIsNotFill(ds[0]);
      }
      DecimalShape(ds, width);
      DecimalDigits(ds);
    } else {
      var k := DigitWidth(base);
      ExpandAllValue(ds, k);
      FitValue(ExpandAll(ds, k), width);
    }
  }

  /** Equal numbers at equal widths have equal bits, whatever bases spell them. */
  lemma {:induction false} BasesAgree(a: char, ds: string, b: char, es: string, width: nat)
    requires width > 0 && BitsOf(a, ds, width).Ok? && BitsOf(b, es, width).Ok? && Known(ds) && Known(es)
    ensures BitsOf(a, ds, width) == BitsOf(b, es, width) <==>
            Radix.Value(DigitValues(ds), BaseNumber(a)) % Pow2(width) == Radix.Value(DigitValues(es), BaseNumber(b)) % Pow2(width)
  {
    KnownBits(a, ds, width);
    KnownBits(b, es, width);
    BitsShape(a, ds, width);
    BitsShape(b, es, width);
    var x, y := BitsOf(a, ds, width).value, BitsOf(b, es, width).value;
    if ValueOf(x) == ValueOf(y) {
      BitsUnique(x, y);
    }
  }

  // ---- Unknown digits ----

  /** How a leading digit extends: X and Z as themselves, `?` as Z, any other by zeros. */
  function LeadFill(c: char): char { if UnknownState(c).Some? then UnknownState(c).value else '0' }

  /** The bits of one digit: an unknown digit gives its state throughout, a known one its number. */
  ghost predicate DigitBits(c: char, bits: string) {
    if UnknownState(c).Some? then forall i :: 0 <= i < |bits| ==> bits[i] == UnknownState(c).value
    else AreBits(bits) && ValueOf(bits) == HexDigit(c)
  }

  lemma {:induction false} DigitExpands(c: char, k: nat)
    requires k > 0 && Allowed(c, k)
    ensures |Expand(c, k)| == k && DigitBits(c, Expand(c, k))
  {
    FillMeans(c);
    HexMeans(c);
    ExpandShape(c, k);
  }

  /** A decimal literal of one unknown digit has that state in every bit. */
  lemma {:induction false} UnknownDecimal(c: char, width: nat)
    requires UnknownState(c).Some?
    ensures DecimalBits([c], width) == Ok(seq(width, _ => UnknownState(c).value))
  {
    FillMeans(c);
    assert !IsDigit(c);
    assert !AllDigits([c]) by { assert [c][0] == c; }
    assert Repeat(FillOf(c), width) == seq(width, _ => UnknownState(c).value);
  }

  lemma {:induction false} JoinSnoc(a: seq<string>, x: string)
    ensures Join(a + [x]) == Join(a) + x
  {
    assert (a + [x])[..|a|] == a;
  }

  lemma {:induction false} Regroup(x: string, y: string, z: string)
    ensures (x + y) + z == x + (y + z)
  {}

  lemma {:induction false} JoinAppend(a: seq<string>, b: seq<string>)
    ensures Join(a + b) == Join(a) + Join(b)
  {
    if b == [] {
      assert a + b == a;
    } else {
      var init, x := b[..|b| - 1], b[|b| - 1];
      JoinAppend(a, init);
      assert b == init + [x] && a + b == (a + init) + [x];
      JoinSnoc(a + init, x);
      JoinSnoc(init, x);
      Regroup(Join(a), Join(init), x);
    }
  }

  lemma {:induction false} JoinSplit(parts: seq<string>, d: nat)
    requires d < |parts|
    ensures Join(parts) == Join(parts[..d]) + parts[d] + Join(parts[d + 1..])
  {
    assert parts[..d + 1][..d] == parts[..d] && parts == parts[..d + 1] + parts[d + 1..];
    JoinAppend(parts[..d + 1], parts[d + 1..]);
  }

  /** Digit by digit: each digit expands where it stands. */
  lemma {:induction false} ExpandAllSplit(ds: string, k: nat, d: nat)
    requires d < |ds|
    ensures ExpandAll(ds, k) == ExpandAll(ds[..d], k) + Expand(ds[d], k) + ExpandAll(ds[d + 1..], k)
    ensures k > 0 && AllAllowed(ds, k) ==> |ExpandAll(ds[..d], k)| == d * k && |Expand(ds[d], k)| == k && DigitBits(ds[d], Expand(ds[d], k))
  {
    if k > 0 && AllAllowed(ds, k) {
      ExpandAllShape(ds[..d], k);
      DigitExpands(ds[d], k);
    }
    var parts := Parts(ds, k);
    JoinSplit(parts, d);
    assert parts[..d] == Parts(ds[..d], k) && parts[d + 1..] == Parts(ds[d + 1..], k);
  }

  lemma {:induction false} ExpandAllFirst(ds: string, k: nat)
    requires k > 0 && ds != "" && AllAllowed(ds, k)
    ensures Allowed(ds[0], k) && ExpandAll(ds, k) != "" && ExpandAll(ds, k)[0] == Expand(ds[0], k)[0]
  {
    ExpandAllSplit(ds, k, 0);
    ExpandShape(ds[0], k);
    assert ds[..0] == "" && Parts("", k) == [];
  }

  lemma {:induction false} FirstState(c: char, k: nat)
    requires k > 0 && Allowed(c, k)
    ensures var b := Expand(c, k);
            |b| == k && (if b[0] == 'X' || b[0] == 'Z' then b[0] else '0') == LeadFill(c)
  {
    FillMeans(c);
    ExpandShape(c, k);
    if !IsFill(c) {
      assert IsBit(Expand(c, k)[0]);
    }
  }

  /** A binary, octal or hexadecimal literal: the digits' bits, extended by the leading digit when
      they are too few and cut on the left when they are too many. */
  lemma {:induction false} PowerExtends(ds: string, k: nat, width: nat)
    requires k > 0 && ds != "" && AllAllowed(ds, k)
    ensures var e := ExpandAll(ds, k);
            && (|e| <= width ==> Fit(e, width) == Repeat(LeadFill(ds[0]), width - |e|) + e)
            && (|e| > width ==> Fit(e, width) == e[|e| - width..])
  {
    ExpandAllFirst(ds, k);
    FirstState(ds[0], k);
    FitExtends(ExpandAll(ds, k), width, LeadFill(ds[0]));
  }

  lemma {:induction false} FitExtends(e: string, width: nat, fill: char)
    requires e != "" && fill == if e[0] == 'X' || e[0] == 'Z' then e[0] else '0'
    ensures |e| <= width ==> Fit(e, width) == Repeat(fill, width - |e|) + e
    ensures |e| > width ==> Fit(e, width) == e[|e| - width..]
  {
    if |e| > width {
      assert Repeat(fill, 0) + e == e;
    }
  }

  // ---- Whole literals ----

  /** Bits per digit, by letter. */
  function GroupWidth(base: char): nat {
    match base
    case 'b' => 1 case 'B' => 1 case 'o' => 3 case 'O' => 3 case _ => 4
  }

  /** The digits a base admits: known digits below its radix and unknown digits, or in decimal only known
      digits or a single unknown one. */
  predicate Admitted(base: char, ds: string) {
    && ds != ""
    && if base == 'd' || base == 'D' then
         (forall i :: 0 <= i < |ds| ==> 0 <= HexDigit(ds[i]) <= 9) || (|ds| == 1 && UnknownState(ds[0]).Some?)
       else
         forall i :: 0 <= i < |ds| ==> 0 <= HexDigit(ds[i]) < BaseNumber(base) || UnknownState(ds[i]).Some?
  }

  lemma {:induction false} AdmittedMeans(base: char, ds: string)
    ensures Admitted(base, ds) <==>
            if IsDecimal(base) then (ds != "" && AllDigits(ds)) || (|ds| == 1 && IsFill(ds[0]))
            else ds != "" && AllAllowed(ds, DigitWidth(base))
  {
    BaseMeans(base);
    forall c: char
      ensures IsDigit(c) <==> 0 <= HexDigit(c) <= 9
      ensures IsFill(c) <==> UnknownState(c).Some?
      ensures !IsDecimal(base) ==> (Allowed(c, DigitWidth(base)) <==> 0 <= HexDigit(c) < BaseNumber(base) || UnknownState(c).Some?)
    {
      HexMeans(c);
      FillMeans(c);
    }
  }

  /** A binary, octal or hexadecimal literal has 1, 3 or 4 bits per digit. */
  lemma {:induction false} GroupsByLetter(base: char, ds: string, width: nat)
    requires base != 'd' && base != 'D' && BitsOf(base, ds, width).Ok?
    ensures ds != "" && AllAllowed(ds, GroupWidth(base))
    ensures BitsOf(base, ds, width) == Ok(Fit(ExpandAll(ds, GroupWidth(base)), width))
  {}

  /** A well-formed spelling is refused exactly for a zero width or digits its base does not admit. */
  lemma {:induction false} LiteralOutcome(l: Literal)
    requires WellFormed(l)
    ensures CanonicalLiteral(Spelling(l)).Ok? <==> NumberOf(l.width) > 0 && Admitted(l.base, Strip(l.digits))
    ensures CanonicalLiteral(Spelling(l)).Ok? ==>
              var bits := BitsOf(l.base, Strip(l.digits), NumberOf(l.width));
              bits.Ok? && CanonicalLiteral(Spelling(l)) == Ok(Some(Logic(NumberOf(l.width), bits.value, l.signed)))
  {
    MatchExact(Spelling(l), l);
    AdmittedMeans(l.base, Strip(l.digits));
  }

  /** The number a literal with known digits spells. */
  function Spells(l: Literal): int {
    Radix.Value(DigitValues(Strip(l.digits)), BaseNumber(l.base))
  }

  /** Two accepted literals with known digits become the same value exactly when they agree in
      width, in sign and in their number modulo 2^width. */
  lemma {:induction false} LiteralsAgree(l: Literal, m: Literal)
    requires WellFormed(l) && WellFormed(m) && Known(Strip(l.digits)) && Known(Strip(m.digits))
    requires CanonicalLiteral(Spelling(l)).Ok? && CanonicalLiteral(Spelling(m)).Ok?
    ensures CanonicalLiteral(Spelling(l)) == CanonicalLiteral(Spelling(m)) <==>
            && NumberOf(l.width) == NumberOf(m.width) && l.signed == m.signed
            && Spells(l) % Pow2(NumberOf(l.width)) == Spells(m) % Pow2(NumberOf(l.width))
  {
    LiteralOutcome(l);
    LiteralOutcome(m);
    var width := NumberOf(l.width);
    if width == NumberOf(m.width) {
      BasesAgree(l.base, Strip(l.digits), m.base, Strip(m.digits), width);
    }
  }

  lemma {:induction false} StripAppend(a: string, b: string)
    ensures Strip(a + b) == Strip(a) + Strip(b)
    decreases |a|
  {
    if a == "" {
      assert a + b == b;
    } else {
      assert a == [a[0]] + a[1..] && a + b == [a[0]] + (a[1..] + b);
      StripFirst(a[0], a[1..] + b);
      StripFirst(a[0], a[1..]);
      StripAppend(a[1..], b);
    }
  }

  function WithUnderscore(l: Literal, i: nat): Literal
    requires i <= |l.digits|
  {
    l.(digits := l.digits[..i] + ("_" + l.digits[i..]))
  }

  lemma {:induction false} StripUnderscore(a: string, b: string)
    ensures Strip(a + ("_" + b)) == Strip(a + b)
  {
    StripAppend(a, b);
    StripAppend(a, "_" + b);
    StripFirst('_', b);
  }

  lemma {:induction false} SameStripped(l: Literal, m: Literal)
    requires WellFormed(l) && WellFormed(m) && m == l.(digits := m.digits) && Strip(m.digits) == Strip(l.digits)
    ensures CanonicalLiteral(Spelling(m)) == CanonicalLiteral(Spelling(l))
  {
    MatchExact(Spelling(l), l);
    MatchExact(Spelling(m), m);
  }

  lemma {:induction false} UnderscoreLogic(a: string, b: string)
    requires AllLogic(a + b)
    ensures AllLogic(a + ("_" + b))
  {
    var s, t := a + ("_" + b), a + b;
    assert forall i :: 0 <= i < |a| ==> s[i] == t[i];
    assert forall i :: |a| < i < |s| ==> s[i] == t[i - 1];
  }

  /** An underscore anywhere among the digits changes nothing, acceptance included. */
  lemma {:induction false} UnderscoreIgnored(l: Literal, i: nat)
    requires WellFormed(l) && i <= |l.digits|
    ensures WellFormed(WithUnderscore(l, i))
    ensures CanonicalLiteral(Spelling(WithUnderscore(l, i))) == CanonicalLiteral(Spelling(l))
  {
    assert l.digits == l.digits[..i] + l.digits[i..];
    StripUnderscore(l.digits[..i], l.digits[i..]);
    UnderscoreLogic(l.digits[..i], l.digits[i..]);
    SameStripped(l, WithUnderscore(l, i));
  }

  lemma {:induction false} StripFirst(c: char, b: string)
    ensures Strip([c] + b) == (if c == '_' then "" else [c]) + Strip(b)
  {
    if c == '_' {
      PointerText.ReplaceHits("_", b, "");
    } else {
      PointerText.ReplaceSkips(c, b, "_", "");
    }
  }
}
