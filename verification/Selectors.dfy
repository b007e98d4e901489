/** Scopes and trailing numeric selectors of signal names. */
module Selectors {
  import opened Bytes
  import opened Image
  import opened Numerals

  const DOT: Byte := 46
  const OPEN: Byte := 91
  const CLOSE: Byte := 93
  const INT64_MAX: int := TWO63 - 1

  /** `rfind`: the last place a byte occurs. */
  function LastIndexOf(s: Str, c: Byte): (r: Option<nat>)
    ensures r.None? ==> c !in s
    ensures r.Some? ==> r.value < |s| && s[r.value] == c && c !in s[r.value + 1..]
  {
    if s == [] then None
    else
      var last := |s| - 1;
      if s[last] == c then Some(last)
      else
        var r := LastIndexOf(s[..last], c);
        assert s == s[..last] + [s[last]];
        assert r.Some? ==> s[r.value + 1..] == s[..last][r.value + 1..] + [s[last]];
        r
  }

  /** The name without its last component; empty for a name without a dot. */
  function ScopeOf(name: Str): Str {
    match LastIndexOf(name, DOT)
    case None => []
    case Some(dot) => name[..dot]
  }

  lemma {:induction false} LastOccurrence(a: Str, c: Byte, b: Str)
    requires c !in b
    ensures LastIndexOf(a + [c] + b, c) == Some(|a|)
  {
    var s := a + [c] + b;
    if b != [] {
      assert s[..|s| - 1] == a + [c] + b[..|b| - 1];
      LastOccurrence(a, c, b[..|b| - 1]);
    }
  }

  /** A name is its scope, a dot (byte 46) and a dot-free component, or a dot-free component alone. */
  lemma {:induction false} ScopeSplits(name: Str, scope: Str, leaf: Str)
    requires 46 !in leaf
    ensures name == scope + [46] + leaf ==> ScopeOf(name) == scope
    ensures name == leaf ==> ScopeOf(name) == []
  {
    LastOccurrence(scope, DOT, leaf);
    assert (scope + [DOT] + leaf)[..|scope|] == scope;
  }

  // ---- Selectors ----

  /** ASCII bytes as text. */
  function Chars(text: Str): (s: string)
    ensures |s| == |text| && forall i :: 0 <= i < |s| ==> s[i] == text[i] as char
  {
    seq(|text|, i requires 0 <= i < |text| => text[i] as char)
  }

  predicate AreDigits(text: Str) { AllDigits(Chars(text)) }

  /** `strtoull` on decimal digits: no value when it is out of range. */
  function ParseUnsigned(text: Str): Option<int>
    requires AreDigits(text)
  {
    var v := NumberOf(Chars(text));
    if v < TWO64 then Some(v) else None
  }

  /** The rest of `final_numeric_selector`, once the bracket is found. */
  function SelectorFrom(base: Str, text: Str): Option<(Str, int)> {
    if text == [] || !AreDigits(text) then None
    else
      match ParseUnsigned(text)
      case None => None
      case Some(value) => if value > INT64_MAX || base == [] then None else Some((base, value))
  }

  /** `final_numeric_selector`: the base and number of a name of the form base[digits]. */
  function FinalNumericSelector(signal: Str): Option<(Str, int)> {
    if signal == [] || signal[|signal| - 1] != CLOSE then None
    else
      match LastIndexOf(signal, OPEN)
      case None => None
      case Some(open) =>
        if open + 1 >= |signal| - 1 then None else SelectorFrom(signal[..open], signal[open + 1..|signal| - 1])
  }

  /** base[text], in bytes. */
  function Spelled(base: Str, text: Str): Str { base + [91] + text + [93] }

  /** `signal` is base[text] with decimal digits that fit in 63 bits. */
  predicate SelectedBy(signal: Str, base: Str, value: int, text: Str) {
    && signal == Spelled(base, text) && base != []
    && text != [] && AreDigits(text) && NumberOf(Chars(text)) == value <= 0x7FFF_FFFF_FFFF_FFFF
  }

  ghost predicate Selected(signal: Str, base: Str, value: int) {
    exists text :: SelectedBy(signal, base, value, text)
  }

  lemma {:induction false} SpelledParts(base: Str, text: Str)
    requires AreDigits(text) && text != []
    ensures FinalNumericSelector(Spelled(base, text)) == SelectorFrom(base, text)
  {
    var s := Spelled(base, text);
    assert s == base + [OPEN] + (text + [CLOSE]);
    assert OPEN !in text + [CLOSE];
    LastOccurrence(base, OPEN, text + [CLOSE]);
    assert s[|base| + 1..|s| - 1] == text && s[..|base|] == base;
  }

  lemma {:induction false} SelectorSound(signal: Str, base: Str, value: int)
    requires FinalNumericSelector(signal) == Some((base, value))
    ensures Selected(signal, base, value)
  {
    var text := signal[|base| + 1..|signal| - 1];
    assert signal == Spelled(base, text);
    assert SelectedBy(signal, base, value, text);
  }

  /** The parser accepts exactly the names of the form base[digits], and returns their parts. */
  lemma {:induction false} SelectorExact(signal: Str, base: Str, value: int)
    ensures FinalNumericSelector(signal) == Some((base, value)) <==> Selected(signal, base, value)
  {
    if FinalNumericSelector(signal) == Some((base, value)) {
      SelectorSound(signal, base, value);
    }
    if Selected(signal, base, value) {
      var text :| SelectedBy(signal, base, value, text);
      SpelledParts(base, text);
    }
  }

  /** Decimal printing, in bytes. */
  function Decimal(n: nat): Str {
    var s := Show(n);
    ShowDigits(n);
    seq(|s|, i requires 0 <= i < |s| => assert IsDigit(s[i]); s[i] as Byte)
  }

  lemma {:induction false} DecimalDigits(n: nat)
    ensures Decimal(n) != [] && AreDigits(Decimal(n)) && NumberOf(Chars(Decimal(n))) == n
  {
    ShowDigits(n);
    assert Chars(Decimal(n)) == Show(n);
  }

  /** Parsing inverts printing over the whole range of the selector. */
  lemma {:induction false} SelectorInvertsPrinting(base: Str, n: nat)
    ensures FinalNumericSelector(Spelled(base, Decimal(n))) ==
            if base != [] && n <= 0x7FFF_FFFF_FFFF_FFFF then Some((base, n)) else None
  {
    var text := Decimal(n);
    DecimalDigits(n);
    SpelledParts(base, text);
  }
}
