/** `canonical_sv_literal`: sized four-state SystemVerilog literals (section 5.7.1 of
    IEEE Std 1800-2017) reduced to their bits. */
module SvLiteral {
  import opened Bytes
  import opened Binary
  import opened Numerals
  import PointerText

  // ---- Spelling ----

  datatype Literal = Literal(width: string, signed: bool, base: char, digits: string)

  predicate IsBase(c: char) { c in "bBoOdDhH" }

  predicate IsFill(c: char) { c in "xXzZ?" }

  predicate IsHex(c: char) { '0' <= c <= '9' || 'a' <= c <= 'f' || 'A' <= c <= 'F' }

  predicate AllOf(s: string, test: char -> bool) { forall i :: 0 <= i < |s| ==> test(s[i]) }

  predicate AllLogic(s: string) { AllOf(s, c => IsHex(c) || IsFill(c) || c == '_') }

  predicate WellFormed(l: Literal) {
    && l.width != "" && AllDigits(l.width) && IsBase(l.base)
    && l.digits != "" && AllLogic(l.digits)
  }

  function TailSpelling(l: Literal): string { (if l.signed then "s" else "") + [l.base] + l.digits }

  function Spelling(l: Literal): string { l.width + ("'" + TailSpelling(l)) }

  /** What follows the quote: an optional `s`, a base and digits. */
  function MatchTail(width: string, rest: string): Option<Literal> {
    var signed := rest != "" && rest[0] == 's';
    var tail := if signed then rest[1..] else rest;
    if |tail| < 2 || !IsBase(tail[0]) || !AllLogic(tail[1..]) then None
    else Some(Literal(width, signed, tail[0], tail[1..]))
  }

  /** The pattern of a literal, matched against a whole string. */
  function Match(value: string): Option<Literal> {
    var n := LeadingDigits(value);
    if n == 0 || n == |value| || value[n] != '\'' then None else MatchTail(value[..n], value[n + 1..])
  }

  lemma {:induction false} TailSpelled(l: Literal)
    requires IsBase(l.base) && l.digits != "" && AllLogic(l.digits)
    ensures MatchTail(l.width, TailSpelling(l)) == Some(l)
  {
    var tail := [l.base] + l.digits;
    var rest := TailSpelling(l);
    assert tail[1..] == l.digits;
    if l.signed {
      assert rest[0] == 's' && rest[1..] == tail;
    } else {
      assert rest[0] == l.base && rest == tail;
    }
  }

  lemma {:induction false} TailMatched(width: string, rest: string)
    requires MatchTail(width, rest).Some?
    ensures var l := MatchTail(width, rest).value;
            l.width == width && IsBase(l.base) && l.digits != "" && AllLogic(l.digits) && rest == TailSpelling(l)
  {
    var tail := if rest[0] == 's' then rest[1..] else rest;
    assert tail == [tail[0]] + tail[1..];
  }

  /** Matching accepts exactly the well-formed spellings and returns their parts. */
  lemma {:induction false} MatchExact(value: string, l: Literal)
    ensures Match(value) == Some(l) <==> WellFormed(l) && value == Spelling(l)
  {
    if WellFormed(l) && value == Spelling(l) {
      MatchSpelling(l);
    }
    if Match(value) == Some(l) {
      var n := LeadingDigits(value);
      TailMatched(value[..n], value[n + 1..]);
      assert value == value[..n] + ("'" + value[n + 1..]);
      assert value == Spelling(l);
    }
  }

  lemma {:induction false} MatchSpelling(l: Literal)
    requires WellFormed(l)
    ensures Match(Spelling(l)) == Some(l)
  {
    MatchQuoted(l.width, TailSpelling(l));
    TailSpelled(l);
  }

  lemma {:induction false} MatchQuoted(width: string, rest: string)
    requires width != "" && AllDigits(width)
    ensures Match(width + ("'" + rest)) == MatchTail(width, rest)
  {
    var value := width + ("'" + rest);
    DigitsEnd(width, "'" + rest);
    assert value[|width|] == '\'' && value[|width| + 1..] == rest && value[..|width|] == width;
  }

  // ---- Bits ----

  const ZERO_WIDTH := Malformed("zero-width SV literal is forbidden")
  const BAD_DECIMAL := Malformed("invalid decimal SV literal")
  const BAD_DIGITS := Malformed("invalid SV literal digits")

  datatype Logic = Logic(width: nat, bits: string, signed: bool)

  function FillOf(c: char): char { if c == 'x' || c == 'X' then 'X' else 'Z' }

  /** `int(c, 16)`. */
  function DigitValue(c: char): nat {
    if '0' <= c <= '9' then c as int - '0' as int
    else if 'A' <= c <= 'F' then c as int - 'A' as int + 10
    else if 'a' <= c <= 'f' then c as int - 'a' as int + 10
    else 0
  }

  /** 1, 3 or 4 bits per digit. */
  function DigitWidth(base: char): nat {
    if base == 'b' || base == 'B' then 1 else if base == 'o' || base == 'O' then 3 else 4
  }

  predicate IsDecimal(base: char) { base == 'd' || base == 'D' }

  function Repeat(c: char, n: nat): string { seq(n, _ => c) }

  /** A digit a base with `k` bits per digit admits. */
  predicate Allowed(c: char, k: nat) { IsFill(c) || (IsHex(c) && DigitValue(c) < Pow2(k)) }

  /** `_expand_logic_digit`. */
  function Expand(c: char, k: nat): string {
    if IsFill(c) then Repeat(FillOf(c), k) else Format(DigitValue(c), k)
  }

  predicate AllAllowed(ds: string, k: nat) { AllOf(ds, c => Allowed(c, k)) }

  /** `"".join(parts)`. */
  function Join(parts: seq<string>): string {
    if parts == [] then "" else Join(parts[..|parts| - 1]) + parts[|parts| - 1]
  }

  function Parts(ds: string, k: nat): (parts: seq<string>)
    ensures |parts| == |ds| && forall i :: 0 <= i < |ds| ==> parts[i] == Expand(ds[i], k)
  {
    seq(|ds|, i requires 0 <= i < |ds| => Expand(ds[i], k))
  }

  function ExpandAll(ds: string, k: nat): string { Join(Parts(ds, k)) }

  /** Extended on the left by its own leading X or Z, or else by zeros, then cut to the width. */
  function Fit(bits: string, width: nat): string {
    var fill := if bits != "" && (bits[0] == 'X' || bits[0] == 'Z') then bits[0] else '0';
    var s := Repeat(fill, if |bits| < width then width - |bits| else 0) + bits;
    s[|s| - width..]
  }

  function DecimalBits(ds: string, width: nat): Result<string> {
    if ds != "" && AllDigits(ds) then
      var number := NumberOf(ds);
      Ok(Format(if number >= Pow2(width) then number % Pow2(width) else number, width))
    else if |ds| == 1 && IsFill(ds[0]) then Ok(Repeat(FillOf(ds[0]), width))
    else Err(BAD_DECIMAL)
  }

  function PowerBits(ds: string, k: nat, width: nat): Result<string> {
    if ds != "" && AllAllowed(ds, k) then Ok(Fit(ExpandAll(ds, k), width)) else Err(BAD_DIGITS)
  }

  function BitsOf(base: char, ds: string, width: nat): Result<string> {
    if IsDecimal(base) then DecimalBits(ds, width) else PowerBits(ds, DigitWidth(base), width)
  }

  /** The digits without their underscores. */
  function Strip(digits: string): string { PointerText.ReplaceAll(digits, "_", "") }

  /** `canonical_sv_literal`: nothing for a string that is no literal. */
  function CanonicalLiteral(value: string): Result<Option<Logic>> {
    match Match(value)
    case None => Ok(None)
    case Some(l) =>
      MatchExact(value, l);
      var width := NumberOf(l.width);
      if width <= 0 then Err(ZERO_WIDTH)
      else
        match BitsOf(l.base, Strip(l.digits), width)
        case Err(e) => Err(e)
        case Ok(bits) => Ok(Some(Logic(width, bits, l.signed)))
  }
}
