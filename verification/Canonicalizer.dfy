/** `canonicalize`: a document with its times, logic literals and raw bits in canonical form. */
module Canonicalizer {
  import opened Bytes
  import opened Json
  import opened Numerals
  import SvLiteral
  import TimeValue

  // ---- Fields ----

  const TIME_FIELDS: set<string> := {
    "time", "times", "timescale", "begin", "end", "start", "stop", "duration", "latency", "period",
    "active_time", "before_time", "after_time", "continue_time", "query_time", "start_time", "end_time",
    "value_time", "x_onset_time"}

  const LOGIC_FIELDS: set<string> := {
    "value", "values", "id", "address", "response", "data", "payload",
    "before_value", "after_value", "current_value", "expected_value"}

  const BIT_FIELDS: set<string> := {"bits", "x_mask", "z_mask"}

  predicate EndsWith(s: string, tail: string) {
    |s| >= |tail| && s[|s| - |tail|..] == tail
  }

  predicate IsTimeField(key: string) { key in TIME_FIELDS || EndsWith(key, "_time") }

  // ---- Texts ----

  function ShowInt(n: int): string { if n < 0 then "-" + Show(-n) else Show(n) }

  /** The text of a number: its digits, after a minus sign for a negative one. */
  lemma {:induction false} ShowIntReads(n: int)
    ensures ShowInt(n) != "" && (n < 0 <==> ShowInt(n)[0] == '-')
    ensures n >= 0 ==> AllDigits(ShowInt(n)) && NumberOf(ShowInt(n)) == n
    ensures n < 0 ==> AllDigits(ShowInt(n)[1..]) && NumberOf(ShowInt(n)[1..]) == -n
  {
    if n < 0 {
      ShowDigits(-n);
      assert ShowInt(n)[1..] == Show(-n);
    } else {
      ShowDigits(n);
    }
  }

  const TIME_KEY := "$xdebug_time_fs"
  const LOGIC_KEY := "$xdebug_logic"

  function TimeJson(n: int): Json { Obj(map[TIME_KEY := Str(ShowInt(n))]) }

  function LogicFields(g: SvLiteral.Logic): map<string, Json> {
    map["width" := Num(g.width), "bits" := Str(g.bits), "signed" := Bool(g.signed)]
  }

  function LogicJson(g: SvLiteral.Logic): Json { Obj(map[LOGIC_KEY := Obj(LogicFields(g))]) }

  predicate IsRawBit(c: char) { c in "01xXzZ?_" }

  predicate IsRawBits(s: string) { s != "" && forall i :: 0 <= i < |s| ==> IsRawBit(s[i]) }

  function UpperBit(c: char): char { if c == 'x' then 'X' else if c == 'z' then 'Z' else c }

  /** `replace("_", "").upper()` on raw bits. */
  function RawBits(s: string): (r: string)
    ensures |r| == |SvLiteral.Strip(s)|
    ensures forall i :: 0 <= i < |r| ==> r[i] == UpperBit(SvLiteral.Strip(s)[i])
  {
    var t := SvLiteral.Strip(s);
    seq(|t|, i requires 0 <= i < |t| => UpperBit(t[i]))
  }

  /** Which text-typed value a record announces through its kind or type: a container cannot be
      looked up in a set of names. */
  datatype Tag = Unhashable | Hashable(text: bool)

  function TagOf(mark: Json): Tag {
    match mark
    case Arr(_) => Unhashable
    case Obj(_) => Unhashable
    case Str(s) => Hashable(s == "string" || s == "event")
    case _ => Hashable(false)
  }

  /** `parent.get("kind", parent.get("type"))`. */
  function Label(fields: map<string, Json>): Json {
    if "kind" in fields then fields["kind"] else if "type" in fields then fields["type"] else Null
  }

  /** What becomes of a string: converted, left alone, or an error. */
  datatype Outcome = Time(fs: int) | Logic(logic: SvLiteral.Logic) | Raw(bits: string) | Same | Failed

  function AsTime(s: string, key: string): Outcome {
    if !IsTimeField(key) then Same
    else
      match TimeValue.CanonicalTime(s)
      case Err(_) => Failed
      case Ok(None) => Same
      case Ok(Some(n)) => Time(n)
  }

  function AsLogic(s: string, key: string): Outcome {
    if key !in LOGIC_FIELDS then Same
    else
      match SvLiteral.CanonicalLiteral(s)
      case Err(_) => Failed
      case Ok(None) => Same
      case Ok(Some(g)) => Logic(g)
  }

  function AsRaw(s: string, key: string): Outcome {
    if key in BIT_FIELDS && IsRawBits(s) then Raw(RawBits(s)) else Same
  }

  function Convert(s: string, key: string, tag: Tag): Outcome {
    if key == "value" && tag.Unhashable? then Failed
    else
      var typed := key == "value" && tag.text;
      if !typed && AsTime(s, key) != Same then AsTime(s, key)
      else if !typed && AsLogic(s, key) != Same then AsLogic(s, key)
      else AsRaw(s, key)
  }

  function Text(s: string, key: Option<string>, tag: Tag): Option<Json> {
    if key.None? then Some(Str(s))
    else
      match Convert(s, key.value, tag)
      case Time(n) => Some(TimeJson(n))
      case Logic(g) => Some(LogicJson(g))
      case Raw(bits) => Some(Str(bits))
      case Same => Some(Str(s))
      case Failed => None
  }

  // ---- Documents ----

  /** The canonical form of a value under `key` of a record tagged `tag`; none where the
      original raises an error. */
  function Canonical(v: Json, key: Option<string>, tag: Tag): Option<Json>
    decreases v
  {
    match v
    case Obj(fields) =>
      var inner := TagOf(Label(fields));
      if forall k :: k in fields ==> Canonical(fields[k], Some(k), inner).Some? then
        Some(Obj(map k | k in fields :: Canonical(fields[k], Some(k), inner).value))
      else None
    case Arr(items) =>
      if forall i :: 0 <= i < |items| ==> Canonical(items[i], key, tag).Some? then
        Some(Arr(seq(|items|, i requires 0 <= i < |items| && Canonical(items[i], key, tag).Some? =>
          Canonical(items[i], key, tag).value)))
      else None
    case Str(s) => Text(s, key, tag)
    case _ => Some(v)
  }

  const UNTAGGED: Tag := Hashable(false)

  /** A whole document. */
  function CanonicalDocument(v: Json): Option<Json> { Canonical(v, None, UNTAGGED) }
}
