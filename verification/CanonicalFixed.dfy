/** Canonical documents are fixed: a second pass changes nothing. */
module CanonicalFixed {
  import opened Bytes
  import opened Json
  import opened Canonicalizer
  import SvLiteral
  import LiteralValue

  /** Strings under such a key are never converted. */
  predicate Inert(key: string) {
    !IsTimeField(key) && key !in LOGIC_FIELDS && key !in BIT_FIELDS && key != "value"
  }

  lemma {:induction false} KindInert()
    ensures Inert("kind") && Inert("type")
  {
    assert "kind"[0] == 'k' && "type"[1] == 'y';
  }

  lemma {:induction false} TimeKeyInert()
    ensures Inert(TIME_KEY)
  {
    assert TIME_KEY[0] == '$' && TIME_KEY[|TIME_KEY| - 5..][0] == 'm';
  }

  /** Raw bits live under keys of their own. */
  lemma {:induction false} BitField(key: string)
    requires key in BIT_FIELDS
    ensures !IsTimeField(key) && key !in LOGIC_FIELDS && key != "value"
  {
    assert "bits"[0] == 'b' && "bits"[1] == 'i';
    assert "x_mask"[1] == '_' && "x_mask"[|"x_mask"| - 5..][0] == '_' && "x_mask"[|"x_mask"| - 5..][1] == 'm';
    assert "z_mask"[0] == 'z' && "z_mask"[|"z_mask"| - 5..][0] == '_' && "z_mask"[|"z_mask"| - 5..][1] == 'm';
  }

  lemma {:induction false} BitText(s: string, key: string, tag: Tag)
    requires key in BIT_FIELDS
    ensures Text(s, Some(key), tag) == Some(Str(if IsRawBits(s) then RawBits(s) else s))
  {
    BitField(key);
  }

  lemma {:induction false} InertText(s: string, key: string, tag: Tag)
    requires Inert(key)
    ensures Text(s, Some(key), tag) == Some(Str(s))
  {}

  /** A record keeps its tag. */
  lemma {:induction false} InertKeeps(v: Json, key: string, tag: Tag)
    requires Inert(key) && Canonical(v, Some(key), tag).Some?
    ensures TagOf(Canonical(v, Some(key), tag).value) == TagOf(v)
  {
    if v.Str? {
      InertText(v.s, key, tag);
    }
  }

  // ---- Objects and arrays ----

  /** What the canonical form of an object is, field by field. */
  lemma {:induction false} ObjectForm(fields: map<string, Json>, key: Option<string>, tag: Tag, r: map<string, Json>)
    ensures Canonical(Obj(fields), key, tag) == Some(Obj(r)) <==>
            r.Keys == fields.Keys && forall k :: k in fields ==> Canonical(fields[k], Some(k), TagOf(Label(fields))) == Some(r[k])
    ensures Canonical(Obj(fields), key, tag).Some? ==> Canonical(Obj(fields), key, tag).value.Obj?
  {
    var inner := TagOf(Label(fields));
    if r.Keys == fields.Keys && forall k :: k in fields ==> Canonical(fields[k], Some(k), inner) == Some(r[k]) {
      var m := map k | k in fields :: Canonical(fields[k], Some(k), inner).value;
      assert m == r;
    }
  }

  lemma {:induction false} LabelKept(fields: map<string, Json>, r: map<string, Json>)
    requires r.Keys == fields.Keys
    requires forall k :: k in fields ==> Canonical(fields[k], Some(k), TagOf(Label(fields))) == Some(r[k])
    ensures TagOf(Label(r)) == TagOf(Label(fields))
  {
    KindInert();
    if "kind" in fields {
      InertKeeps(fields["kind"], "kind", TagOf(Label(fields)));
    } else if "type" in fields {
      InertKeeps(fields["type"], "type", TagOf(Label(fields)));
    }
  }

  // ---- What strings become ----

  lemma {:induction false} TimeFixed(n: int, key: Option<string>, tag: Tag)
    ensures Canonical(TimeJson(n), key, tag) == Some(TimeJson(n))
  {
    var fields := TimeJson(n).fields;
    TimeKeyInert();
    InertText(ShowInt(n), TIME_KEY, TagOf(Label(fields)));
    ObjectForm(fields, key, tag, fields);
  }

  lemma {:induction false} LogicFixed(g: SvLiteral.Logic, key: Option<string>, tag: Tag)
    requires LiteralValue.AreStates(g.bits) && g.bits != ""
    ensures Canonical(LogicJson(g), key, tag) == Some(LogicJson(g))
  {
    LogicFieldsFixed(g, Some(LOGIC_KEY), TagOf(Label(LogicJson(g).fields)));
    ObjectForm(LogicJson(g).fields, key, tag, LogicJson(g).fields);
  }

  lemma {:induction false} LogicFieldsFixed(g: SvLiteral.Logic, key: Option<string>, tag: Tag)
    requires LiteralValue.AreStates(g.bits) && g.bits != ""
    ensures Canonical(Obj(LogicFields(g)), key, tag) == Some(Obj(LogicFields(g)))
  {
    var fields := LogicFields(g);
    StatesFixed(g.bits);
    BitText(g.bits, "bits", TagOf(Label(fields)));
    forall k | k in fields
      ensures Canonical(fields[k], Some(k), TagOf(Label(fields))) == Some(fields[k])
    {
      assert k == "width" || k == "bits" || k == "signed";
    }
    ObjectForm(fields, key, tag, fields);
  }

  lemma {:induction false} StatesFixed(s: string)
    requires LiteralValue.AreStates(s) && s != ""
    ensures IsRawBits(s) && RawBits(s) == s
  {
    forall i | 0 <= i < |s|
      ensures IsRawBit(s[i]) && s[i] != '_' && UpperBit(s[i]) == s[i]
    {
      assert LiteralValue.IsState(s[i]);
    }
    NothingToStrip(s);
  }

  lemma {:induction false} NothingToStrip(s: string)
    requires '_' !in s
    ensures SvLiteral.Strip(s) == s
  {
    if s != "" {
      assert s == [s[0]] + s[1..];
      LiteralValue.StripFirst(s[0], s[1..]);
      NothingToStrip(s[1..]);
    }
  }

  lemma {:induction false} StripRemoves(s: string)
    requires forall i :: 0 <= i < |s| ==> IsRawBit(s[i])
    ensures '_' !in SvLiteral.Strip(s)
    ensures forall i :: 0 <= i < |SvLiteral.Strip(s)| ==> IsRawBit(SvLiteral.Strip(s)[i])
  {
    if s != "" {
      assert s == [s[0]] + s[1..];
      LiteralValue.StripFirst(s[0], s[1..]);
      StripRemoves(s[1..]);
    }
  }

  lemma {:induction false} RawFixed(s: string)
    requires IsRawBits(s)
    ensures RawBits(s) == "" || (IsRawBits(RawBits(s)) && RawBits(RawBits(s)) == RawBits(s))
  {
    var r := RawBits(s);
    StripRemoves(s);
    assert '_' !in r;
    NothingToStrip(r);
    assert RawBits(r) == r;
  }

  // ---- Idempotence ----

  lemma {:induction false} ConvertedRaw(s: string, key: string, tag: Tag)
    requires Convert(s, key, tag).Raw?
    ensures key in BIT_FIELDS && IsRawBits(s) && Convert(s, key, tag).bits == RawBits(s)
  {}

  lemma {:induction false} RawTextFixed(s: string, key: string, tag: Tag)
    requires key in BIT_FIELDS && IsRawBits(s)
    ensures Text(RawBits(s), Some(key), tag) == Some(Str(RawBits(s)))
  {
    RawFixed(s);
    BitText(RawBits(s), key, tag);
  }

  lemma {:induction false} LogicStates(s: string, key: string)
    requires AsLogic(s, key).Logic?
    ensures LiteralValue.AreStates(AsLogic(s, key).logic.bits) && AsLogic(s, key).logic.bits != ""
  {
    LiteralValue.LiteralShape(s, AsLogic(s, key).logic);
  }

  lemma {:induction false} ConvertedStates(s: string, key: string, tag: Tag)
    requires Convert(s, key, tag).Logic?
    ensures var g := Convert(s, key, tag).logic; LiteralValue.AreStates(g.bits) && g.bits != ""
  {
    LogicStates(s, key);
  }

  lemma {:induction false} TextFixed(s: string, key: Option<string>, tag: Tag)
    requires Text(s, key, tag).Some?
    ensures Canonical(Text(s, key, tag).value, key, tag) == Text(s, key, tag)
  {
    if key.Some? {
      match Convert(s, key.value, tag)
      case Time(n) => TimeFixed(n, key, tag);
      case Logic(g) => ConvertedStates(s, key.value, tag); LogicFixed(g, key, tag);
      case Raw(_) => ConvertedRaw(s, key.value, tag); RawTextFixed(s, key.value, tag);
      case Same =>
    }
  }

  lemma {:induction false} FieldsFixed(fields: map<string, Json>, r: map<string, Json>, key: Option<string>, tag: Tag)
    requires Canonical(Obj(fields), key, tag) == Some(Obj(r))
    ensures Canonical(Obj(r), key, tag) == Some(Obj(r))
    decreases Obj(fields), 0
  {
    ObjectForm(fields, key, tag, r);
    LabelKept(fields, r);
    var inner := TagOf(Label(fields));
    forall k | k in r
      ensures Canonical(r[k], Some(k), inner) == Some(r[k])
    {
      Idempotent(fields[k], Some(k), inner);
    }
    ObjectForm(r, key, tag, r);
  }

  /** Canonicalizing what was canonicalized changes nothing. */
  lemma {:induction false} Idempotent(v: Json, key: Option<string>, tag: Tag)
    requires Canonical(v, key, tag).Some?
    ensures Canonical(Canonical(v, key, tag).value, key, tag) == Canonical(v, key, tag)
    decreases v, 1
  {
    match v
    case Obj(fields) =>
      ObjectForm(fields, key, tag, map[]);
      FieldsFixed(fields, Canonical(v, key, tag).value.fields, key, tag);
    case Arr(items) =>
      var r := Canonical(v, key, tag).value.items;
      forall i | 0 <= i < |items|
        ensures Canonical(r[i], key, tag) == Some(r[i])
      {
        Idempotent(items[i], key, tag);
      }
      ItemsFixed(r, key, tag);
    case Str(s) => TextFixed(s, key, tag);
    case _ =>
  }

  lemma {:induction false} ItemsFixed(r: seq<Json>, key: Option<string>, tag: Tag)
    requires forall i :: 0 <= i < |r| ==> Canonical(r[i], key, tag) == Some(r[i])
    ensures Canonical(Arr(r), key, tag) == Some(Arr(r))
  {
    var again := Canonical(Arr(r), key, tag);
    assert again.Some? && again.value.Arr?;
    assert again.value.items == r;
  }

  lemma {:induction false} DocumentIdempotent(v: Json)
    requires CanonicalDocument(v).Some?
    ensures CanonicalDocument(CanonicalDocument(v).value) == CanonicalDocument(v)
  {
    Idempotent(v, None, UNTAGGED);
  }
}
