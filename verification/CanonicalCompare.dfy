/** When two documents compare equal after canonicalisation, as a relation on the documents as they
    were spelled. */
module CanonicalCompare {
  import opened Bytes
  import opened Json
  import opened Canonicalizer
  import opened CanonicalFixed
  import opened CanonicalMeaning
  import opened Binary
  import opened Numerals
  import DecimalContext
  import JsonCompare
  import LiteralValue
  import SvLiteral
  import TimeValue

  /** What a string under a key of a tagged record stands for. */
  datatype Meaning = Femtoseconds(n: int) | Bits(logic: SvLiteral.Logic) | Plain(text: string) | NoMeaning

  function MeaningOf(s: string, key: Option<string>, tag: Tag): Meaning {
    if key.None? then Plain(s)
    else
      match Convert(s, key.value, tag)
      case Time(n) => Femtoseconds(n)
      case Logic(g) => Bits(g)
      case Raw(bits) => Plain(bits)
      case Same => Plain(s)
      case Failed => NoMeaning
  }

  /** The fields of a canonical literal, up to the spelling of its bits. */
  predicate SpellsFields(v: Json, g: SvLiteral.Logic) {
    && v.Obj? && v.fields.Keys == {"width", "bits", "signed"}
    && v.fields["width"] == Num(g.width) && v.fields["signed"] == Bool(g.signed)
    && v.fields["bits"].Str? && IsRawBits(v.fields["bits"].s) && RawBits(v.fields["bits"].s) == g.bits
  }

  predicate SpellsLogic(v: Json, g: SvLiteral.Logic) {
    v.Obj? && v.fields.Keys == {LOGIC_KEY} && SpellsFields(v.fields[LOGIC_KEY], g)
  }

  /** An object that is already spelled as the canonical form of what a string stands for. */
  predicate SpellsObject(v: Json, m: Meaning) {
    match m
    case Femtoseconds(n) => v == TimeJson(n)
    case Bits(g) => SpellsLogic(v, g)
    case _ => false
  }

  /** The same shape, with leaves that stand for the same: strings by their meaning under their key,
      everything else by itself. The one exception is an object spelled as a converted string. */
  ghost predicate Alike(a: Json, b: Json, key: Option<string>, ta: Tag, tb: Tag)
    decreases a
  {
    if a.Obj? && b.Obj? then
      && a.fields.Keys == b.fields.Keys
      && forall k :: k in a.fields ==>
           Alike(a.fields[k], b.fields[k], Some(k), TagOf(Label(a.fields)), TagOf(Label(b.fields)))
    else if a.Arr? && b.Arr? then
      && |a.items| == |b.items|
      && forall i :: 0 <= i < |a.items| ==> Alike(a.items[i], b.items[i], key, ta, tb)
    else if a.Str? && b.Str? then MeaningOf(a.s, key, ta) == MeaningOf(b.s, key, tb)
    else if a.Str? then SpellsObject(b, MeaningOf(a.s, key, ta))
    else if b.Str? then SpellsObject(a, MeaningOf(b.s, key, tb))
    else a == b
  }

  // ---- Strings ----

  function FormOf(m: Meaning): Option<Json> {
    match m
    case Femtoseconds(n) => Some(TimeJson(n))
    case Bits(g) => Some(LogicJson(g))
    case Plain(s) => Some(Str(s))
    case NoMeaning => None
  }

  lemma {:induction false} TextForm(s: string, key: Option<string>, tag: Tag)
    ensures Text(s, key, tag) == FormOf(MeaningOf(s, key, tag))
  {}

  lemma {:induction false} FormsDiffer(n: int, g: SvLiteral.Logic)
    ensures TimeJson(n) != LogicJson(g)
  {
    assert TIME_KEY in TimeJson(n).fields;
    assert |TIME_KEY| != |LOGIC_KEY|;
  }

  lemma {:induction false} FormInjective(l: Meaning, m: Meaning)
    requires FormOf(l).Some?
    ensures FormOf(l) == FormOf(m) <==> l == m
  {
    match l
    case Femtoseconds(n) =>
      if m.Femtoseconds? { TimeJsonInjective(n, m.n); }
      if m.Bits? { FormsDiffer(n, m.logic); }
    case Bits(g) =>
      if m.Bits? { LogicJsonInjective(g, m.logic); }
      if m.Femtoseconds? { FormsDiffer(m.n, g); }
    case Plain(_) =>
  }

  // ---- Objects that spell a converted string ----

  lemma {:induction false} InertString(v: Json, key: string, tag: Tag, s: string)
    requires Inert(key)
    ensures Canonical(v, Some(key), tag) == Some(Str(s)) <==> v == Str(s)
  {
    if v.Str? {
      InertText(v.s, key, tag);
    }
  }

  lemma {:induction false} TimeObject(v: Json, key: Option<string>, tag: Tag, n: int)
    requires v.Obj?
    ensures Canonical(v, key, tag) == Some(TimeJson(n)) <==> v == TimeJson(n)
  {
    var r := TimeJson(n).fields;
    ObjectForm(v.fields, key, tag, r);
    TimeKeyInert();
    assert r.Keys == {TIME_KEY};
    if v.fields.Keys == r.Keys {
      InertString(v.fields[TIME_KEY], TIME_KEY, TagOf(Label(v.fields)), ShowInt(n));
      if v.fields[TIME_KEY] == r[TIME_KEY] {
        assert v.fields == r;
      }
    }
  }

  lemma {:induction false} BitString(v: Json, tag: Tag, bits: string)
    requires IsRawBits(bits) && RawBits(bits) == bits
    ensures Canonical(v, Some("bits"), tag) == Some(Str(bits)) <==> v.Str? && IsRawBits(v.s) && RawBits(v.s) == bits
  {
    if v.Str? {
      BitText(v.s, "bits", tag);
    }
  }

  lemma {:induction false} LogicKeyInert()
    ensures Inert(LOGIC_KEY)
  {
    assert LOGIC_KEY[0] == '$' && LOGIC_KEY[|LOGIC_KEY| - 5..][1] == 'o';
  }

  lemma {:induction false} InnerLogic(v: Json, tag: Tag, g: SvLiteral.Logic)
    requires IsRawBits(g.bits) && RawBits(g.bits) == g.bits
    ensures Canonical(v, Some(LOGIC_KEY), tag) == Some(Obj(LogicFields(g))) <==> SpellsFields(v, g)
  {
    if v.Str? {
      LogicKeyInert();
      InertText(v.s, LOGIC_KEY, tag);
    } else if v.Obj? {
      LogicRecord(v.fields, Some(LOGIC_KEY), tag, g);
    }
  }

  lemma {:induction false} LogicRecord(fields: map<string, Json>, key: Option<string>, tag: Tag, g: SvLiteral.Logic)
    requires IsRawBits(g.bits) && RawBits(g.bits) == g.bits
    ensures Canonical(Obj(fields), key, tag) == Some(Obj(LogicFields(g))) <==> SpellsFields(Obj(fields), g)
  {
    var r := LogicFields(g);
    assert r.Keys == {"width", "bits", "signed"};
    ObjectForm(fields, key, tag, r);
    if fields.Keys == r.Keys {
      BitString(fields["bits"], TagOf(Label(fields)), g.bits);
      Scalars(fields["width"], "width", TagOf(Label(fields)), Num(g.width));
      Scalars(fields["signed"], "signed", TagOf(Label(fields)), Bool(g.signed));
    }
  }

  lemma {:induction false} LogicObject(v: Json, key: Option<string>, tag: Tag, g: SvLiteral.Logic)
    requires v.Obj? && IsRawBits(g.bits) && RawBits(g.bits) == g.bits
    ensures Canonical(v, key, tag) == Some(LogicJson(g)) <==> SpellsLogic(v, g)
  {
    ObjectForm(v.fields, key, tag, LogicJson(g).fields);
    assert LogicJson(g).fields.Keys == {LOGIC_KEY};
    if v.fields.Keys == {LOGIC_KEY} {
      InnerLogic(v.fields[LOGIC_KEY], TagOf(Label(v.fields)), g);
    }
  }

  lemma {:induction false} Scalars(v: Json, key: string, tag: Tag, x: Json)
    requires x.Num? || x.Bool?
    ensures Canonical(v, Some(key), tag) == Some(x) <==> v == x
  {}

  // ---- Documents ----

  /** A string and an object have the same canonical form exactly when the object spells it. */
  lemma {:induction false} StringAndObject(s: string, v: Json, key: Option<string>, ts: Tag, tv: Tag)
    requires v.Obj? && Text(s, key, ts).Some?
    ensures Text(s, key, ts) == Canonical(v, key, tv) <==> SpellsObject(v, MeaningOf(s, key, ts))
  {
    TextForm(s, key, ts);
    ObjectForm(v.fields, key, tv, map[]);
    match MeaningOf(s, key, ts)
    case Femtoseconds(n) => TimeObject(v, key, tv, n);
    case Bits(g) =>
      ConvertedStates(s, key.value, ts);
      StatesFixed(g.bits);
      LogicObject(v, key, tv, g);
    case Plain(_) =>
  }

  lemma {:induction false} StringAndOther(s: string, v: Json, key: Option<string>, ts: Tag, tv: Tag)
    requires !v.Obj? && !v.Str? && Text(s, key, ts).Some?
    ensures Text(s, key, ts) != Canonical(v, key, tv)
  {
    TextForm(s, key, ts);
  }

  lemma {:induction false} Strings(s: string, t: string, key: Option<string>, ts: Tag, tt: Tag)
    requires Text(s, key, ts).Some?
    ensures Text(s, key, ts) == Text(t, key, tt) <==> MeaningOf(s, key, ts) == MeaningOf(t, key, tt)
  {
    TextForm(s, key, ts);
    TextForm(t, key, tt);
    FormInjective(MeaningOf(s, key, ts), MeaningOf(t, key, tt));
  }

  predicate FieldAgrees(a: map<string, Json>, b: map<string, Json>, k: string)
    requires k in a && k in b
  {
    Canonical(a[k], Some(k), TagOf(Label(a))) == Canonical(b[k], Some(k), TagOf(Label(b)))
  }

  ghost predicate FieldsAgree(a: map<string, Json>, b: map<string, Json>) {
    a.Keys == b.Keys && forall k :: k in a ==> FieldAgrees(a, b, k)
  }

  lemma {:induction false} ObjectsAgree(a: map<string, Json>, b: map<string, Json>, key: Option<string>, ta: Tag, tb: Tag)
    requires Canonical(Obj(a), key, ta).Some? && Canonical(Obj(b), key, tb).Some?
    ensures Canonical(Obj(a), key, ta) == Canonical(Obj(b), key, tb) <==> FieldsAgree(a, b)
  {
    ObjectForm(a, key, ta, map[]);
    ObjectForm(b, key, tb, map[]);
    var r, s := Canonical(Obj(a), key, ta).value.fields, Canonical(Obj(b), key, tb).value.fields;
    ObjectForm(a, key, ta, r);
    ObjectForm(b, key, tb, s);
    if FieldsAgree(a, b) {
      forall k | k in r
        ensures r[k] == s[k]
      {
        assert FieldAgrees(a, b, k);
      }
      assert r == s;
    }
  }

  lemma {:induction false} ArraysAgree(a: seq<Json>, b: seq<Json>, key: Option<string>, ta: Tag, tb: Tag)
    requires Canonical(Arr(a), key, ta).Some? && Canonical(Arr(b), key, tb).Some?
    ensures Canonical(Arr(a), key, ta) == Canonical(Arr(b), key, tb) <==>
            |a| == |b| && forall i :: 0 <= i < |a| ==> Canonical(a[i], key, ta) == Canonical(b[i], key, tb)
  {
    var r, s := Canonical(Arr(a), key, ta).value.items, Canonical(Arr(b), key, tb).value.items;
    assert forall i :: 0 <= i < |a| ==> Canonical(a[i], key, ta) == Some(r[i]);
    assert forall i :: 0 <= i < |b| ==> Canonical(b[i], key, tb) == Some(s[i]);
    if |a| == |b| && forall i :: 0 <= i < |a| ==> Canonical(a[i], key, ta) == Canonical(b[i], key, tb) {
      assert forall i :: 0 <= i < |r| ==> r[i] == s[i];
      assert r == s;
    }
  }

  lemma {:induction false} FieldsAlike(a: map<string, Json>, b: map<string, Json>, key: Option<string>, ta: Tag, tb: Tag)
    requires Canonical(Obj(a), key, ta).Some? && Canonical(Obj(b), key, tb).Some?
    ensures Canonical(Obj(a), key, ta) == Canonical(Obj(b), key, tb) <==> Alike(Obj(a), Obj(b), key, ta, tb)
    decreases Obj(a), 0
  {
    ObjectsAgree(a, b, key, ta, tb);
    if a.Keys == b.Keys {
      forall k | k in a
        ensures FieldAgrees(a, b, k) <==> FieldAlike(a, b, k)
      {
        FieldsAccepted(a, k, key, ta);
        FieldsAccepted(b, k, key, tb);
        CanonicalAlike(a[k], b[k], Some(k), TagOf(Label(a)), TagOf(Label(b)));
      }
    }
    AlikeFields(a, b, key, ta, tb);
  }

  ghost predicate FieldAlike(a: map<string, Json>, b: map<string, Json>, k: string)
    requires k in a && k in b
  {
    Alike(a[k], b[k], Some(k), TagOf(Label(a)), TagOf(Label(b)))
  }

  lemma {:induction false} AlikeFields(a: map<string, Json>, b: map<string, Json>, key: Option<string>, ta: Tag, tb: Tag)
    ensures Alike(Obj(a), Obj(b), key, ta, tb) <==> a.Keys == b.Keys && forall k :: k in a ==> FieldAlike(a, b, k)
  {}

  lemma {:induction false} FieldsAccepted(a: map<string, Json>, k: string, key: Option<string>, tag: Tag)
    requires k in a && Canonical(Obj(a), key, tag).Some?
    ensures Canonical(a[k], Some(k), TagOf(Label(a))).Some?
  {}

  lemma {:induction false} ItemsAlike(a: seq<Json>, b: seq<Json>, key: Option<string>, ta: Tag, tb: Tag)
    requires Canonical(Arr(a), key, ta).Some? && Canonical(Arr(b), key, tb).Some?
    ensures Canonical(Arr(a), key, ta) == Canonical(Arr(b), key, tb) <==> Alike(Arr(a), Arr(b), key, ta, tb)
    decreases Arr(a), 0
  {
    ArraysAgree(a, b, key, ta, tb);
    if |a| == |b| {
      forall i | 0 <= i < |a|
        ensures Canonical(a[i], key, ta) == Canonical(b[i], key, tb) <==> Alike(a[i], b[i], key, ta, tb)
      {
        CanonicalAlike(a[i], b[i], key, ta, tb);
      }
    }
  }

  /** Two accepted values have the same canonical form exactly when they are alike. */
  lemma {:induction false} CanonicalAlike(a: Json, b: Json, key: Option<string>, ta: Tag, tb: Tag)
    requires Canonical(a, key, ta).Some? && Canonical(b, key, tb).Some?
    ensures Canonical(a, key, ta) == Canonical(b, key, tb) <==> Alike(a, b, key, ta, tb)
    decreases a, 1
  {
    if a.Obj? && b.Obj? {
      FieldsAlike(a.fields, b.fields, key, ta, tb);
    } else if a.Arr? && b.Arr? {
      ItemsAlike(a.items, b.items, key, ta, tb);
    } else if a.Str? && b.Str? {
      Strings(a.s, b.s, key, ta, tb);
    } else if a.Str? {
      if b.Obj? {
        StringAndObject(a.s, b, key, ta, tb);
      } else {
        StringAndOther(a.s, b, key, ta, tb);
      }
    } else if b.Str? {
      if a.Obj? {
        StringAndObject(b.s, a, key, tb, ta);
      } else {
        StringAndOther(b.s, a, key, tb, ta);
      }
    } else {
      KindKept(a, key, ta);
      KindKept(b, key, tb);
    }
  }

  lemma {:induction false} KindKept(v: Json, key: Option<string>, tag: Tag)
    requires !v.Str? && Canonical(v, key, tag).Some?
    ensures v.Obj? ==> Canonical(v, key, tag).value.Obj?
    ensures v.Arr? ==> Canonical(v, key, tag).value.Arr?
    ensures !v.Obj? && !v.Arr? ==> Canonical(v, key, tag).value == v
  {}

  /** What the comparator decides: two accepted documents show no difference once canonical exactly
      when they are alike as they were spelled. */
  lemma {:induction false} DocumentsAlike(a: Json, b: Json)
    requires CanonicalDocument(a).Some? && CanonicalDocument(b).Some?
    ensures JsonCompare.Compare(CanonicalDocument(a).value, CanonicalDocument(b).value, []) == [] <==>
            Alike(a, b, None, UNTAGGED, UNTAGGED)
  {
    JsonCompare.CompareEmpty(CanonicalDocument(a).value, CanonicalDocument(b).value, []);
    CanonicalAlike(a, b, None, UNTAGGED, UNTAGGED);
  }

  // ---- What strings mean ----

  /** In a time field a time of at most 28 significant digits means the femtoseconds it denotes. */
  lemma {:induction false} TimeMeans(t: TimeValue.Time, key: string, tag: Tag, n: int)
    requires IsTimeField(key) && TimeValue.WellFormed(t)
    requires TimeValue.UnitScale(t.unit).Some? && DecimalContext.Short(TimeValue.Coefficient(t))
    ensures MeaningOf(TimeValue.Spelling(t), Some(key), tag) == Femtoseconds(n) <==> TimeValue.DenotesTime(t, n)
  {
    TimeValue.TimeExact(t, n);
    var r := TimeValue.CanonicalTime(TimeValue.Spelling(t));
    if r.Ok? {
      TimeOutcome(TimeValue.Spelling(t), key, tag, r.value.value);
    } else {
      TimeFails(TimeValue.Spelling(t), key, tag);
    }
  }

  lemma {:induction false} TimeOutcome(s: string, key: string, tag: Tag, n: int)
    requires IsTimeField(key) && TimeValue.CanonicalTime(s) == Ok(Some(n))
    ensures MeaningOf(s, Some(key), tag) == Femtoseconds(n)
  {
    TimeText(s, key, tag, n);
    TextForm(s, Some(key), tag);
    FormInjective(MeaningOf(s, Some(key), tag), Femtoseconds(n));
  }

  lemma {:induction false} TimeFails(s: string, key: string, tag: Tag)
    requires IsTimeField(key) && TimeValue.CanonicalTime(s).Err?
    ensures MeaningOf(s, Some(key), tag) == NoMeaning
  {
    TimeKeyIsNotValue(key);
    AsTimeFails(s, key);
    TimeFirst(s, key, tag);
    FailedMeansNothing(s, key, tag);
  }

  lemma {:induction false} FailedMeansNothing(s: string, key: string, tag: Tag)
    requires Convert(s, key, tag) == Failed
    ensures MeaningOf(s, Some(key), tag) == NoMeaning
  {}

  /** In a logic field an accepted literal with known digits means its number modulo 2^width, at its
      width and with its sign. */
  lemma {:induction false} LiteralMeans(l: SvLiteral.Literal, key: string, tag: Tag) returns (g: SvLiteral.Logic)
    requires key in LOGIC_FIELDS && !Guarded(key, tag) && SvLiteral.WellFormed(l)
    requires LiteralValue.Known(SvLiteral.Strip(l.digits)) && SvLiteral.CanonicalLiteral(SvLiteral.Spelling(l)).Ok?
    ensures MeaningOf(SvLiteral.Spelling(l), Some(key), tag) == Bits(g)
    ensures g.width == NumberOf(l.width) && g.signed == l.signed && |g.bits| == g.width && AreBits(g.bits)
    ensures ValueOf(g.bits) == LiteralValue.Spells(l) % Pow2(g.width)
  {
    g := LiteralAccepted(l);
    LiteralValue.LiteralOutcome(l);
    LiteralValue.LiteralShape(SvLiteral.Spelling(l), g);
    LiteralValue.KnownBits(l.base, SvLiteral.Strip(l.digits), NumberOf(l.width));
    LogicText(SvLiteral.Spelling(l), key, tag, g);
    TextForm(SvLiteral.Spelling(l), Some(key), tag);
    FormInjective(MeaningOf(SvLiteral.Spelling(l), Some(key), tag), Bits(g));
  }

  // ---- The exception is real ----

  /** A document with one time field. */
  function TimeDocument(v: Json): Json { Obj(map["time" := v]) }

  lemma {:induction false} TimeDocumentForm(v: Json, n: int)
    requires Canonical(v, Some("time"), UNTAGGED) == Some(TimeJson(n))
    ensures CanonicalDocument(TimeDocument(v)) == Some(TimeDocument(TimeJson(n)))
  {
    var fields := TimeDocument(v).fields;
    assert "kind" !in fields && "type" !in fields by {
      assert "time"[0] == 't' && "kind"[0] == 'k' && "time"[1] == 'i' && "type"[1] == 'y';
    }
    ObjectForm(fields, None, UNTAGGED, TimeDocument(TimeJson(n)).fields);
  }

  /** For every number of femtoseconds of at most 28 significant digits, a document that spells it as a
      time and one that spells its canonical form differ, and the comparison finds no difference. */
  lemma {:induction false} SpelledTimeCollides(n: nat)
    requires DecimalContext.Short(n)
    ensures var a := TimeDocument(Str(TimeValue.Spelling(TimeValue.Plain(n))));
            var b := TimeDocument(TimeJson(n));
            && a != b && CanonicalDocument(a).Some? && CanonicalDocument(b).Some?
            && JsonCompare.Compare(CanonicalDocument(a).value, CanonicalDocument(b).value, []) == []
  {
    var s := TimeValue.Spelling(TimeValue.Plain(n));
    TimeValue.PlainTimeExact(n);
    assert "time" in TIME_FIELDS;
    TimeText(s, "time", UNTAGGED, n);
    TimeFixed(n, Some("time"), UNTAGGED);
    TimeDocumentForm(Str(s), n);
    TimeDocumentForm(TimeJson(n), n);
    JsonCompare.CompareEmpty(TimeDocument(TimeJson(n)), TimeDocument(TimeJson(n)), []);
    assert TimeDocument(Str(s)).fields["time"] != TimeDocument(TimeJson(n)).fields["time"];
  }
}
