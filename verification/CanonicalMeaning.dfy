/** When two spellings become the same canonical value inside a document. */
module CanonicalMeaning {
  import opened Bytes
  import opened Numerals
  import opened Canonicalizer
  import opened Binary
  import DecimalContext
  import LiteralValue
  import SvLiteral
  import TimeValue

  lemma {:induction false} ShowIntInjective(m: int, n: int)
    ensures ShowInt(m) == ShowInt(n) <==> m == n
  {
    ShowIntReads(m);
    ShowIntReads(n);
  }

  // ---- Field names ----

  lemma {:induction false} ValueIsNoTime()
    ensures !IsTimeField("value")
  {
    LogicIsNoTime("value");
  }

  lemma {:induction false} LogicFieldEnds(key: string)
    requires key in LOGIC_FIELDS
    ensures !EndsWith(key, "_time")
  {
    if |key| >= 5 {
      assert key[|key| - 5..][1] == key[|key| - 4];
      assert key[|key| - 4] != 't';
    }
  }

  /** A shape all time fields have and no logic field has. */
  predicate TimeShape(key: string) {
    || |key| == 3 || |key| == 9 || |key| == 10
    || (|key| == 4 && (key[1] == 'i' || key[1] == 't'))
    || (|key| == 5 && key[1] != 'a') || (|key| == 6 && key[1] == 'e') || (|key| == 7 && key[0] == 'l')
    || (|key| == 8 && key[1] != 'e') || (|key| == 11 && key[1] != 'f') || (|key| == 12 && key[1] == '_')
    || (|key| == 13 && key[1] == 'o')
  }

  lemma {:induction false} TimeFieldShape(key: string)
    requires key in TIME_FIELDS
    ensures TimeShape(key)
  {}

  lemma {:induction false} LogicFieldShape(key: string)
    requires key in LOGIC_FIELDS
    ensures !TimeShape(key)
  {}

  lemma {:induction false} LogicIsNoTime(key: string)
    requires key in LOGIC_FIELDS
    ensures !IsTimeField(key)
  {
    LogicFieldEnds(key);
    LogicFieldShape(key);
    if key in TIME_FIELDS {
      TimeFieldShape(key);
    }
  }

  // ---- Times ----

  lemma {:induction false} TimeKeyIsNotValue(key: string)
    requires IsTimeField(key)
    ensures key != "value"
  {
    ValueIsNoTime();
  }

  lemma {:induction false} TimeFirst(s: string, key: string, tag: Tag)
    requires key != "value" && AsTime(s, key) != Same
    ensures Convert(s, key, tag) == AsTime(s, key)
  {}

  lemma {:induction false} AsTimeFails(s: string, key: string)
    requires IsTimeField(key) && TimeValue.CanonicalTime(s).Err?
    ensures AsTime(s, key) == Failed
  {}

  lemma {:induction false} TimeText(s: string, key: string, tag: Tag, n: int)
    requires IsTimeField(key) && TimeValue.CanonicalTime(s) == Ok(Some(n))
    ensures Text(s, Some(key), tag) == Some(TimeJson(n))
  {
    ValueIsNoTime();
  }

  lemma {:induction false} TimeJsonInjective(m: int, n: int)
    ensures TimeJson(m) == TimeJson(n) <==> m == n
  {
    ShowIntInjective(m, n);
    if TimeJson(m) == TimeJson(n) {
      assert TimeJson(m).fields[TIME_KEY] == TimeJson(n).fields[TIME_KEY];
    }
  }

  /** In a time field, two accepted times of at most 28 significant digits become equal exactly when
      they denote the same whole number of femtoseconds, in whatever units they are spelled. */
  lemma {:induction false} TimeTextsAgree(t: TimeValue.Time, u: TimeValue.Time, key: string, tag: Tag)
    requires IsTimeField(key) && TimeValue.WellFormed(t) && TimeValue.WellFormed(u)
    requires TimeValue.UnitScale(t.unit).Some? && DecimalContext.Short(TimeValue.Coefficient(t))
    requires TimeValue.UnitScale(u.unit).Some? && DecimalContext.Short(TimeValue.Coefficient(u))
    requires TimeValue.CanonicalTime(TimeValue.Spelling(t)).Ok? && TimeValue.CanonicalTime(TimeValue.Spelling(u)).Ok?
    ensures Text(TimeValue.Spelling(t), Some(key), tag) == Text(TimeValue.Spelling(u), Some(key), tag) <==>
            exists n :: TimeValue.DenotesTime(t, n) && TimeValue.DenotesTime(u, n)
  {
    TimeValue.TimeExact(t, 0);
    TimeValue.TimeExact(u, 0);
    TimeValue.TimesAgree(t, u);
    var m := TimeValue.CanonicalTime(TimeValue.Spelling(t)).value.value;
    var n := TimeValue.CanonicalTime(TimeValue.Spelling(u)).value.value;
    TimeText(TimeValue.Spelling(t), key, tag, m);
    TimeText(TimeValue.Spelling(u), key, tag, n);
    TimeJsonInjective(m, n);
  }

  // ---- Literals ----

  /** A record that announces its value as text, or whose kind cannot be looked up. */
  predicate Guarded(key: string, tag: Tag) { key == "value" && (tag.Unhashable? || tag.text) }

  lemma {:induction false} LogicText(s: string, key: string, tag: Tag, g: SvLiteral.Logic)
    requires key in LOGIC_FIELDS && !Guarded(key, tag) && SvLiteral.CanonicalLiteral(s) == Ok(Some(g))
    ensures Text(s, Some(key), tag) == Some(LogicJson(g))
  {
    LogicIsNoTime(key);
  }

  lemma {:induction false} LogicJsonInjective(g: SvLiteral.Logic, h: SvLiteral.Logic)
    ensures LogicJson(g) == LogicJson(h) <==> g == h
  {
    if LogicJson(g) == LogicJson(h) {
      assert LogicJson(g).fields[LOGIC_KEY] == LogicJson(h).fields[LOGIC_KEY];
      LogicFieldsInjective(g, h);
    }
  }

  lemma {:induction false} LogicFieldsInjective(g: SvLiteral.Logic, h: SvLiteral.Logic)
    requires LogicFields(g) == LogicFields(h)
    ensures g == h
  {
    assert LogicFields(g)["width"] == LogicFields(h)["width"];
    assert LogicFields(g)["bits"] == LogicFields(h)["bits"];
    assert LogicFields(g)["signed"] == LogicFields(h)["signed"];
  }

  lemma {:induction false} LiteralAccepted(l: SvLiteral.Literal) returns (g: SvLiteral.Logic)
    requires SvLiteral.WellFormed(l) && SvLiteral.CanonicalLiteral(SvLiteral.Spelling(l)).Ok?
    ensures SvLiteral.CanonicalLiteral(SvLiteral.Spelling(l)) == Ok(Some(g))
  {
    LiteralValue.LiteralOutcome(l);
    g := SvLiteral.CanonicalLiteral(SvLiteral.Spelling(l)).value.value;
  }

  /** In a logic field, two accepted literals with known digits become equal exactly when they agree
      in width, in sign and in their number modulo 2^width, whatever bases spell them. */
  lemma {:induction false} LiteralTextsAgree(l: SvLiteral.Literal, m: SvLiteral.Literal, key: string, tag: Tag)
    requires key in LOGIC_FIELDS && !Guarded(key, tag)
    requires SvLiteral.WellFormed(l) && LiteralValue.Known(SvLiteral.Strip(l.digits))
    requires SvLiteral.WellFormed(m) && LiteralValue.Known(SvLiteral.Strip(m.digits))
    requires SvLiteral.CanonicalLiteral(SvLiteral.Spelling(l)).Ok? && SvLiteral.CanonicalLiteral(SvLiteral.Spelling(m)).Ok?
    ensures Text(SvLiteral.Spelling(l), Some(key), tag) == Text(SvLiteral.Spelling(m), Some(key), tag) <==>
            && NumberOf(l.width) == NumberOf(m.width) && l.signed == m.signed
            && LiteralValue.Spells(l) % Pow2(NumberOf(l.width)) == LiteralValue.Spells(m) % Pow2(NumberOf(l.width))
  {
    LiteralValue.LiteralsAgree(l, m);
    var g := LiteralAccepted(l);
    var h := LiteralAccepted(m);
    LogicText(SvLiteral.Spelling(l), key, tag, g);
    LogicText(SvLiteral.Spelling(m), key, tag, h);
    LogicJsonInjective(g, h);
  }
}
