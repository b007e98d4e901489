/** What canonicalization makes of each string of a document, told by the names of its field and the
    marks of its record. */
module CanonicalText {
  import opened Bytes
  import opened Json
  import opened Pointers
  import opened Canonicalizer
  import opened CanonicalFixed
  import opened Numerals
  import opened Folding
  import CanonicalMeaning
  import LiteralValue
  import SvLiteral
  import TimeValue

  // ---- Names, letter by letter ----

  predicate TimeName(key: string) {
    || key == "time" || key == "times" || key == "timescale" || key == "begin" || key == "end"
    || key == "start" || key == "stop" || key == "duration" || key == "latency" || key == "period"
    || (|key| >= 5 && key[|key| - 5..] == "_time")
  }

  predicate LogicName(key: string) {
    || key == "value" || key == "values" || key == "id" || key == "address" || key == "response"
    || key == "data" || key == "payload" || key == "before_value" || key == "after_value"
    || key == "current_value" || key == "expected_value"
  }

  predicate BitName(key: string) { key == "bits" || key == "x_mask" || key == "z_mask" }

  /** A string of the characters raw bits are written in. */
  predicate RawSpelling(s: string) {
    && s != ""
    && forall i :: 0 <= i < |s| ==>
         || s[i] == '0' || s[i] == '1' || s[i] == 'x' || s[i] == 'X'
         || s[i] == 'z' || s[i] == 'Z' || s[i] == '?' || s[i] == '_'
  }

  /** `bits` is `s` without its underscores, letters in upper case. */
  ghost predicate RawForm(s: string, bits: string) {
    if s == "" then bits == ""
    else if s[0] == '_' then RawForm(s[1..], bits)
    else
      && bits != "" && RawForm(s[1..], bits[1..])
      && bits[0] == (match s[0] case 'x' => 'X' case 'z' => 'Z' case c => c)
  }

  // ---- Marks of a record ----

  /** What the record says its value is: its kind or, without one, its type. */
  predicate Says(fields: map<string, Json>, mark: Json) {
    || ("kind" in fields && fields["kind"] == mark)
    || ("kind" !in fields && "type" in fields && fields["type"] == mark)
  }

  predicate HoldsText(fields: map<string, Json>) { Says(fields, Str("string")) || Says(fields, Str("event")) }

  /** The mark is a list or an object, which cannot be looked up. */
  predicate MarkRaises(fields: map<string, Json>) {
    || ("kind" in fields && (fields["kind"].Arr? || fields["kind"].Obj?))
    || ("kind" !in fields && "type" in fields && (fields["type"].Arr? || fields["type"].Obj?))
  }

  // ---- What a string becomes ----

  type TimeReading = Result<Option<int>>
  type LogicReading = Result<Option<SvLiteral.Logic>>

  /** A string that reads as `r` under a time field. */
  function TimeForm(s: string, r: TimeReading): Option<Json> {
    match r
    case Err(_) => None
    case Ok(None) => Some(Str(s))
    case Ok(Some(n)) => Some(Obj(map["$xdebug_time_fs" := Str(ShowInt(n))]))
  }

  /** A string that reads as `r` under a literal field. */
  function LogicForm(s: string, r: LogicReading): Option<Json> {
    match r
    case Err(_) => None
    case Ok(None) => Some(Str(s))
    case Ok(Some(g)) =>
      Some(Obj(map["$xdebug_logic" := Obj(map["width" := Num(g.width), "bits" := Str(g.bits), "signed" := Bool(g.signed)])]))
  }

  /** A string under `key` of a record that reads as `t` and as `g`: an error where the mark of a value
      cannot be looked up, the text itself where the mark says so, and otherwise the form its field
      asks for. No field asks for two forms. */
  ghost predicate Formed(fields: map<string, Json>, key: string, s: string, t: TimeReading, g: LogicReading, r: Option<Json>) {
    if key == "value" && MarkRaises(fields) then r == None
    else if key == "value" && HoldsText(fields) then r == Some(Str(s))
    else if TimeName(key) then r == TimeForm(s, t)
    else if LogicName(key) then r == LogicForm(s, g)
    else if BitName(key) && RawSpelling(s) then r.Some? && r.value.Str? && RawForm(s, r.value.s)
    else r == Some(Str(s))
  }

  /** `r` is what becomes of the string `s` under `key` of a record. */
  ghost predicate BecomesText(fields: map<string, Json>, key: string, s: string, r: Option<Json>) {
    forall x {:trigger Unfold(x)} :: Unfold(x) ==>
      Formed(fields, key, s, TimeValue.CanonicalTime(s), SvLiteral.CanonicalLiteral(s), r)
  }

  // ---- The sets of names are the names ----

  /** The names with a prefix before "_time". */
  predicate PrefixedTime(key: string) {
    key in {"active_time", "before_time", "after_time", "continue_time", "query_time", "start_time",
            "end_time", "value_time", "x_onset_time"}
  }

  lemma {:induction false} PrefixedTimeEnds(key: string)
    requires PrefixedTime(key)
    ensures TimeName(key)
  {
    assert "active_time"[6..] == "_time" && "before_time"[6..] == "_time" && "after_time"[5..] == "_time";
    assert "continue_time"[8..] == "_time" && "query_time"[5..] == "_time" && "start_time"[5..] == "_time";
    assert "end_time"[3..] == "_time" && "value_time"[5..] == "_time" && "x_onset_time"[7..] == "_time";
  }

  lemma {:induction false} TimeNames(key: string)
    ensures IsTimeField(key) <==> TimeName(key)
  {
    if PrefixedTime(key) {
      PrefixedTimeEnds(key);
    }
  }

  lemma {:induction false} LogicNames(key: string)
    ensures key in LOGIC_FIELDS <==> LogicName(key)
    ensures key in BIT_FIELDS <==> BitName(key)
  {}

  /** No literal field and no bit field is a time field, and no bit field a literal field. */
  lemma {:induction false} NamesApart(key: string)
    ensures !(LogicName(key) && TimeName(key)) && !(BitName(key) && (TimeName(key) || LogicName(key)))
  {
    LogicNames(key);
    TimeNames(key);
    if BitName(key) {
      BitField(key);
    } else if LogicName(key) {
      CanonicalMeaning.LogicIsNoTime(key);
    }
  }

  lemma {:induction false} RawSpelled(s: string)
    ensures IsRawBits(s) <==> RawSpelling(s)
  {}

  lemma {:induction false} RawFormOf(s: string)
    ensures RawForm(s, RawBits(s))
  {
    if s != "" {
      var rest := s[1..];
      assert s == [s[0]] + rest;
      LiteralValue.StripFirst(s[0], rest);
      RawFormOf(rest);
      assert s[0] == '_' ==> RawBits(s) == RawBits(rest);
      assert s[0] != '_' ==> RawBits(s)[1..] == RawBits(rest);
    }
  }

  // ---- Strings ----

  /** The set a name is in, for a name that is in one of them at most. */
  lemma {:induction false} Names(key: string)
    ensures TimeName(key) ==> IsTimeField(key) && key !in LOGIC_FIELDS && key !in BIT_FIELDS && key != "value"
    ensures LogicName(key) ==> !IsTimeField(key) && key in LOGIC_FIELDS && key !in BIT_FIELDS
    ensures !TimeName(key) && !LogicName(key) ==> !IsTimeField(key) && key !in LOGIC_FIELDS && key != "value"
    ensures key in BIT_FIELDS <==> BitName(key)
  {
    NamesApart(key);
    TimeNames(key);
    LogicNames(key);
  }

  /** A field that may hold times and nothing else. */
  predicate OnlyTime(key: string) {
    IsTimeField(key) && key !in LOGIC_FIELDS && key !in BIT_FIELDS && key != "value"
  }

  lemma {:induction false} TimeFails(s: string, key: string, tag: Tag)
    requires OnlyTime(key) && TimeValue.CanonicalTime(s).Err?
    ensures Text(s, Some(key), tag) == None
  {
    CanonicalMeaning.AsTimeFails(s, key);
    CanonicalMeaning.TimeFirst(s, key, tag);
    FailedHasNoText(s, key, tag);
  }

  lemma {:induction false} FailedHasNoText(s: string, key: string, tag: Tag)
    requires Convert(s, key, tag) == Failed
    ensures Text(s, Some(key), tag) == None
  {}

  lemma {:induction false} NoTime(s: string, key: string, tag: Tag)
    requires OnlyTime(key) && TimeValue.CanonicalTime(s) == Ok(None)
    ensures Text(s, Some(key), tag) == Some(Str(s))
  {
    assert AsTime(s, key) == Same;
  }

  lemma {:induction false} TimeField(s: string, key: string, tag: Tag, t: TimeReading)
    requires OnlyTime(key) && t == TimeValue.CanonicalTime(s)
    ensures Text(s, Some(key), tag) == TimeForm(s, t)
  {
    match t
    case Err(_) => TimeFails(s, key, tag);
    case Ok(None) => NoTime(s, key, tag);
    case Ok(Some(n)) => CanonicalMeaning.TimeText(s, key, tag, n);
  }

  /** A field that may hold literals and nothing else. */
  predicate OnlyLogic(key: string, tag: Tag) {
    && !IsTimeField(key) && key in LOGIC_FIELDS && key !in BIT_FIELDS
    && (key == "value" ==> tag == Hashable(false))
  }

  lemma {:induction false} LogicFails(s: string, key: string, tag: Tag)
    requires OnlyLogic(key, tag) && SvLiteral.CanonicalLiteral(s).Err?
    ensures Text(s, Some(key), tag) == None
  {
    assert AsLogic(s, key) == Failed;
  }

  lemma {:induction false} NoLogic(s: string, key: string, tag: Tag)
    requires OnlyLogic(key, tag) && SvLiteral.CanonicalLiteral(s) == Ok(None)
    ensures Text(s, Some(key), tag) == Some(Str(s))
  {
    assert AsLogic(s, key) == Same;
  }

  lemma {:induction false} LogicField(s: string, key: string, tag: Tag, g: LogicReading)
    requires OnlyLogic(key, tag) && g == SvLiteral.CanonicalLiteral(s)
    ensures Text(s, Some(key), tag) == LogicForm(s, g)
  {
    match g
    case Err(_) => LogicFails(s, key, tag);
    case Ok(None) => NoLogic(s, key, tag);
    case Ok(Some(l)) => CanonicalMeaning.LogicText(s, key, tag, l);
  }

  lemma {:induction false} OtherField(s: string, key: string, tag: Tag)
    requires !IsTimeField(key) && key !in LOGIC_FIELDS && key != "value"
    ensures Text(s, Some(key), tag) == Some(Str(if key in BIT_FIELDS && IsRawBits(s) then RawBits(s) else s))
  {}

  lemma {:induction false} TextField(s: string, key: string, tag: Tag)
    requires key == "value" && key !in BIT_FIELDS && tag != Hashable(false)
    ensures Text(s, Some(key), tag) == if tag.Unhashable? then None else Some(Str(s))
  {}

  lemma {:induction false} Marks(fields: map<string, Json>)
    ensures TagOf(Label(fields)).Unhashable? <==> MarkRaises(fields)
    ensures TagOf(Label(fields)) == Hashable(true) <==> HoldsText(fields)
    ensures !(MarkRaises(fields) && HoldsText(fields))
  {}

  /** The four cases of a field, with the string's readings and its form left open. */
  lemma {:induction false} FieldForms(fields: map<string, Json>, key: string, s: string, t: TimeReading, g: LogicReading, r: Option<Json>)
    requires key == "value" && MarkRaises(fields) ==> r == None
    requires key == "value" && HoldsText(fields) ==> r == Some(Str(s))
    requires OnlyTime(key) ==> r == TimeForm(s, t)
    requires OnlyLogic(key, TagOf(Label(fields))) ==> r == LogicForm(s, g)
    requires !IsTimeField(key) && key !in LOGIC_FIELDS && key != "value" ==>
               r == Some(Str(if key in BIT_FIELDS && IsRawBits(s) then RawBits(s) else s))
    ensures Formed(fields, key, s, t, g, r)
  {
    Marks(fields);
    Names(key);
    RawSpelled(s);
    RawFormOf(s);
  }

  /** Every string of a record becomes what its field and the record's marks ask for. */
  lemma {:induction false} StringBecomes(fields: map<string, Json>, key: string, s: string)
    ensures BecomesText(fields, key, s, Text(s, Some(key), TagOf(Label(fields))))
  {
    var tag, t, g := TagOf(Label(fields)), TimeValue.CanonicalTime(s), SvLiteral.CanonicalLiteral(s);
    Marks(fields);
    Names(key);
    if OnlyTime(key) {
      TimeField(s, key, tag, t);
    } else if OnlyLogic(key, tag) {
      LogicField(s, key, tag, g);
    } else if key == "value" {
      TextField(s, key, tag);
    } else {
      OtherField(s, key, tag);
    }
    FieldForms(fields, key, s, t, g, Text(s, Some(key), tag));
  }

  // ---- Lists ----

  /** The value at a place in nested lists. */
  function Item(v: Json, at: seq<nat>): Option<Json>
    decreases |at|
  {
    if at == [] then Some(v)
    else if v.Arr? && at[0] < |v.items| then Item(v.items[at[0]], at[1..])
    else None
  }

  /** A string in nested lists becomes what it would become outside them. */
  lemma {:induction false} ItemForm(v: Json, key: Option<string>, tag: Tag, at: seq<nat>, s: string)
    requires Canonical(v, key, tag).Some? && Item(v, at) == Some(Str(s))
    ensures Text(s, key, tag).Some? && Item(Canonical(v, key, tag).value, at) == Text(s, key, tag)
    decreases |at|
  {
    if at != [] {
      ItemForm(v.items[at[0]], key, tag, at[1..], s);
    }
  }

  // ---- Records of a document ----

  /** Where a string is: in a field of the record a path leads to, in nested lists or not. */
  datatype Place = Place(path: seq<string>, key: string, at: seq<nat>, text: string)

  predicate RecordAt(v: Json, path: seq<string>) { Locate(v, path).Ok? && Locate(v, path).value.Obj? }

  predicate HeldAt(v: Json, p: Place) {
    && RecordAt(v, p.path) && p.key in Locate(v, p.path).value.fields
    && Item(Locate(v, p.path).value.fields[p.key], p.at) == Some(Str(p.text))
  }

  /** `w` is the canonical form of `v` somewhere. */
  ghost predicate FormOfRecord(v: Json, w: Json) {
    exists key, tag :: Canonical(v, key, tag) == Some(w)
  }

  /** A record keeps its place. */
  lemma {:induction false} PlaceForm(v: Json, w: Json, key: Option<string>, tag: Tag, path: seq<string>)
    requires Canonical(v, key, tag) == Some(w)
    requires RecordAt(v, path)
    ensures RecordAt(w, path) && FormOfRecord(Locate(v, path).value, Locate(w, path).value)
    decreases |path|
  {
    if path != [] {
      if v.Obj? {
        ObjectForm(v.fields, key, tag, w.fields);
        PlaceForm(v.fields[path[0]], w.fields[path[0]], Some(path[0]), TagOf(Label(v.fields)), path[1..]);
      } else {
        var i := IndexValue(path[0]);
        PlaceForm(v.items[i], w.items[i], key, tag, path[1..]);
      }
    }
  }

  lemma {:induction false} RecordText(fields: map<string, Json>, w: Json, key: string, at: seq<nat>, s: string)
    requires FormOfRecord(Obj(fields), w) && key in fields && Item(fields[key], at) == Some(Str(s))
    ensures w.Obj? && key in w.fields && Item(w.fields[key], at).Some?
    ensures BecomesText(fields, key, s, Item(w.fields[key], at))
  {
    var outer, tag :| Canonical(Obj(fields), outer, tag) == Some(w);
    ObjectForm(fields, outer, tag, w.fields);
    ItemForm(fields[key], Some(key), TagOf(Label(fields)), at, s);
    StringBecomes(fields, key, s);
  }

  /** In the canonical form of a document every string of every record, in lists or not, has become
      what its field and the marks of its record ask for; strings outside records are left alone. */
  lemma {:induction false} DocumentText(v: Json, w: Json, p: Place)
    requires CanonicalDocument(v) == Some(w)
    ensures HeldAt(v, p) ==>
              && RecordAt(w, p.path) && p.key in Locate(w, p.path).value.fields
              && var r := Item(Locate(w, p.path).value.fields[p.key], p.at);
                 r.Some? && BecomesText(Locate(v, p.path).value.fields, p.key, p.text, r)
    ensures Item(v, p.at) == Some(Str(p.text)) ==> Item(w, p.at) == Some(Str(p.text))
  {
    if Item(v, p.at) == Some(Str(p.text)) {
      ItemForm(v, None, UNTAGGED, p.at, p.text);
    }
    if HeldAt(v, p) {
      PlaceForm(v, w, None, UNTAGGED, p.path);
      RecordText(Locate(v, p.path).value.fields, Locate(w, p.path).value, p.key, p.at, p.text);
    }
  }

  // ---- Documents without a canonical form ----

  /** The string at this place has no canonical form. */
  ghost predicate RaisesAt(v: Json, p: Place) {
    HeldAt(v, p) && BecomesText(Locate(v, p.path).value.fields, p.key, p.text, None)
  }

  lemma {:induction false} RaisesBelow(v: Json, token: string, p: Place)
    requires Index(v, token).Ok? && RaisesAt(Child(v, Index(v, token).value), p)
    ensures RaisesAt(v, p.(path := [token] + p.path))
  {
    assert ([token] + p.path)[1..] == p.path;
  }

  /** A value without a canonical form is a string that has none, in lists or not, or holds one in
      a record. */
  ghost predicate Broken(v: Json, key: Option<string>, tag: Tag) {
    || (exists at, s :: Item(v, at) == Some(Str(s)) && Text(s, key, tag) == None)
    || (exists p :: RaisesAt(v, p))
  }

  lemma {:induction false} BrokenItem(v: Json, key: Option<string>, tag: Tag, i: nat)
    requires v.Arr? && i < |v.items| && Broken(v.items[i], key, tag)
    ensures Broken(v, key, tag)
  {
    if p :| RaisesAt(v.items[i], p) {
      IndexShows(i);
      RaisesBelow(v, Show(i), p);
    } else {
      var at, s :| Item(v.items[i], at) == Some(Str(s)) && Text(s, key, tag) == None;
      assert ([i] + at)[1..] == at;
      assert Item(v, [i] + at) == Some(Str(s));
    }
  }

  lemma {:induction false} BrokenField(v: Json, key: Option<string>, tag: Tag, k: string)
    requires v.Obj? && k in v.fields && Broken(v.fields[k], Some(k), TagOf(Label(v.fields)))
    ensures Broken(v, key, tag)
  {
    if p :| RaisesAt(v.fields[k], p) {
      RaisesBelow(v, k, p);
    } else {
      var at, s :| Item(v.fields[k], at) == Some(Str(s)) && Text(s, Some(k), TagOf(Label(v.fields))) == None;
      StringBecomes(v.fields, k, s);
      assert RaisesAt(v, Place([], k, at, s));
    }
  }

  lemma {:induction false} FormlessBroken(v: Json, key: Option<string>, tag: Tag)
    requires Canonical(v, key, tag).None?
    ensures Broken(v, key, tag)
    decreases v
  {
    match v
    case Obj(fields) =>
      var k :| k in fields && Canonical(fields[k], Some(k), TagOf(Label(fields))).None?;
      FormlessBroken(fields[k], Some(k), TagOf(Label(fields)));
      BrokenField(v, key, tag, k);
    case Arr(items) =>
      var i :| 0 <= i < |items| && Canonical(items[i], key, tag).None?;
      FormlessBroken(items[i], key, tag);
      BrokenItem(v, key, tag, i);
    case Str(s) =>
      assert Item(v, []) == Some(Str(s));
  }

  lemma {:induction false} FormedOnce(fields: map<string, Json>, key: string, s: string, t: TimeReading, g: LogicReading, x: Json)
    ensures !(Formed(fields, key, s, t, g, None) && Formed(fields, key, s, t, g, Some(x)))
  {}

  lemma {:induction false} BecomesOnce(fields: map<string, Json>, key: string, s: string, x: Json)
    ensures !(BecomesText(fields, key, s, None) && BecomesText(fields, key, s, Some(x)))
  {
    assert Unfold(0);
    FormedOnce(fields, key, s, TimeValue.CanonicalTime(s), SvLiteral.CanonicalLiteral(s), x);
  }

  /** Canonicalization raises an error exactly when some string of some record has no form. */
  lemma {:induction false} DocumentRaises(v: Json)
    ensures CanonicalDocument(v).None? <==> exists p :: RaisesAt(v, p)
  {
    if CanonicalDocument(v).None? {
      FormlessBroken(v, None, UNTAGGED);
    } else if p :| RaisesAt(v, p) {
      var w := CanonicalDocument(v).value;
      DocumentText(v, w, p);
      BecomesOnce(Locate(v, p.path).value.fields, p.key, p.text, Item(Locate(w, p.path).value.fields[p.key], p.at).value);
      assert false;
    }
  }
}
