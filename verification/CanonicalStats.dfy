/** `canonicalize` as it runs: loops over fields and items that count what they convert. */
module CanonicalStats {
  import opened Bytes
  import opened Json
  import opened KeyOrder
  import opened Folding
  import opened Canonicalizer
  import opened CanonicalFixed
  import SvLiteral

  datatype Tally = Tally(times: nat, logics: nat, raws: nat)

  const NONE := Tally(0, 0, 0)

  function Plus(a: Tally, b: Tally): Tally { Tally(a.times + b.times, a.logics + b.logics, a.raws + b.raws) }

  function OutcomeTally(r: Outcome): Tally {
    match r
    case Time(_) => Tally(1, 0, 0)
    case Logic(_) => Tally(0, 1, 0)
    case Raw(_) => Tally(0, 0, 1)
    case _ => NONE
  }

  function TextTally(s: string, key: Option<string>, tag: Tag): Tally {
    if key.None? then NONE else OutcomeTally(Convert(s, key.value, tag))
  }

  /** What a document holds to convert. */
  ghost function Count(v: Json, key: Option<string>, tag: Tag): Tally
    decreases v, 1, 0
  {
    match v
    case Obj(fields) => CountFields(v, SortedKeys(fields.Keys))
    case Arr(items) => CountItems(v, |items|, key, tag)
    case Str(s) => TextTally(s, key, tag)
    case _ => NONE
  }

  ghost predicate AllIn(keys: seq<string>, fields: map<string, Json>) {
    forall i :: 0 <= i < |keys| ==> keys[i] in fields
  }

  ghost function CountFields(v: Json, keys: seq<string>): Tally
    requires v.Obj? && AllIn(keys, v.fields)
    decreases v, 0, |keys|
  {
    if keys == [] then NONE
    else
      var k := keys[|keys| - 1];
      Plus(CountFields(v, keys[..|keys| - 1]), Count(v.fields[k], Some(k), TagOf(Label(v.fields))))
  }

  ghost function CountItems(v: Json, n: nat, key: Option<string>, tag: Tag): Tally
    requires v.Arr? && n <= |v.items|
    decreases v, 0, n
  {
    if n == 0 then NONE else Plus(CountItems(v, n - 1, key, tag), Count(v.items[n - 1], key, tag))
  }

  class Stats {
    var times: nat
    var logics: nat
    var raws: nat

    constructor ()
      ensures Tallied() == NONE
    {
      times, logics, raws := 0, 0, 0;
    }

    function Tallied(): Tally
      reads this
    {
      Tally(times, logics, raws)
    }

    method Add(r: Outcome)
      modifies this
      ensures Tallied() == Plus(old(Tallied()), OutcomeTally(r))
    {
      match r
      case Time(_) => times := times + 1;
      case Logic(_) => logics := logics + 1;
      case Raw(_) => raws := raws + 1;
      case _ =>
    }
  }

  /** A string under `key` of the record `parent`. */
  method CanonicalizeText(s: string, stats: Stats, key: Option<string>, parent: map<string, Json>)
    returns (r: Option<Json>)
    modifies stats
    ensures r == Text(s, key, TagOf(Label(parent)))
    ensures stats.Tallied() == Plus(old(stats.Tallied()), TextTally(s, key, TagOf(Label(parent))))
  {
    if key.Some? {
      stats.Add(Convert(s, key.value, TagOf(Label(parent))));
    }
    r := Text(s, key, TagOf(Label(parent)));
  }

  method Canonicalize(v: Json, stats: Stats, key: Option<string>, parent: map<string, Json>) returns (r: Option<Json>)
    modifies stats
    ensures r == Canonical(v, key, TagOf(Label(parent)))
    ensures r.Some? ==> stats.Tallied() == Plus(old(stats.Tallied()), Count(v, key, TagOf(Label(parent))))
    decreases v, 1, 0
  {
    match v
    case Obj(_) => r := CanonicalizeFields(v, stats, key, TagOf(Label(parent)));
    case Arr(_) => r := CanonicalizeItems(v, stats, key, parent);
    case Str(s) => r := CanonicalizeText(s, stats, key, parent);
    case _ => r := Some(v);
  }

  /** `out` holds the canonical form of the fields listed in `keys`. */
  ghost predicate Done(fields: map<string, Json>, keys: seq<string>, out: map<string, Json>) {
    forall x {:trigger Unfold(x)} :: Unfold(x) ==> AllDone(fields, keys, out)
  }

  ghost predicate AllDone(fields: map<string, Json>, keys: seq<string>, out: map<string, Json>) {
    && (forall k :: k in keys <==> k in out)
    && forall k :: k in keys ==> k in fields && Canonical(fields[k], Some(k), TagOf(Label(fields))) == Some(out[k])
  }

  /** `x` is the canonical form of field `k`, or it has none. */
  ghost predicate FieldDone(fields: map<string, Json>, k: string, x: Option<Json>) {
    forall z {:trigger Unfold(z)} :: Unfold(z) ==>
      k in fields && Canonical(fields[k], Some(k), TagOf(Label(fields))) == x
  }

  lemma {:induction false} DoneNone(fields: map<string, Json>)
    ensures Done(fields, [], map[])
  {}

  lemma {:induction false} DoneStep(fields: map<string, Json>, keys: seq<string>, k: string, out: map<string, Json>, x: Json)
    requires Done(fields, keys, out) && FieldDone(fields, k, Some(x))
    ensures Done(fields, keys + [k], out[k := x])
  {
    assert Unfold(0);
    assert AllDone(fields, keys + [k], out[k := x]);
  }

  lemma {:induction false} FieldFails(fields: map<string, Json>, k: string, key: Option<string>, tag: Tag)
    requires FieldDone(fields, k, None)
    ensures Canonical(Obj(fields), key, tag).None?
  {
    assert Unfold(0);
  }

  lemma {:induction false} FieldsDone(fields: map<string, Json>, keys: seq<string>, out: map<string, Json>, key: Option<string>, tag: Tag)
    requires Lists(keys, fields.Keys) && Done(fields, keys, out)
    ensures Canonical(Obj(fields), key, tag) == Some(Obj(out))
  {
    assert Unfold(0);
    assert out.Keys == fields.Keys;
    ObjectForm(fields, key, tag, out);
  }

  lemma {:induction false} CountStep(v: Json, keys: seq<string>, k: string)
    requires v.Obj? && k in v.fields && AllIn(keys, v.fields)
    ensures AllIn(keys + [k], v.fields)
    ensures CountFields(v, keys + [k]) == Plus(CountFields(v, keys), Count(v.fields[k], Some(k), TagOf(Label(v.fields))))
  {
    assert (keys + [k])[..|keys|] == keys;
  }

  method CanonicalizeField(v: Json, k: string, stats: Stats) returns (x: Option<Json>)
    requires v.Obj? && k in v.fields
    modifies stats
    ensures FieldDone(v.fields, k, x)
    ensures x.Some? ==>
              stats.Tallied() == Plus(old(stats.Tallied()), Count(v.fields[k], Some(k), TagOf(Label(v.fields))))
    decreases v, 0, 0
  {
    x := Canonicalize(v.fields[k], stats, Some(k), v.fields);
  }

  /** The loop over the fields; on failure, the field that has no canonical form. */
  method CanonicalizeEach(v: Json, keys: seq<string>, stats: Stats) returns (r: Option<map<string, Json>>, ghost bad: string)
    requires v.Obj? && AllIn(keys, v.fields)
    modifies stats
    ensures r.Some? ==> Done(v.fields, keys, r.value)
    ensures r.Some? ==> stats.Tallied() == Plus(old(stats.Tallied()), CountFields(v, keys))
    ensures r.None? ==> FieldDone(v.fields, bad, None)
    decreases v, 0, 1
  {
    bad := "";
    var out: map<string, Json> := map[];
    DoneNone(v.fields);
    ghost var done: seq<string> := [];
    for i := 0 to |keys|
      invariant done == keys[..i] && AllIn(done, v.fields) && Done(v.fields, done, out)
      invariant stats.Tallied() == Plus(old(stats.Tallied()), CountFields(v, done))
    {
      var k := keys[i];
      var x := CanonicalizeField(v, k, stats);
      if x.None? {
        return None, k;
      }
      CountStep(v, done, k);
      DoneStep(v.fields, done, k, out, x.value);
      done := done + [k];
      out := out[k := x.value];
    }
    assert done == keys;
    r := Some(out);
  }

  method CanonicalizeFields(v: Json, stats: Stats, ghost key: Option<string>, ghost tag: Tag) returns (r: Option<Json>)
    requires v.Obj?
    modifies stats
    ensures r == Canonical(v, key, tag)
    ensures r.Some? ==> stats.Tallied() == Plus(old(stats.Tallied()), Count(v, key, tag))
    decreases v, 0, 2
  {
    var keys := SortKeys(v.fields.Keys);
    assert forall i :: 0 <= i < |keys| ==> keys[i] in keys;
    ghost var bad;
    var out;
    out, bad := CanonicalizeEach(v, keys, stats);
    if out.None? {
      FieldFails(v.fields, bad, key, tag);
      return None;
    }
    FieldsDone(v.fields, keys, out.value, key, tag);
    r := Some(Obj(out.value));
  }

  /** `out` holds the canonical form of the first items. */
  ghost predicate ItemsDone(items: seq<Json>, out: seq<Json>, key: Option<string>, tag: Tag) {
    forall x {:trigger Unfold(x)} :: Unfold(x) ==>
      |out| <= |items| && forall j :: 0 <= j < |out| ==> Canonical(items[j], key, tag) == Some(out[j])
  }

  /** `x` is the canonical form of item `i`, or it has none. */
  ghost predicate ItemDone(items: seq<Json>, i: nat, key: Option<string>, tag: Tag, x: Option<Json>) {
    forall z {:trigger Unfold(z)} :: Unfold(z) ==> i < |items| && Canonical(items[i], key, tag) == x
  }

  lemma {:induction false} ItemsStep(items: seq<Json>, out: seq<Json>, key: Option<string>, tag: Tag, x: Json)
    requires ItemsDone(items, out, key, tag) && ItemDone(items, |out|, key, tag, Some(x))
    ensures ItemsDone(items, out + [x], key, tag)
  {
    assert Unfold(0);
  }

  lemma {:induction false} AllItemsDone(items: seq<Json>, out: seq<Json>, key: Option<string>, tag: Tag)
    requires ItemsDone(items, out, key, tag) && |out| == |items|
    ensures Canonical(Arr(items), key, tag) == Some(Arr(out))
  {
    assert Unfold(0);
    var r := Canonical(Arr(items), key, tag);
    assert r.Some? && r.value.Arr? && r.value.items == out;
  }

  lemma {:induction false} ItemFails(items: seq<Json>, i: nat, key: Option<string>, tag: Tag)
    requires ItemDone(items, i, key, tag, None)
    ensures Canonical(Arr(items), key, tag).None?
  {
    assert Unfold(0);
  }

  method CanonicalizeItem(v: Json, i: nat, stats: Stats, key: Option<string>, parent: map<string, Json>, ghost tag: Tag)
    returns (x: Option<Json>)
    requires v.Arr? && i < |v.items| && tag == TagOf(Label(parent))
    modifies stats
    ensures ItemDone(v.items, i, key, tag, x)
    ensures x.Some? ==> stats.Tallied() == Plus(old(stats.Tallied()), Count(v.items[i], key, tag))
    decreases v, 0, 0
  {
    x := Canonicalize(v.items[i], stats, key, parent);
  }

  lemma {:induction false} CountItemsStep(v: Json, i: nat, key: Option<string>, tag: Tag, start: Tally)
    requires v.Arr? && i < |v.items|
    ensures Plus(start, CountItems(v, i + 1, key, tag)) == Plus(Plus(start, CountItems(v, i, key, tag)), Count(v.items[i], key, tag))
  {}

  /** The loop over the items; on failure, the item that has no canonical form. */
  method CanonicalizeItemsEach(v: Json, stats: Stats, key: Option<string>, parent: map<string, Json>, ghost tag: Tag)
    returns (r: Option<seq<Json>>, ghost bad: nat)
    requires v.Arr? && tag == TagOf(Label(parent))
    modifies stats
    ensures r.Some? ==> |r.value| == |v.items| && ItemsDone(v.items, r.value, key, tag)
    ensures r.Some? ==> stats.Tallied() == Plus(old(stats.Tallied()), CountItems(v, |v.items|, key, tag))
    ensures r.None? ==> ItemDone(v.items, bad, key, tag, None)
    decreases v, 0, 1
  {
    bad := 0;
    var out: seq<Json> := [];
    ghost var start := stats.Tallied();
    for i := 0 to |v.items|
      invariant |out| == i && ItemsDone(v.items, out, key, tag)
      invariant stats.Tallied() == Plus(start, CountItems(v, i, key, tag))
    {
      var x := CanonicalizeItem(v, i, stats, key, parent, tag);
      if x.None? {
        return None, i;
      }
      CountItemsStep(v, i, key, tag, start);
      ItemsStep(v.items, out, key, tag, x.value);
      out := out + [x.value];
    }
    r := Some(out);
  }

  method CanonicalizeItems(v: Json, stats: Stats, key: Option<string>, parent: map<string, Json>) returns (r: Option<Json>)
    requires v.Arr?
    modifies stats
    ensures r == Canonical(v, key, TagOf(Label(parent)))
    ensures r.Some? ==> stats.Tallied() == Plus(old(stats.Tallied()), Count(v, key, TagOf(Label(parent))))
    decreases v, 0, 2
  {
    ghost var bad, tag := 0, TagOf(Label(parent));
    var out;
    out, bad := CanonicalizeItemsEach(v, stats, key, parent, tag);
    if out.None? {
      ItemFails(v.items, bad, key, tag);
      return None;
    }
    AllItemsDone(v.items, out.value, key, tag);
    r := Some(Arr(out.value));
  }

  // ---- Nothing is left to convert ----

  predicate Quiet(t: Tally) { t.times == 0 && t.logics == 0 }

  lemma {:induction false} FieldsQuiet(v: Json, keys: seq<string>)
    requires v.Obj? && AllIn(keys, v.fields)
    requires forall k :: k in v.fields ==> Quiet(Count(v.fields[k], Some(k), TagOf(Label(v.fields))))
    ensures Quiet(CountFields(v, keys))
  {
    if keys != [] {
      FieldsQuiet(v, keys[..|keys| - 1]);
    }
  }

  lemma {:induction false} ObjectQuiet(v: Json, key: Option<string>, tag: Tag)
    requires v.Obj?
    requires forall k :: k in v.fields ==> Quiet(Count(v.fields[k], Some(k), TagOf(Label(v.fields))))
    ensures Quiet(Count(v, key, tag))
  {
    var keys := SortedKeys(v.fields.Keys);
    assert forall i :: 0 <= i < |keys| ==> keys[i] in keys;
    FieldsQuiet(v, keys);
  }

  lemma {:induction false} ItemsQuiet(v: Json, n: nat, key: Option<string>, tag: Tag)
    requires v.Arr? && n <= |v.items|
    requires forall i :: 0 <= i < |v.items| ==> Quiet(Count(v.items[i], key, tag))
    ensures Quiet(CountItems(v, n, key, tag))
  {
    if n > 0 {
      ItemsQuiet(v, n - 1, key, tag);
    }
  }

  lemma {:induction false} InertConvert(s: string, key: string, tag: Tag)
    requires Inert(key)
    ensures Convert(s, key, tag) == Same
  {}

  lemma {:induction false} BitConvert(s: string, key: string, tag: Tag)
    requires key in BIT_FIELDS
    ensures Convert(s, key, tag).Raw? || Convert(s, key, tag).Same?
  {
    BitField(key);
  }

  lemma {:induction false} TimeQuiet(n: int, key: Option<string>, tag: Tag)
    ensures Quiet(Count(TimeJson(n), key, tag))
  {
    var v := TimeJson(n);
    TimeKeyInert();
    InertConvert(ShowInt(n), TIME_KEY, TagOf(Label(v.fields)));
    ObjectQuiet(v, key, tag);
  }

  lemma {:induction false} LogicQuiet(g: SvLiteral.Logic, key: Option<string>, tag: Tag)
    ensures Quiet(Count(LogicJson(g), key, tag))
  {
    var v := Obj(LogicFields(g));
    BitConvert(g.bits, "bits", TagOf(Label(v.fields)));
    forall k | k in v.fields
      ensures Quiet(Count(v.fields[k], Some(k), TagOf(Label(v.fields))))
    {
      assert k == "width" || k == "bits" || k == "signed";
    }
    ObjectQuiet(v, Some(LOGIC_KEY), TagOf(Label(LogicJson(g).fields)));
    ObjectQuiet(LogicJson(g), key, tag);
  }

  lemma {:induction false} TextQuiet(s: string, key: Option<string>, tag: Tag)
    requires Text(s, key, tag).Some?
    ensures Quiet(Count(Text(s, key, tag).value, key, tag))
  {
    if key.Some? {
      match Convert(s, key.value, tag)
      case Time(n) => TimeQuiet(n, key, tag);
      case Logic(g) => LogicQuiet(g, key, tag);
      case Raw(bits) => ConvertedRaw(s, key.value, tag); BitConvert(bits, key.value, tag);
      case Same =>
    }
  }

  lemma {:induction false} ObjectFormQuiet(fields: map<string, Json>, r: map<string, Json>, key: Option<string>, tag: Tag)
    requires Canonical(Obj(fields), key, tag) == Some(Obj(r))
    ensures Quiet(Count(Obj(r), key, tag))
    decreases Obj(fields), 0
  {
    ObjectForm(fields, key, tag, r);
    LabelKept(fields, r);
    forall k | k in r
      ensures Quiet(Count(r[k], Some(k), TagOf(Label(r))))
    {
      CanonicalQuiet(fields[k], Some(k), TagOf(Label(fields)));
    }
    ObjectQuiet(Obj(r), key, tag);
  }

  /** A canonical document holds no time and no literal that a further pass would convert. */
  lemma {:induction false} CanonicalQuiet(v: Json, key: Option<string>, tag: Tag)
    requires Canonical(v, key, tag).Some?
    ensures Quiet(Count(Canonical(v, key, tag).value, key, tag))
    decreases v, 1
  {
    match v
    case Obj(fields) =>
      ObjectForm(fields, key, tag, map[]);
      ObjectFormQuiet(fields, Canonical(v, key, tag).value.fields, key, tag);
    case Arr(items) =>
      var r := Canonical(v, key, tag).value;
      forall i | 0 <= i < |items|
        ensures Quiet(Count(r.items[i], key, tag))
      {
        CanonicalQuiet(items[i], key, tag);
      }
      ItemsQuiet(r, |items|, key, tag);
    case Str(s) => TextQuiet(s, key, tag);
    case _ =>
  }
}
