/** `compare_json`: the differences between two documents, each located by a JSON Pointer. */
module JsonCompare {
  import opened Bytes
  import opened Json
  import opened Numerals
  import opened KeyOrder
  import opened PointerText
  import opened Pointers

  datatype Kind = TypeMismatch | ExtraInCurrent | MissingInCurrent | ListLengthMismatch | ValueMismatch

  datatype Difference = Difference(pointer: string, kind: Kind, original: Json, current: Json)

  /** A difference with its pointer still a path of tokens. */
  datatype Finding = Finding(path: seq<string>, kind: Kind, original: Json, current: Json)

  function TypeOf(j: Json): int {
    match j
    case Null => 0 case Bool(_) => 1 case Num(_) => 2 case Str(_) => 3 case Arr(_) => 4 case Obj(_) => 5
  }

  /** Two values of one type, by what they are. */
  predicate SameType(x: Json, y: Json) {
    || (x.Null? && y.Null?) || (x.Bool? && y.Bool?) || (x.Num? && y.Num?)
    || (x.Str? && y.Str?) || (x.Arr? && y.Arr?) || (x.Obj? && y.Obj?)
  }

  lemma {:induction false} TypesAgree(x: Json, y: Json)
    ensures TypeOf(x) == TypeOf(y) <==> SameType(x, y)
  {}

  function Min(a: nat, b: nat): nat { if a <= b then a else b }

  // ---- What the comparison lists ----

  ghost function Compare(o: Json, c: Json, path: seq<string>): seq<Finding>
    decreases o, 1, 0
  {
    if TypeOf(o) != TypeOf(c) then [Finding(path, TypeMismatch, o, c)]
    else if o.Obj? then CompareFields(o, c, SortedKeys(o.fields.Keys + c.fields.Keys), path)
    else if o.Arr? then Lengths(o, c, path) + CompareItems(o, c, Min(|o.items|, |c.items|), path)
    else if o != c then [Finding(path, ValueMismatch, o, c)]
    else []
  }

  function Lengths(o: Json, c: Json, path: seq<string>): seq<Finding>
    requires o.Arr? && c.Arr?
  {
    if |o.items| != |c.items| then [Finding(path, ListLengthMismatch, Num(|o.items|), Num(|c.items|))] else []
  }

  ghost function CompareField(o: Json, c: Json, key: string, path: seq<string>): seq<Finding>
    requires o.Obj? && c.Obj?
    decreases o, 0, 0
  {
    if key !in o.fields then
      if key in c.fields then [Finding(path + [key], ExtraInCurrent, Null, c.fields[key])] else []
    else if key !in c.fields then [Finding(path + [key], MissingInCurrent, o.fields[key], Null)]
    else Compare(o.fields[key], c.fields[key], path + [key])
  }

  ghost function CompareFields(o: Json, c: Json, keys: seq<string>, path: seq<string>): seq<Finding>
    requires o.Obj? && c.Obj?
    decreases o, 0, |keys| + 1
  {
    if keys == [] then []
    else CompareFields(o, c, keys[..|keys| - 1], path) + CompareField(o, c, keys[|keys| - 1], path)
  }

  ghost function CompareItems(o: Json, c: Json, n: nat, path: seq<string>): seq<Finding>
    requires o.Arr? && c.Arr? && n <= |o.items| && n <= |c.items|
    decreases o, 0, n
  {
    if n == 0 then []
    else CompareItems(o, c, n - 1, path) + Compare(o.items[n - 1], c.items[n - 1], path + [Show(n - 1)])
  }

  // ---- Where documents disagree, independently of the order of the search ----

  datatype Verdict = Agree | Disagree(kind: Kind, original: Json, current: Json)

  function Here(o: Json, c: Json): Verdict {
    if !SameType(o, c) then Disagree(TypeMismatch, o, c)
    else if o.Obj? then Agree
    else if o.Arr? then
      if |o.items| != |c.items| then Disagree(ListLengthMismatch, Num(|o.items|), Num(|c.items|)) else Agree
    else if o != c then Disagree(ValueMismatch, o, c)
    else Agree
  }

  /** Follows a path through both documents in step and judges where it ends. */
  function Judge(o: Json, c: Json, path: seq<string>): Verdict
    decreases |path|
  {
    if path == [] then Here(o, c)
    else if o.Obj? && c.Obj? then
      var key := path[0];
      if key in o.fields && key in c.fields then Judge(o.fields[key], c.fields[key], path[1..])
      else if |path| == 1 && key in c.fields then Disagree(ExtraInCurrent, Null, c.fields[key])
      else if |path| == 1 && key in o.fields then Disagree(MissingInCurrent, o.fields[key], Null)
      else Agree
    else if o.Arr? && c.Arr? then
      if IsIndex(path[0]) && IndexValue(path[0]) < Min(|o.items|, |c.items|) then
        Judge(o.items[IndexValue(path[0])], c.items[IndexValue(path[0])], path[1..])
      else Agree
    else Agree
  }

  /** `d` reports the verdict on its path, relative to `base`. */
  predicate Says(o: Json, c: Json, base: seq<string>, d: Finding) {
    base <= d.path && Judge(o, c, d.path[|base|..]) == Disagree(d.kind, d.original, d.current)
  }

  predicate Via(base: seq<string>, d: Finding, token: string) {
    base <= d.path && |d.path| > |base| && d.path[|base|] == token
  }

  lemma {:induction false} ViaPrefix(base: seq<string>, d: Finding, token: string)
    ensures Via(base, d, token) <==> base + [token] <= d.path
    ensures Via(base, d, token) ==>
              d.path[|base|..] != [] && d.path[|base|..][0] == token && d.path[|base|..][1..] == d.path[|base| + 1..]
  {
    if base + [token] <= d.path {
      assert d.path[|base|] == (base + [token])[|base|];
    }
    if Via(base, d, token) {
      assert d.path[..|base| + 1] == base + [token];
    }
  }

  lemma {:induction false} FieldExact(o: Json, c: Json, key: string, base: seq<string>, d: Finding)
    requires o.Obj? && c.Obj?
    ensures d in CompareField(o, c, key, base) <==> Via(base, d, key) && Says(o, c, base, d)
    decreases o, 0, 0
  {
    ViaPrefix(base, d, key);
    if key in o.fields && key in c.fields {
      CompareExact(o.fields[key], c.fields[key], base + [key], d);
    } else if Via(base, d, key) {
      assert |d.path| == |base| + 1 ==> d.path == base + [key];
    }
  }

  lemma {:induction false} FieldsExact(o: Json, c: Json, keys: seq<string>, base: seq<string>, d: Finding)
    requires o.Obj? && c.Obj?
    ensures d in CompareFields(o, c, keys, base) <==>
            Says(o, c, base, d) && |d.path| > |base| && d.path[|base|] in keys
    decreases o, 0, |keys| + 1
  {
    if keys != [] {
      var last := |keys| - 1;
      FieldsExact(o, c, keys[..last], base, d);
      FieldExact(o, c, keys[last], base, d);
      assert keys == keys[..last] + [keys[last]];
    }
  }

  lemma {:induction false} ItemsExact(o: Json, c: Json, n: nat, base: seq<string>, d: Finding)
    requires o.Arr? && c.Arr? && n <= |o.items| && n <= |c.items|
    ensures d in CompareItems(o, c, n, base) <==>
            Says(o, c, base, d) && |d.path| > |base| && IsIndex(d.path[|base|]) && IndexValue(d.path[|base|]) < n
    decreases o, 0, n
  {
    if n > 0 {
      var token := Show(n - 1);
      ItemsExact(o, c, n - 1, base, d);
      CompareExact(o.items[n - 1], c.items[n - 1], base + [token], d);
      ViaPrefix(base, d, token);
      IndexShows(n - 1);
      if |d.path| > |base| && IsIndex(d.path[|base|]) {
        ShowIndex(d.path[|base|]);
      }
    }
  }

  /** The comparison reports exactly the places where documents followed in step disagree. */
  lemma {:induction false} CompareExact(o: Json, c: Json, base: seq<string>, d: Finding)
    ensures d in Compare(o, c, base) <==> Says(o, c, base, d)
    decreases o, 1, 0
  {
    TypesAgree(o, c);
    if base <= d.path && |d.path| == |base| {
      assert d.path == base;
    }
    if TypeOf(o) == TypeOf(c) {
      if o.Obj? {
        FieldsExact(o, c, SortedKeys(o.fields.Keys + c.fields.Keys), base, d);
        if Says(o, c, base, d) && |d.path| > |base| {
          assert d.path[|base|..][0] == d.path[|base|];
        }
      } else if o.Arr? {
        ItemsExact(o, c, Min(|o.items|, |c.items|), base, d);
        if Says(o, c, base, d) && |d.path| > |base| {
          assert d.path[|base|..][0] == d.path[|base|];
        }
      }
    }
  }

  // ---- Empty exactly for equal documents ----

  lemma {:induction false} FieldsEmpty(o: Json, c: Json, keys: seq<string>, path: seq<string>)
    requires o.Obj? && c.Obj? && forall k :: k in keys ==> k in o.fields || k in c.fields
    ensures CompareFields(o, c, keys, path) == [] <==>
            forall k :: k in keys ==> k in o.fields && k in c.fields && o.fields[k] == c.fields[k]
    decreases o, 0, |keys|
  {
    if keys != [] {
      var last := |keys| - 1;
      var key := keys[last];
      assert keys == keys[..last] + [key];
      FieldsEmpty(o, c, keys[..last], path);
      if key in o.fields && key in c.fields {
        CompareEmpty(o.fields[key], c.fields[key], path + [key]);
      }
    }
  }

  lemma {:induction false} ItemsEmpty(o: Json, c: Json, n: nat, path: seq<string>)
    requires o.Arr? && c.Arr? && n <= |o.items| && n <= |c.items|
    ensures CompareItems(o, c, n, path) == [] <==> forall i :: 0 <= i < n ==> o.items[i] == c.items[i]
    decreases o, 0, n
  {
    if n > 0 {
      ItemsEmpty(o, c, n - 1, path);
      CompareEmpty(o.items[n - 1], c.items[n - 1], path + [Show(n - 1)]);
    }
  }

  /** Nothing is reported exactly when the documents are equal, types included. */
  lemma {:induction false} CompareEmpty(o: Json, c: Json, path: seq<string>)
    ensures Compare(o, c, path) == [] <==> o == c
    decreases o, 1, 0
  {
    if TypeOf(o) == TypeOf(c) {
      if o.Obj? {
        var keys := SortedKeys(o.fields.Keys + c.fields.Keys);
        FieldsEmpty(o, c, keys, path);
        if Compare(o, c, path) == [] {
          assert forall k :: k in o.fields.Keys + c.fields.Keys ==> k in keys;
          assert o.fields == c.fields;
        }
      } else if o.Arr? {
        ItemsEmpty(o, c, Min(|o.items|, |c.items|), path);
      }
    }
  }

  // ---- Reported in document order, no pointer twice ----

  /** In document `o`, `p` comes before `q`: it ends above it, or goes through an earlier key or
      item where they part. */
  ghost predicate Earlier(o: Json, p: seq<string>, q: seq<string>)
    decreases |p|
  {
    q != [] &&
    if p == [] then true
    else if p[0] == q[0] then Index(o, p[0]).Ok? && Earlier(Child(o, Index(o, p[0]).value), p[1..], q[1..])
    else if o.Obj? then KeyLess(p[0], q[0])
    else o.Arr? && IsIndex(p[0]) && IsIndex(q[0]) && IndexValue(p[0]) < IndexValue(q[0])
  }

  lemma {:induction false} EarlierDiffers(o: Json, p: seq<string>)
    ensures !Earlier(o, p, p)
    decreases |p|
  {
    if p != [] && Index(o, p[0]).Ok? {
      EarlierDiffers(Child(o, Index(o, p[0]).value), p[1..]);
    }
  }

  /** `x` is reported before `y`, both below `base`. */
  ghost predicate Ahead(o: Json, base: seq<string>, x: Finding, y: Finding) {
    base <= x.path && base <= y.path && Earlier(o, x.path[|base|..], y.path[|base|..])
  }

  ghost predicate InOrder(o: Json, base: seq<string>, fs: seq<Finding>) {
    forall i, j :: 0 <= i < j < |fs| ==> Ahead(o, base, fs[i], fs[j])
  }

  lemma {:induction false} OrderAppend(o: Json, base: seq<string>, a: seq<Finding>, b: seq<Finding>)
    requires InOrder(o, base, a) && InOrder(o, base, b)
    requires forall x, y :: x in a && y in b ==> Ahead(o, base, x, y)
    ensures InOrder(o, base, a + b)
  {
    var s := a + b;
    forall i, j | 0 <= i < j < |s|
      ensures Ahead(o, base, s[i], s[j])
    {
      if i < |a| <= j {
        assert s[i] in a && s[j] in b;
      }
    }
  }

  /** The order inside a child is the order in its document. */
  lemma {:induction false} OrderInside(o: Json, token: string, base: seq<string>, fs: seq<Finding>)
    requires Index(o, token).Ok? && InOrder(Child(o, Index(o, token).value), base + [token], fs)
    ensures InOrder(o, base, fs)
  {
    var child := Child(o, Index(o, token).value);
    forall i, j | 0 <= i < j < |fs|
      ensures Ahead(o, base, fs[i], fs[j])
    {
      assert Ahead(child, base + [token], fs[i], fs[j]);
      ViaPrefix(base, fs[i], token);
      ViaPrefix(base, fs[j], token);
    }
  }

  lemma {:induction false} KeysPrecede(o: Json, base: seq<string>, x: Finding, y: Finding)
    requires o.Obj? && base <= x.path && base <= y.path && |x.path| > |base| && |y.path| > |base|
    requires KeyLess(x.path[|base|], y.path[|base|])
    ensures Ahead(o, base, x, y)
  {
    KeyTrichotomy(x.path[|base|], y.path[|base|]);
  }

  lemma {:induction false} FieldsOrdered(o: Json, c: Json, keys: seq<string>, base: seq<string>)
    requires o.Obj? && c.Obj? && Ordered(keys)
    ensures InOrder(o, base, CompareFields(o, c, keys, base))
    decreases o, 0, |keys|
  {
    if keys != [] {
      var last := |keys| - 1;
      var key := keys[last];
      var a, b := CompareFields(o, c, keys[..last], base), CompareField(o, c, key, base);
      FieldsOrdered(o, c, keys[..last], base);
      if key in o.fields && key in c.fields {
        CompareOrdered(o.fields[key], c.fields[key], base + [key]);
        OrderInside(o, key, base, b);
      }
      forall x, y | x in a && y in b
        ensures Ahead(o, base, x, y)
      {
        FieldsExact(o, c, keys[..last], base, x);
        FieldExact(o, c, key, base, y);
        var i :| 0 <= i < last && keys[..last][i] == x.path[|base|];
        assert KeyLess(keys[i], key);
        KeysPrecede(o, base, x, y);
      }
      OrderAppend(o, base, a, b);
    }
  }

  lemma {:induction false} ItemsOrdered(o: Json, c: Json, n: nat, base: seq<string>)
    requires o.Arr? && c.Arr? && n <= |o.items| && n <= |c.items|
    ensures InOrder(o, base, CompareItems(o, c, n, base))
    decreases o, 0, n
  {
    if n > 0 {
      var token := Show(n - 1);
      var a := CompareItems(o, c, n - 1, base);
      var b := Compare(o.items[n - 1], c.items[n - 1], base + [token]);
      ItemsOrdered(o, c, n - 1, base);
      CompareOrdered(o.items[n - 1], c.items[n - 1], base + [token]);
      IndexShows(n - 1);
      OrderInside(o, token, base, b);
      forall x, y | x in a && y in b
        ensures Ahead(o, base, x, y)
      {
        ItemsExact(o, c, n - 1, base, x);
        CompareExact(o.items[n - 1], c.items[n - 1], base + [token], y);
        ViaPrefix(base, y, token);
      }
      OrderAppend(o, base, a, b);
    }
  }

  /** Differences are reported in document order: keys by code points, items by position, a list's
      length before its items. */
  lemma {:induction false} CompareOrdered(o: Json, c: Json, base: seq<string>)
    ensures InOrder(o, base, Compare(o, c, base))
    decreases o, 1, 0
  {
    if TypeOf(o) == TypeOf(c) {
      if o.Obj? {
        FieldsOrdered(o, c, SortedKeys(o.fields.Keys + c.fields.Keys), base);
      } else if o.Arr? {
        var n := Min(|o.items|, |c.items|);
        ItemsOrdered(o, c, n, base);
        forall x, y | x in Lengths(o, c, base) && y in CompareItems(o, c, n, base)
          ensures Ahead(o, base, x, y)
        {
          ItemsExact(o, c, n, base, y);
        }
        OrderAppend(o, base, Lengths(o, c, base), CompareItems(o, c, n, base));
      }
    }
  }

  // ---- What a report says about the documents ----

  /** The stated disagreement, read back through the path. */
  ghost predicate Confirmed(o: Json, c: Json, path: seq<string>, kind: Kind, x: Json, y: Json) {
    match kind
    case TypeMismatch => Locate(o, path) == Ok(x) && Locate(c, path) == Ok(y) && !SameType(x, y)
    case ValueMismatch =>
      && Locate(o, path) == Ok(x) && Locate(c, path) == Ok(y)
      && SameType(x, y) && !x.Arr? && !x.Obj? && x != y
    case ListLengthMismatch =>
      && x.Num? && y.Num? && x != y
      && (exists xs: seq<Json> :: Locate(o, path) == Ok(Arr(xs)) && x.n == |xs|)
      && (exists ys: seq<Json> :: Locate(c, path) == Ok(Arr(ys)) && y.n == |ys|)
    case ExtraInCurrent => Locate(o, path) == Err(MISSING) && Locate(c, path) == Ok(y) && x == Null
    case MissingInCurrent => Locate(o, path) == Ok(x) && Locate(c, path) == Err(MISSING) && y == Null
  }

  lemma {:induction false} JudgeConfirmed(o: Json, c: Json, path: seq<string>)
    requires Judge(o, c, path).Disagree?
    ensures var v := Judge(o, c, path); Confirmed(o, c, path, v.kind, v.original, v.current)
    decreases |path|
  {
    var v := Judge(o, c, path);
    if path == [] {
      if v.kind == ListLengthMismatch {
        assert Locate(o, path) == Ok(Arr(o.items)) && Locate(c, path) == Ok(Arr(c.items));
      }
    } else if o.Obj? {
      var key := path[0];
      if key in o.fields && key in c.fields {
        JudgeConfirmed(o.fields[key], c.fields[key], path[1..]);
        ConfirmedBelow(o, c, path, v, o.fields[key], c.fields[key]);
      } else {
        assert path[1..] == [];
      }
    } else {
      var i := IndexValue(path[0]);
      JudgeConfirmed(o.items[i], c.items[i], path[1..]);
      ConfirmedBelow(o, c, path, v, o.items[i], c.items[i]);
    }
  }

  lemma {:induction false} ConfirmedBelow(o: Json, c: Json, path: seq<string>, v: Verdict, x: Json, y: Json)
    requires v.Disagree? && path != [] && Confirmed(x, y, path[1..], v.kind, v.original, v.current)
    requires Locate(o, path) == Locate(x, path[1..]) && Locate(c, path) == Locate(y, path[1..])
    ensures Confirmed(o, c, path, v.kind, v.original, v.current)
  {}

  /** No disagreement lies above, at or below `q`. */
  ghost predicate Clear(o: Json, c: Json, q: seq<string>) {
    forall p :: Judge(o, c, p).Disagree? ==> Apart(p, q)
  }

  lemma {:induction false} ClearChild(o: Json, c: Json, token: string, q: seq<string>, x: Json, y: Json)
    requires Clear(o, c, [token] + q)
    requires forall p :: Judge(o, c, [token] + p) == Judge(x, y, p)
    ensures Clear(x, y, q)
  {
    forall p | Judge(x, y, p).Disagree?
      ensures Apart(p, q)
    {
      assert Judge(o, c, [token] + p).Disagree?;
      assert p <= q ==> [token] + p <= [token] + q;
      assert q <= p ==> [token] + q <= [token] + p;
    }
  }

  lemma {:induction false} ClearEqual(o: Json, c: Json)
    requires Clear(o, c, [])
    ensures o == c
  {
    CompareEmpty(o, c, []);
    var fs := Compare(o, c, []);
    assert fs == [] || fs[0] in fs;
    forall d
      ensures d !in fs
    {
      CompareExact(o, c, [], d);
      assert d.path[0..] == d.path && !Apart(d.path, []);
    }
  }

  lemma {:induction false} JudgeInside(o: Json, c: Json, token: string, x: Json, y: Json)
    requires (o.Obj? && c.Obj?) || (o.Arr? && c.Arr?)
    requires Locate(o, [token]) == Ok(x) && Locate(c, [token]) == Ok(y)
    ensures forall p :: Judge(o, c, [token] + p) == Judge(x, y, p)
  {
    assert [token][1..] == [];
    forall p
      ensures Judge(o, c, [token] + p) == Judge(x, y, p)
    {
      assert ([token] + p)[1..] == p;
    }
  }

  /** Where no disagreement is reported above, at or below a path, it reads alike in both
      documents, errors included. */
  lemma {:induction false} ReadsAlike(o: Json, c: Json, q: seq<string>)
    requires Clear(o, c, q)
    ensures Locate(o, q) == Locate(c, q)
    decreases |q|
  {
    if q == [] {
      ClearEqual(o, c);
    } else {
      var token, rest := q[0], q[1..];
      assert q == [token] + rest && [token][1..] == [];
      assert [] <= q && [token] <= q;
      assert !Judge(o, c, []).Disagree? && !Judge(o, c, [token]).Disagree?;
      if Index(o, token).Ok? && Index(c, token).Ok? {
        var x, y := Child(o, Index(o, token).value), Child(c, Index(c, token).value);
        assert Locate(x, []) == Ok(x) && Locate(y, []) == Ok(y);
        JudgeInside(o, c, token, x, y);
        ClearChild(o, c, token, rest, x, y);
        ReadsAlike(x, y, rest);
      }
    }
  }

  // ---- The program ----

  function Spelled(d: Finding): Difference {
    Difference(PointerOf(d.path), d.kind, d.original, d.current)
  }

  function SpelledAll(fs: seq<Finding>): (ds: seq<Difference>)
    ensures |ds| == |fs| && forall i :: 0 <= i < |fs| ==> ds[i] == Spelled(fs[i])
  {
    seq(|fs|, i requires 0 <= i < |fs| => Spelled(fs[i]))
  }

  lemma {:induction false} SpelledAppend(a: seq<Finding>, b: seq<Finding>)
    ensures SpelledAll(a + b) == SpelledAll(a) + SpelledAll(b)
  {}

  lemma {:induction false} SpelledItems(lengths: seq<Finding>, before: seq<Finding>, here: seq<Finding>)
    ensures SpelledAll(lengths + (before + here)) == SpelledAll(lengths + before) + SpelledAll(here)
  {
    assert lengths + (before + here) == (lengths + before) + here;
    SpelledAppend(lengths + before, here);
  }

  lemma {:induction false} PointerChild(path: seq<string>, token: string)
    ensures PointerOf(path + [token]) == ChildPointer(PointerOf(path), token)
  {
    assert (path + [token])[..|path|] == path;
  }

  method CompareJson(original: Json, current: Json, pointer: string, ghost path: seq<string>)
    returns (differences: seq<Difference>)
    requires pointer == PointerOf(path)
    ensures differences == SpelledAll(Compare(original, current, path))
    decreases original, 1, 0
  {
    if TypeOf(original) != TypeOf(current) {
      return [Difference(pointer, TypeMismatch, original, current)];
    }
    if original.Obj? {
      differences := CompareObjects(original, current, pointer, path);
    } else if original.Arr? {
      differences := CompareArrays(original, current, pointer, path);
    } else if original != current {
      differences := [Difference(pointer, ValueMismatch, original, current)];
    } else {
      differences := [];
    }
  }

  method CompareObjects(original: Json, current: Json, pointer: string, ghost path: seq<string>)
    returns (differences: seq<Difference>)
    requires pointer == PointerOf(path) && original.Obj? && current.Obj?
    ensures differences == SpelledAll(Compare(original, current, path))
    decreases original, 0, 1
  {
    differences := [];
    var keys := SortKeys(original.fields.Keys + current.fields.Keys);
    for i := 0 to |keys|
      invariant differences == SpelledAll(CompareFields(original, current, keys[..i], path))
    {
      ghost var before := CompareFields(original, current, keys[..i], path);
      assert keys[i] in keys;
      var here := CompareKey(original, current, keys[i], pointer, path);
      differences := differences + here;
      SpelledAppend(before, CompareField(original, current, keys[i], path));
      assert keys[..i + 1][..i] == keys[..i];
    }
    assert keys[..|keys|] == keys;
  }

  method CompareKey(original: Json, current: Json, key: string, pointer: string, ghost path: seq<string>)
    returns (differences: seq<Difference>)
    requires pointer == PointerOf(path) && original.Obj? && current.Obj?
    requires key in original.fields || key in current.fields
    ensures differences == SpelledAll(CompareField(original, current, key, path))
    decreases original, 0, 0
  {
    PointerChild(path, key);
    var child := ChildPointer(pointer, key);
    if key !in original.fields {
      differences := [Difference(child, ExtraInCurrent, Null, current.fields[key])];
    } else if key !in current.fields {
      differences := [Difference(child, MissingInCurrent, original.fields[key], Null)];
    } else {
      differences := CompareJson(original.fields[key], current.fields[key], child, path + [key]);
    }
  }

  method CompareArrays(original: Json, current: Json, pointer: string, ghost path: seq<string>)
    returns (differences: seq<Difference>)
    requires pointer == PointerOf(path) && original.Arr? && current.Arr?
    ensures differences == SpelledAll(Compare(original, current, path))
    decreases original, 0, 1
  {
    differences := [];
    if |original.items| != |current.items| {
      differences := [Difference(pointer, ListLengthMismatch, Num(|original.items|), Num(|current.items|))];
    }
    ghost var lengths := Lengths(original, current, path);
    var n := Min(|original.items|, |current.items|);
    for i := 0 to n
      invariant differences == SpelledAll(lengths + CompareItems(original, current, i, path))
    {
      PointerChild(path, Show(i));
      ghost var before := CompareItems(original, current, i, path);
      ghost var here := Compare(original.items[i], current.items[i], path + [Show(i)]);
      var inner := CompareJson(original.items[i], current.items[i], ChildPointer(pointer, Show(i)), path + [Show(i)]);
      differences := differences + inner;
      SpelledItems(lengths, before, here);
    }
  }

  /** A difference that both documents confirm when read at its pointer. */
  ghost predicate Reported(o: Json, c: Json, d: Difference) {
    Tokens(d.pointer).Some? && Confirmed(o, c, Tokens(d.pointer).value, d.kind, d.original, d.current)
  }

  lemma {:induction false} ReportedOf(o: Json, c: Json, d: Finding)
    requires d in Compare(o, c, [])
    ensures Reported(o, c, Spelled(d))
  {
    CompareExact(o, c, [], d);
    assert d.path[0..] == d.path;
    JudgeConfirmed(o, c, d.path);
    TokensOfPointer(d.path);
  }

  lemma {:induction false} ReportedAt(o: Json, c: Json, path: seq<string>)
    requires Judge(o, c, path).Disagree?
    ensures var v := Judge(o, c, path);
            Difference(PointerOf(path), v.kind, v.original, v.current) in SpelledAll(Compare(o, c, []))
  {
    var v := Judge(o, c, path);
    var d := Finding(path, v.kind, v.original, v.current);
    assert d.path[0..] == path;
    CompareExact(o, c, [], d);
    var fs := Compare(o, c, []);
    var i :| 0 <= i < |fs| && fs[i] == d;
    assert SpelledAll(fs)[i] == Spelled(d);
  }

  /** `d` is listed before `e`: its pointer comes earlier in the original document. */
  ghost predicate ListedBefore(o: Json, d: Difference, e: Difference) {
    && d.pointer != e.pointer && Tokens(d.pointer).Some? && Tokens(e.pointer).Some?
    && Earlier(o, Tokens(d.pointer).value, Tokens(e.pointer).value)
  }

  lemma {:induction false} ListedInOrder(o: Json, d: Finding, e: Finding)
    requires Ahead(o, [], d, e)
    ensures ListedBefore(o, Spelled(d), Spelled(e))
  {
    assert d.path[0..] == d.path && e.path[0..] == e.path;
    EarlierDiffers(o, d.path);
    PointersDiffer(d.path, e.path);
    TokensOfPointer(d.path);
    TokensOfPointer(e.path);
  }

  /** The comparison of two documents from the root: empty exactly when they are equal, in document
      order with no pointer twice, every difference confirmed by reading both documents at its
      pointer, and every place where the documents followed in step disagree listed. */
  method CompareDocuments(original: Json, current: Json) returns (differences: seq<Difference>)
    ensures differences == [] <==> original == current
    ensures forall i, j :: 0 <= i < j < |differences| ==> ListedBefore(original, differences[i], differences[j])
    ensures forall i :: 0 <= i < |differences| ==> Reported(original, current, differences[i])
    ensures forall path :: Judge(original, current, path).Disagree? ==>
              var v := Judge(original, current, path);
              Difference(PointerOf(path), v.kind, v.original, v.current) in differences
  {
    differences := CompareJson(original, current, "", []);
    ghost var fs := Compare(original, current, []);
    CompareEmpty(original, current, []);
    CompareOrdered(original, current, []);
    forall i, j | 0 <= i < j < |differences|
      ensures ListedBefore(original, differences[i], differences[j])
    {
      ListedInOrder(original, fs[i], fs[j]);
    }
    forall i | 0 <= i < |differences|
      ensures Reported(original, current, differences[i])
    {
      ReportedOf(original, current, fs[i]);
    }
    forall path | Judge(original, current, path).Disagree?
      ensures var v := Judge(original, current, path);
              Difference(PointerOf(path), v.kind, v.original, v.current) in differences
    {
      ReportedAt(original, current, path);
    }
  }
}
