/** The ignored fields of an observation, deleted in the order they are listed. */
module Ignored {
  import opened Bytes
  import opened Json
  import opened Numerals
  import opened Pointers
  import opened PointerText
  import opened Ascending
  import opened Deletions

  // ---- What removing a set of paths leaves ----

  ghost predicate AllStay(paths: set<Path>, j: int) {
    forall i :: 0 <= i <= j ==> Stays(paths, i)
  }

  /** An array position keeps its index exactly when nothing up to it is taken out. */
  lemma {:induction false} KeptSame(n: nat, paths: set<Path>, j: int)
    requires 0 <= j < |Kept(n, paths)|
    ensures KeptAt(n, paths, j) == j <==> AllStay(paths, j)
  {
    StrictLow(Kept(n, paths), j);
    StrictSame(Kept(n, paths), j);
    assert KeptAt(n, paths, j) < n;
    forall i | 0 <= i <= j
      ensures i in Kept(n, paths) <==> Stays(paths, i)
    {}
  }

  lemma {:induction false} RemovedNothing(doc: Json)
    ensures Removed(doc, {}) == doc
  {
    match doc
    case Obj(fields) =>
      forall k | k in fields
        ensures Removed(fields[k], Tails({}, k)) == fields[k]
      {
        RemovedNothing(fields[k]);
        assert Tails({}, k) == {};
      }
      assert Removed(doc, {}).fields == fields;
    case Arr(items) =>
      ItemsOf(items, {});
      KeptAll(|items|);
      forall l | 0 <= l < |items|
        ensures ItemOf(items, {}, l) == items[l]
      {
        KeptSame(|items|, {}, l);
        RemovedNothing(items[l]);
        assert Tails({}, Show(l)) == {};
      }
      assert Removed(doc, {}).items == items;
    case _ =>
  }

  lemma {:induction false} KeptAll(n: nat)
    ensures |Kept(n, {})| == n
  {
    var all := seq(n, i => i);
    forall i
      ensures i in all <==> 0 <= i < n
    {
      assert 0 <= i < n ==> all[i] == i;
    }
    assert forall i :: i >= 0 ==> Stays({}, i);
    StrictUnique(Kept(n, {}), all);
  }

  lemma {:induction false} TailMember(paths: set<Path>, t: string, s: Path)
    ensures s in Tails(paths, t) <==> [t] + s in paths
  {
    assert ([t] + s)[0] == t && ([t] + s)[1..] == s;
    if s in Tails(paths, t) {
      var w :| w in paths && w != [] && w[0] == t && w[1..] == s;
      assert w == [t] + s;
    }
  }

  lemma {:induction false} PrefixTail(q: Path, t: string, rest: Path)
    requires q != []
    ensures q <= [t] + rest <==> q[0] == t && q[1..] <= rest
    ensures q[0] == t ==> q == [t] + q[1..]
  {
    var s := [t] + rest;
    assert s[0] == t && s[1..] == rest;
    if q[0] == t && q[1..] <= rest {
      assert q == [t] + q[1..];
    }
  }

  /** What a set of paths says below a path. */
  function Below(paths: set<Path>, o: Path): set<Path> {
    set q | q in paths && o <= q :: q[|o|..]
  }

  lemma {:induction false} BelowStep(paths: set<Path>, t: string, rest: Path)
    ensures Below(paths, [t] + rest) == Below(Tails(paths, t), rest)
  {
    var o := [t] + rest;
    assert o[0] == t && o[1..] == rest;
    forall q | q in paths && o <= q
      ensures q[|o|..] in Below(Tails(paths, t), rest)
    {
      assert q[0] == t && q == [t] + q[1..];
      TailMember(paths, t, q[1..]);
      assert rest <= q[1..] && q[1..][|rest|..] == q[|o|..];
    }
    forall s | s in Tails(paths, t) && rest <= s
      ensures s[|rest|..] in Below(paths, o)
    {
      TailMember(paths, t, s);
      assert o <= [t] + s && ([t] + s)[|o|..] == s[|rest|..];
    }
  }

  lemma {:induction false} BelowTop(paths: set<Path>)
    ensures Below(paths, []) == paths
  {
    forall q | q in paths
      ensures q in Below(paths, [])
    {
      assert [] <= q && q[0..] == q;
    }
  }

  /** A value that is left is one that was there, at or below no removed path; it is the value that was
      there without what the paths remove below it. */
  lemma {:induction false} OriginSurvives(doc: Json, paths: set<Path>, p: Path)
    requires Locate(Removed(doc, paths), p).Ok? && [] !in paths
    ensures Locate(doc, Origin(doc, paths, p)).Ok?
    ensures forall q :: q in paths ==> !(q <= Origin(doc, paths, p))
    ensures Locate(Removed(doc, paths), p) ==
            Ok(Removed(Locate(doc, Origin(doc, paths, p)).value, Below(paths, Origin(doc, paths, p))))
    decreases |p|
  {
    if p != [] {
      var t, key, at := StepDown(doc, paths, p);
      var rest := Origin(Child(doc, key), Tails(paths, t), p[1..]);
      TailMember(paths, t, []);
      assert [t] + [] == [t];
      OriginSurvives(Child(doc, key), Tails(paths, t), p[1..]);
      BelowStep(paths, t, rest);
      assert ([t] + rest)[1..] == rest;
      forall q | q in paths
        ensures !(q <= [t] + rest)
      {
        PrefixTail(q, t, rest);
        TailMember(paths, t, q[1..]);
      }
    } else {
      BelowTop(paths);
      assert forall q :: q in paths ==> q != [];
    }
  }

  /** Where nothing is removed at or below it, the very value that was there is left. */
  lemma {:induction false} ValueLeft(doc: Json, paths: set<Path>, p: Path)
    requires Locate(Removed(doc, paths), p).Ok? && [] !in paths
    requires forall q :: q in paths ==> !(Origin(doc, paths, p) <= q)
    ensures Locate(Removed(doc, paths), p) == Locate(doc, Origin(doc, paths, p))
  {
    OriginSurvives(doc, paths, p);
    assert Below(paths, Origin(doc, paths, p)) == {};
    RemovedNothing(Locate(doc, Origin(doc, paths, p)).value);
  }

  /** Every value at or below no removed path is left. */
  lemma {:induction false} Survivor(doc: Json, paths: set<Path>, q: Path) returns (p: Path)
    requires Locate(doc, q).Ok? && forall s :: s in paths ==> !(s <= q)
    ensures Locate(Removed(doc, paths), p).Ok? && Origin(doc, paths, p) == q
    decreases |q|
  {
    if q == [] {
      p := [];
    } else {
      var t, key := q[0], Index(doc, q[0]).value;
      assert [t] <= q;
      forall s | s in Tails(paths, t)
        ensures !(s <= q[1..])
      {
        TailMember(paths, t, s);
        PrefixTail([t] + s, t, q[1..]);
        assert q == [t] + q[1..] && ([t] + s)[1..] == s;
      }
      var rest := Survivor(Child(doc, key), Tails(paths, t), q[1..]);
      p := SurvivingToken(doc, paths, t, rest);
      assert q == [t] + q[1..];
    }
  }

  lemma {:induction false} SurvivingToken(doc: Json, paths: set<Path>, t: string, rest: Path) returns (p: Path)
    requires Index(doc, t).Ok? && [t] !in paths
    requires Locate(Removed(Child(doc, Index(doc, t).value), Tails(paths, t)), rest).Ok?
    ensures Locate(Removed(doc, paths), p).Ok?
    ensures Origin(doc, paths, p) == [t] + Origin(Child(doc, Index(doc, t).value), Tails(paths, t), rest)
  {
    if doc.Obj? {
      p := [t] + rest;
    } else {
      var i, kept := IndexValue(t), Kept(|doc.items|, paths);
      ShowIndex(t);
      assert Stays(paths, i) && i in kept;
      var j :| 0 <= j < |kept| && kept[j] == i;
      IndexShows(j);
      ItemsOf(doc.items, paths);
      p := [Show(j)] + rest;
    }
    assert p[1..] == rest;
  }

  // ---- When a pointer still means what it meant ----

  /** Deleting `q` changes what `p` leads to: `q` is an element at or before the one `p` passes through
      in the same array. */
  predicate Shifts(doc: Json, q: Path, p: Path)
    decreases |p|
  {
    && q != [] && p != []
    && if |q| == 1 then doc.Arr? && IsIndex(q[0]) && IsIndex(p[0]) && IndexValue(q[0]) <= IndexValue(p[0])
       else q[0] == p[0] && Index(doc, p[0]).Ok? && Shifts(Child(doc, Index(doc, p[0]).value), q[1..], p[1..])
  }

  ghost predicate Steady(doc: Json, paths: set<Path>, p: Path) {
    forall q :: q in paths ==> !Shifts(doc, q, p)
  }

  /** Below a token that keeps its place, a path is steady exactly when its rest is. */
  lemma {:induction false} SteadyBelow(doc: Json, paths: set<Path>, p: Path)
    requires p != [] && Index(doc, p[0]).Ok?
    requires forall q :: q in paths && |q| == 1 ==> !Shifts(doc, q, p)
    ensures Steady(doc, paths, p) <==> Steady(Child(doc, Index(doc, p[0]).value), Tails(paths, p[0]), p[1..])
  {
    var child := Child(doc, Index(doc, p[0]).value);
    if Steady(doc, paths, p) {
      forall s | s in Tails(paths, p[0])
        ensures !Shifts(child, s, p[1..])
      {
        TailMember(paths, p[0], s);
        assert !Shifts(doc, [p[0]] + s, p) && ([p[0]] + s)[1..] == s;
      }
    }
    if Steady(child, Tails(paths, p[0]), p[1..]) {
      forall q | q in paths
        ensures !Shifts(doc, q, p)
      {
        if |q| > 1 && q[0] == p[0] {
          assert q == [p[0]] + q[1..];
          TailMember(paths, p[0], q[1..]);
        }
      }
    }
  }

  /** In an array no single token shifts `p` exactly when its index is kept. */
  lemma {:induction false} SinglesSteady(items: seq<Json>, paths: set<Path>, p: Path)
    requires p != [] && IsIndex(p[0])
    ensures AllStay(paths, IndexValue(p[0])) <==> forall q :: q in paths && |q| == 1 ==> !Shifts(Arr(items), q, p)
  {
    var j := IndexValue(p[0]);
    if AllStay(paths, j) {
      forall q | q in paths && |q| == 1
        ensures !Shifts(Arr(items), q, p)
      {
        if IsIndex(q[0]) {
          ShowIndex(q[0]);
          assert q == [Show(IndexValue(q[0]))];
          assert !Stays(paths, IndexValue(q[0]));
        }
      }
    }
    if forall q :: q in paths && |q| == 1 ==> !Shifts(Arr(items), q, p) {
      forall i | 0 <= i <= j
        ensures Stays(paths, i)
      {
        IndexShows(i);
        assert [Show(i)] in paths ==> Shifts(Arr(items), [Show(i)], p);
      }
    }
  }

  /** A pointer into the reduced document leads to the value it led to in the whole one exactly when no
      removed path shifts it. */
  lemma {:induction false} OriginSame(doc: Json, paths: set<Path>, p: Path)
    requires Locate(Removed(doc, paths), p).Ok?
    ensures Origin(doc, paths, p) == p <==> Steady(doc, paths, p)
    decreases |p|
  {
    if p != [] {
      var t, key, at := StepDown(doc, paths, p);
      var rest := Origin(Child(doc, key), Tails(paths, t), p[1..]);
      assert p == [p[0]] + p[1..];
      assert [t] + rest == p <==> t == p[0] && rest == p[1..] by { SameHeads(t, p[0], rest, p[1..]); }
      if doc.Arr? {
        KeptSame(|doc.items|, paths, IndexValue(p[0]));
        SinglesSteady(doc.items, paths, p);
        ShowIndex(p[0]);
        ShowTokens(KeptAt(|doc.items|, paths, IndexValue(p[0])), IndexValue(p[0]));
      }
      if t == p[0] {
        OriginSame(Child(doc, key), Tails(paths, t), p[1..]);
        SteadyBelow(doc, paths, p);
      }
    }
  }

  lemma {:induction false} SameHeads(t: string, u: string, a: Path, b: Path)
    ensures [t] + a == [u] + b <==> t == u && a == b
  {
    if [t] + a == [u] + b {
      SameHead(t, u, a, b);
    }
  }

  /** A kept element up to which nothing is taken out is at its own index. */
  lemma {:induction false} KeptPlace(n: nat, paths: set<Path>, j: int)
    requires 0 <= j < |Kept(n, paths)| && AllStay(paths, KeptAt(n, paths, j))
    ensures KeptAt(n, paths, j) == j
  {
    var i := KeptAt(n, paths, j);
    StrictLow(Kept(n, paths), j);
    forall l | 0 <= l <= j
      ensures Stays(paths, l)
    {}
    KeptSame(n, paths, j);
  }

  /** A path whose origin nothing shifts is its own origin. */
  lemma {:induction false} SteadyOrigin(doc: Json, paths: set<Path>, p: Path)
    requires Locate(Removed(doc, paths), p).Ok? && Steady(doc, paths, Origin(doc, paths, p))
    ensures Origin(doc, paths, p) == p
    decreases |p|
  {
    if p != [] {
      var t, key, at := StepDown(doc, paths, p);
      var rest := Origin(Child(doc, key), Tails(paths, t), p[1..]);
      var o := [t] + rest;
      assert o[0] == t && o[1..] == rest;
      if doc.Arr? {
        var i := KeptAt(|doc.items|, paths, IndexValue(p[0]));
        IndexShows(i);
        SinglesSteady(doc.items, paths, o);
        KeptPlace(|doc.items|, paths, IndexValue(p[0]));
        ShowIndex(p[0]);
      }
      SteadyBelow(doc, paths, o);
      SteadyOrigin(Child(doc, key), Tails(paths, t), p[1..]);
      assert p == [p[0]] + p[1..];
    }
  }

  ghost predicate Outside(paths: set<Path>, p: Path) {
    forall q :: q in paths ==> !(q <= p)
  }

  /** A pointer nothing shifts leads somewhere in the reduced document exactly when it did in the whole
      one and is not at or below a removed path. */
  lemma {:induction false} SteadyLocates(doc: Json, paths: set<Path>, p: Path)
    requires Steady(doc, paths, p) && [] !in paths
    ensures Locate(Removed(doc, paths), p).Ok? <==> Locate(doc, p).Ok? && Outside(paths, p)
  {
    if Locate(Removed(doc, paths), p).Ok? {
      OriginSame(doc, paths, p);
      OriginSurvives(doc, paths, p);
    }
    if Locate(doc, p).Ok? && Outside(paths, p) {
      var p' := Survivor(doc, paths, p);
      SteadyOrigin(doc, paths, p');
    }
  }

  // ---- Whole runs ----

  function SetOf(ps: seq<Path>): set<Path> { set p | p in ps }

  /** Deletions one after another; the first error ends them. */
  function DeleteAll(doc: Json, ps: seq<Path>): Result<Json> {
    if ps == [] then Ok(doc)
    else
      match DeleteAll(doc, ps[..|ps| - 1])
      case Err(e) => Err(e)
      case Ok(d) => Delete(d, ps[|ps| - 1])
  }

  /** Where in the document at the start each pointer of a run leads when its turn comes. */
  function Origins(doc: Json, ps: seq<Path>): seq<Path> {
    if ps == [] then []
    else
      var before := Origins(doc, ps[..|ps| - 1]);
      before + [Origin(doc, SetOf(before), ps[|ps| - 1])]
  }

  lemma {:induction false} SetOfSnoc(ps: seq<Path>, p: Path)
    ensures SetOf(ps + [p]) == SetOf(ps) + {p}
  {}

  lemma {:induction false} DeleteNeedsValue(doc: Json, p: Path)
    ensures Delete(doc, p).Ok? <==> p != [] && Locate(doc, p).Ok?
  {
    if p != [] {
      ParentLocates(doc, p);
    }
  }

  /** A run that succeeds removes exactly the values its pointers lead to in turn. */
  lemma {:induction false} RunRemoves(doc: Json, ps: seq<Path>)
    requires DeleteAll(doc, ps).Ok?
    ensures DeleteAll(doc, ps) == Ok(Removed(doc, SetOf(Origins(doc, ps))))
  {
    if ps == [] {
      RemovedNothing(doc);
      assert SetOf([]) == {};
    } else {
      var init, p := ps[..|ps| - 1], ps[|ps| - 1];
      RunRemoves(doc, init);
      var before := Origins(doc, init);
      DeleteNeedsValue(Removed(doc, SetOf(before)), p);
      DeleteOrigin(doc, SetOf(before), p);
      SetOfSnoc(before, Origin(doc, SetOf(before), p));
    }
  }

  /** No earlier pointer of the list shifts a later one. */
  ghost predicate Undisturbed(doc: Json, ps: seq<Path>) {
    forall i, j :: 0 <= i < j < |ps| ==> !Shifts(doc, ps[i], ps[j])
  }

  lemma {:induction false} UndisturbedSnoc(doc: Json, init: seq<Path>, p: Path)
    ensures Undisturbed(doc, init + [p]) <==> Undisturbed(doc, init) && Steady(doc, SetOf(init), p)
  {
    var ps := init + [p];
    if Undisturbed(doc, ps) {
      forall i, j | 0 <= i < j < |init|
        ensures !Shifts(doc, init[i], init[j])
      {
        assert !Shifts(doc, ps[i], ps[j]);
      }
      forall q | q in SetOf(init)
        ensures !Shifts(doc, q, p)
      {
        var i :| 0 <= i < |init| && init[i] == q;
        assert !Shifts(doc, ps[i], ps[|init|]);
      }
    }
    if Undisturbed(doc, init) && Steady(doc, SetOf(init), p) {
      forall i, j | 0 <= i < j < |ps|
        ensures !Shifts(doc, ps[i], ps[j])
      {
        if j == |init| {
          assert init[i] in SetOf(init);
        }
      }
    }
  }

  lemma {:induction false} OriginsSnoc(doc: Json, init: seq<Path>, p: Path)
    ensures Origins(doc, init + [p]) == Origins(doc, init) + [Origin(doc, SetOf(Origins(doc, init)), p)]
    ensures |Origins(doc, init)| == |init|
  {
    assert (init + [p])[..|init|] == init;
    OriginsLength(doc, init);
  }

  lemma {:induction false} OriginsLength(doc: Json, ps: seq<Path>)
    ensures |Origins(doc, ps)| == |ps|
  {
    if ps != [] {
      OriginsLength(doc, ps[..|ps| - 1]);
    }
  }

  lemma {:induction false} RunSnoc(doc: Json, init: seq<Path>, p: Path)
    requires DeleteAll(doc, init + [p]).Ok?
    ensures DeleteAll(doc, init).Ok? && Locate(Removed(doc, SetOf(Origins(doc, init))), p).Ok?
  {
    assert (init + [p])[..|init|] == init;
    RunRemoves(doc, init);
    DeleteNeedsValue(Removed(doc, SetOf(Origins(doc, init))), p);
  }

  lemma {:induction false} SnocEqual(a: seq<Path>, x: Path, b: seq<Path>, y: Path)
    ensures a + [x] == b + [y] <==> a == b && x == y
  {
    if a + [x] == b + [y] {
      assert a == (a + [x])[..|a|] && b == (b + [y])[..|b|];
      assert (a + [x])[|a|] == x && (b + [y])[|b|] == y;
    }
  }

  lemma {:induction false} NamedStep(doc: Json, init: seq<Path>, p: Path)
    requires DeleteAll(doc, init + [p]).Ok? && (Origins(doc, init) == init <==> Undisturbed(doc, init))
    ensures Origins(doc, init + [p]) == init + [p] <==> Undisturbed(doc, init + [p])
  {
    var before := Origins(doc, init);
    RunSnoc(doc, init, p);
    OriginsSnoc(doc, init, p);
    UndisturbedSnoc(doc, init, p);
    SnocEqual(before, Origin(doc, SetOf(before), p), init, p);
    if before == init {
      OriginSame(doc, SetOf(init), p);
    }
  }

  lemma {:induction false} OriginsNamed(doc: Json, ps: seq<Path>)
    requires DeleteAll(doc, ps).Ok?
    ensures Origins(doc, ps) == ps <==> Undisturbed(doc, ps)
  {
    if ps != [] {
      var init, p := ps[..|ps| - 1], ps[|ps| - 1];
      assert ps == init + [p];
      OriginsNamed(doc, init);
      NamedStep(doc, init, p);
    }
  }

  /** Every pointer of the list names a value below the root, and none lies at or below an earlier one. */
  ghost predicate Deletable(doc: Json, ps: seq<Path>) {
    forall i :: 0 <= i < |ps| ==> ps[i] != [] && Locate(doc, ps[i]).Ok? && Outside(SetOf(ps[..i]), ps[i])
  }

  lemma {:induction false} DeletableSnoc(doc: Json, init: seq<Path>, p: Path)
    ensures Deletable(doc, init + [p]) <==>
            Deletable(doc, init) && p != [] && Locate(doc, p).Ok? && Outside(SetOf(init), p)
  {
    var ps := init + [p];
    assert ps[|init|] == p && ps[..|init|] == init;
    assert forall i :: 0 <= i < |init| ==> ps[i] == init[i] && ps[..i] == init[..i];
    if Deletable(doc, ps) {
      forall i | 0 <= i < |init|
        ensures init[i] != [] && Locate(doc, init[i]).Ok? && Outside(SetOf(init[..i]), init[i])
      {
        assert ps[i] != [] && Locate(doc, ps[i]).Ok? && Outside(SetOf(ps[..i]), ps[i]);
      }
    }
  }

  lemma {:induction false} DeletableRootless(doc: Json, ps: seq<Path>)
    requires Deletable(doc, ps)
    ensures [] !in SetOf(ps)
  {}

  lemma {:induction false} DeletableStep(doc: Json, init: seq<Path>, p: Path)
    requires Undisturbed(doc, init + [p]) && (DeleteAll(doc, init).Ok? <==> Deletable(doc, init))
    ensures DeleteAll(doc, init + [p]).Ok? <==> Deletable(doc, init + [p])
  {
    assert (init + [p])[..|init|] == init;
    UndisturbedSnoc(doc, init, p);
    DeletableSnoc(doc, init, p);
    if DeleteAll(doc, init).Ok? {
      RunRemoves(doc, init);
      OriginsNamed(doc, init);
      DeletableRootless(doc, init);
      DeleteNeedsValue(Removed(doc, SetOf(init)), p);
      SteadyLocates(doc, SetOf(init), p);
    }
  }

  /** Where nothing is shifted, a run succeeds exactly on a list that is deletable at the start. */
  lemma {:induction false} RunSucceeds(doc: Json, ps: seq<Path>)
    requires Undisturbed(doc, ps)
    ensures DeleteAll(doc, ps).Ok? <==> Deletable(doc, ps)
  {
    if ps != [] {
      var init, p := ps[..|ps| - 1], ps[|ps| - 1];
      assert ps == init + [p];
      UndisturbedSnoc(doc, init, p);
      RunSucceeds(doc, init);
      DeletableStep(doc, init, p);
    }
  }

  /** A run succeeds and removes exactly the values its pointers named at the start if and only if no
      earlier pointer shifts a later one, every pointer names a value below the root, and none lies at
      or below an earlier one: conditions on the document and the list alone. */
  lemma {:induction false} RunRemovesNamed(doc: Json, ps: seq<Path>)
    ensures DeleteAll(doc, ps).Ok? && Origins(doc, ps) == ps <==> Undisturbed(doc, ps) && Deletable(doc, ps)
    ensures Undisturbed(doc, ps) && Deletable(doc, ps) ==> DeleteAll(doc, ps) == Ok(Removed(doc, SetOf(ps)))
  {
    if DeleteAll(doc, ps).Ok? {
      RunRemoves(doc, ps);
      OriginsNamed(doc, ps);
    }
    if Undisturbed(doc, ps) {
      RunSucceeds(doc, ps);
    }
  }

  // ---- The program ----

  function DeletePointer(doc: Json, pointer: string): Result<Json> {
    if Tokens(pointer).None? then Err(NO_SLASH) else Delete(doc, Tokens(pointer).value)
  }

  function DeletePointers(doc: Json, pointers: seq<string>): Result<Json> {
    if pointers == [] then Ok(doc)
    else
      match DeletePointers(doc, pointers[..|pointers| - 1])
      case Err(e) => Err(e)
      case Ok(d) => DeletePointer(d, pointers[|pointers| - 1])
  }

  function PathsOf(pointers: seq<string>): (ps: seq<Path>)
    ensures |ps| == |pointers|
  {
    seq(|pointers|, i requires 0 <= i < |pointers| =>
      if Tokens(pointers[i]).Some? then Tokens(pointers[i]).value else [])
  }

  /** A run over pointers succeeds exactly when the run over their tokens does and all are well formed. */
  lemma {:induction false} PointersArePaths(doc: Json, pointers: seq<string>)
    ensures DeletePointers(doc, pointers).Ok? ==> DeletePointers(doc, pointers) == DeleteAll(doc, PathsOf(pointers))
    ensures DeletePointers(doc, pointers).Ok? <==>
            DeleteAll(doc, PathsOf(pointers)).Ok? && forall i :: 0 <= i < |pointers| ==> Tokens(pointers[i]).Some?
  {
    if pointers != [] {
      var last := |pointers| - 1;
      PointersArePaths(doc, pointers[..last]);
      assert PathsOf(pointers)[..last] == PathsOf(pointers[..last]);
      assert pointers == pointers[..last] + [pointers[last]];
    }
  }

  /** The ignored pointers remove exactly the values they name at the start if and only if all are well
      formed, none shifts a later one, each names a value below the root, and none lies at or below an
      earlier one. */
  lemma {:induction false} IgnoredRemovesNamed(doc: Json, pointers: seq<string>)
    ensures DeletePointers(doc, pointers).Ok? && Origins(doc, PathsOf(pointers)) == PathsOf(pointers) <==>
            && (forall i :: 0 <= i < |pointers| ==> Tokens(pointers[i]).Some?)
            && Undisturbed(doc, PathsOf(pointers)) && Deletable(doc, PathsOf(pointers))
    ensures DeletePointers(doc, pointers).Ok? && Origins(doc, PathsOf(pointers)) == PathsOf(pointers) ==>
              DeletePointers(doc, pointers) == Ok(Removed(doc, SetOf(PathsOf(pointers))))
  {
    PointersArePaths(doc, pointers);
    RunRemovesNamed(doc, PathsOf(pointers));
  }

  /** `pointer_get` and then `pointer_delete`: reading first adds no error of its own. */
  method ReadAndDelete(doc: Json, pointer: string) returns (r: Result<Json>)
    ensures r == DeletePointer(doc, pointer)
  {
    var found := PointerGet(doc, pointer);
    if found.Err? {
      if Tokens(pointer).Some? && Tokens(pointer).value != [] {
        ParentLocates(doc, Tokens(pointer).value);
      }
      return Err(found.error);
    }
    r := PointerDelete(doc, pointer);
  }

  /** The loop over the ignored pointers. */
  method DeleteIgnored(document: Json, pointers: seq<string>) returns (r: Result<Json>)
    ensures r == DeletePointers(document, pointers)
  {
    var current := document;
    for i := 0 to |pointers|
      invariant DeletePointers(document, pointers[..i]) == Ok(current)
    {
      PointersSnoc(document, pointers, i);
      var next := ReadAndDelete(current, pointers[i]);
      if next.Err? {
        PointersStop(document, pointers, i + 1);
        return Err(next.error);
      }
      current := next.value;
    }
    assert pointers[..|pointers|] == pointers;
    return Ok(current);
  }

  lemma {:induction false} PointersSnoc(doc: Json, pointers: seq<string>, i: nat)
    requires i < |pointers| && DeletePointers(doc, pointers[..i]).Ok?
    ensures DeletePointers(doc, pointers[..i + 1]) == DeletePointer(DeletePointers(doc, pointers[..i]).value, pointers[i])
  {
    assert pointers[..i + 1][..i] == pointers[..i];
  }

  lemma {:induction false} PointersStop(doc: Json, pointers: seq<string>, n: nat)
    requires n <= |pointers| && DeletePointers(doc, pointers[..n]).Err?
    ensures DeletePointers(doc, pointers) == DeletePointers(doc, pointers[..n])
    decreases |pointers| - n
  {
    if n < |pointers| {
      assert pointers[..n + 1][..n] == pointers[..n];
      PointersStop(doc, pointers, n + 1);
    } else {
      assert pointers[..n] == pointers;
    }
  }

  // ---- The condition matters ----

  lemma {:induction false} SmallIndices()
    ensures IsIndex("0") && IndexValue("0") == 0 && IsIndex("1") && IndexValue("1") == 1
  {
    assert Show(0) == "0";
    assert Show(1) == "1";
    IndexShows(0);
    IndexShows(1);
  }

  lemma {:induction false} DeleteIndex(items: seq<Json>, token: string)
    requires IsIndex(token) && IndexValue(token) < |items|
    ensures Delete(Arr(items), [token]) == Ok(Arr(items[..IndexValue(token)] + items[IndexValue(token) + 1..]))
  {
    assert [token][1..] == [];
    DeleteTop(Arr(items), [token]);
  }

  lemma {:induction false} DeleteTwo(doc: Json, p: Path, q: Path, middle: Json)
    requires Delete(doc, p) == Ok(middle)
    ensures DeleteAll(doc, [p, q]) == Delete(middle, q)
  {
    assert [p, q][..1] == [p] && [p][..0] == [];
    assert DeleteAll(doc, [p]) == Ok(middle);
  }

  /** Deleting /0 and then /1 of three elements removes the first and the last. */
  lemma {:induction false} ShiftedExample()
    ensures var doc := Arr([Num(0), Num(1), Num(2)]);
            DeleteAll(doc, [["0"], ["1"]]) == Ok(Arr([Num(1)])) && Shifts(doc, ["0"], ["1"])
  {
    var doc := Arr([Num(0), Num(1), Num(2)]);
    SmallIndices();
    DeleteIndex([Num(0), Num(1), Num(2)], "0");
    assert [Num(0), Num(1), Num(2)][..0] + [Num(0), Num(1), Num(2)][1..] == [Num(1), Num(2)];
    DeleteTwo(doc, ["0"], ["1"], Arr([Num(1), Num(2)]));
    DeleteIndex([Num(1), Num(2)], "1");
    assert [Num(1), Num(2)][..1] + [Num(1), Num(2)][2..] == [Num(1)];
  }

  /** Deleting /a and then /a/b fails although nothing is shifted and both lead somewhere at the start. */
  lemma {:induction false} NestedExample()
    ensures var doc, ps := Obj(map["a" := Obj(map["b" := Num(0)])]), [["a"], ["a", "b"]];
            && Undisturbed(doc, ps) && Locate(doc, ps[0]).Ok? && Locate(doc, ps[1]).Ok?
            && DeleteAll(doc, ps) == Err(MISSING)
  {
    var doc, ps := Obj(map["a" := Obj(map["b" := Num(0)])]), [["a"], ["a", "b"]];
    assert ["a"][1..] == [] && ["a", "b"][1..] == ["b"] && ["b"][1..] == [];
    assert Locate(doc, ["a"]) == Ok(doc.fields["a"]) && Locate(doc, ["a", "b"]) == Locate(doc.fields["a"], ["b"]);
    DeleteTop(doc, ["a"]);
    var middle := Obj(doc.fields - {"a"});
    DeleteTwo(doc, ["a"], ["a", "b"], middle);
    assert Locate(middle, ["a", "b"]) == Err(MISSING);
    ParentLocates(middle, ["a", "b"]);
  }
}
