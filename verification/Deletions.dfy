/** Deleting a list of pointers one after another, as the ignored fields of an observation are: what
    each pointer means once earlier deletions have moved array elements. */
module Deletions {
  import opened Bytes
  import opened Json
  import opened Numerals
  import opened Pointers
  import opened Ascending

  type Path = seq<string>

  // ---- Removing a set of paths at once ----

  /** What a set of paths says below a token. */
  function Tails(paths: set<Path>, token: string): set<Path> {
    set p | p in paths && p != [] && p[0] == token :: p[1..]
  }

  predicate Stays(paths: set<Path>, i: int) { i >= 0 && [Show(i)] !in paths }

  /** The indices of an array that stay, in order. */
  function Kept(n: nat, paths: set<Path>): (kept: seq<int>)
    ensures Strict(kept) && forall i :: i in kept <==> 0 <= i < n && Stays(paths, i)
  {
    SelectMeans(n, i => Stays(paths, i));
    Select(n, i => Stays(paths, i))
  }

  function KeptAt(n: nat, paths: set<Path>, j: int): (i: int)
    requires 0 <= j < |Kept(n, paths)|
    ensures 0 <= i < n && Stays(paths, i) && i == Kept(n, paths)[j]
  {
    assert Kept(n, paths)[j] in Kept(n, paths);
    Kept(n, paths)[j]
  }

  /** The document without the values at `paths`, all taken out together. */
  function Removed(doc: Json, paths: set<Path>): Json
    decreases doc
  {
    match doc
    case Obj(fields) => Obj(map k | k in fields && [k] !in paths :: Removed(fields[k], Tails(paths, k)))
    case Arr(items) =>
      var n := |Kept(|items|, paths)|;
      Arr(seq(n, j requires 0 <= j < n =>
        Removed(items[KeptAt(|items|, paths, j)], Tails(paths, Show(KeptAt(|items|, paths, j))))))
    case _ => doc
  }

  /** Where the value that `p` leads to in `Removed(doc, paths)` was in `doc`. */
  function Origin(doc: Json, paths: set<Path>, p: Path): Path
    decreases |p|
  {
    if p == [] then []
    else
      match doc
      case Obj(fields) =>
        if p[0] in fields then [p[0]] + Origin(fields[p[0]], Tails(paths, p[0]), p[1..]) else p
      case Arr(items) =>
        if IsIndex(p[0]) && IndexValue(p[0]) < |Kept(|items|, paths)| then
          var i := KeptAt(|items|, paths, IndexValue(p[0]));
          [Show(i)] + Origin(items[i], Tails(paths, Show(i)), p[1..])
        else p
      case _ => p
  }

  // ---- One step down ----

  /** The child of `doc` behind token `t` of the reduced document, its token in `doc`, and that child
      reduced. */
  lemma {:induction false} StepDown(doc: Json, paths: set<Path>, p: Path) returns (t: string, key: Key, at: Key)
    requires p != [] && Index(Removed(doc, paths), p[0]).Ok?
    ensures Index(Removed(doc, paths), p[0]) == Ok(at) && Index(doc, t) == Ok(key) && [t] !in paths
    ensures Child(Removed(doc, paths), at) == Removed(Child(doc, key), Tails(paths, t))
    ensures Origin(doc, paths, p) == [t] + Origin(Child(doc, key), Tails(paths, t), p[1..])
    ensures doc.Obj? ==> t == p[0]
    ensures doc.Arr? ==> IsIndex(p[0]) && IndexValue(p[0]) < |Kept(|doc.items|, paths)|
                         && t == Show(KeptAt(|doc.items|, paths, IndexValue(p[0])))
  {
    at := Index(Removed(doc, paths), p[0]).value;
    if doc.Obj? {
      t, key := p[0], Field(p[0]);
    } else {
      var i := KeptAt(|doc.items|, paths, IndexValue(p[0]));
      IndexShows(i);
      t, key := Show(i), At(i);
    }
  }

  lemma {:induction false} OriginLength(doc: Json, paths: set<Path>, p: Path)
    ensures |Origin(doc, paths, p)| == |p|
    decreases |p|
  {
    if p != [] {
      if doc.Obj? && p[0] in doc.fields {
        OriginLength(doc.fields[p[0]], Tails(paths, p[0]), p[1..]);
      } else if doc.Arr? && IsIndex(p[0]) && IndexValue(p[0]) < |Kept(|doc.items|, paths)| {
        var i := KeptAt(|doc.items|, paths, IndexValue(p[0]));
        OriginLength(doc.items[i], Tails(paths, Show(i)), p[1..]);
      }
    }
  }

  lemma {:induction false} TailsAdd(paths: set<Path>, t: string, rest: Path, u: string)
    ensures Tails(paths + {[t] + rest}, u) == if u == t then Tails(paths, t) + {rest} else Tails(paths, u)
  {
    var more := paths + {[t] + rest};
    assert ([t] + rest)[0] == t && ([t] + rest)[1..] == rest;
    assert [t] + rest in more;
    forall q | q in Tails(paths, u)
      ensures q in Tails(more, u)
    {
      var p :| p in paths && p != [] && p[0] == u && p[1..] == q;
      assert p in more;
    }
  }

  lemma {:induction false} KeptWithout(n: nat, paths: set<Path>, j: int)
    requires 0 <= j < |Kept(n, paths)|
    ensures Kept(n, paths + {[Show(KeptAt(n, paths, j))]}) == Kept(n, paths)[..j] + Kept(n, paths)[j + 1..]
  {
    var kept := Kept(n, paths);
    var more := paths + {[Show(KeptAt(n, paths, j))]};
    var rest := kept[..j] + kept[j + 1..];
    forall i
      ensures i in rest <==> i in kept && i != kept[j]
    {
      RestMembers(kept, j, i);
    }
    forall i | i >= 0
      ensures Stays(more, i) <==> Stays(paths, i) && i != kept[j]
    {
      ShowTokens(i, kept[j]);
    }
    RestStrict(kept, j);
    StrictUnique(Kept(n, more), rest);
  }

  lemma {:induction false} ShowTokens(i: nat, j: nat)
    ensures [Show(i)] == [Show(j)] <==> i == j
  {
    IndexShows(i);
    IndexShows(j);
    assert [Show(i)][0] == Show(i) && [Show(j)][0] == Show(j);
  }

  lemma {:induction false} RestMembers(s: seq<int>, j: int, x: int)
    requires Strict(s) && 0 <= j < |s|
    ensures x in s[..j] + s[j + 1..] <==> x in s && x != s[j]
  {
    if x in s && x != s[j] {
      var i :| 0 <= i < |s| && s[i] == x;
      assert i < j ==> s[..j][i] == x;
      assert i > j ==> s[j + 1..][i - j - 1] == x;
    }
  }

  lemma {:induction false} RestStrict(s: seq<int>, j: int)
    requires Strict(s) && 0 <= j < |s|
    ensures Strict(s[..j] + s[j + 1..])
  {}

  /** Paths of two or more tokens do not change which children stay. */
  lemma {:induction false} KeptDeep(n: nat, paths: set<Path>, deep: Path)
    requires |deep| > 1
    ensures Kept(n, paths + {deep}) == Kept(n, paths)
  {
    var more := paths + {deep};
    forall i | i >= 0
      ensures Stays(more, i) <==> Stays(paths, i)
    {
      assert |[Show(i)]| == 1;
    }
    StrictUnique(Kept(n, more), Kept(n, paths));
  }

  // ---- One deletion ----

  lemma {:induction false} DeleteDown(doc: Json, p: Path)
    requires |p| > 1 && Locate(doc, p).Ok?
    ensures Index(doc, p[0]).Ok?
    ensures var key := Index(doc, p[0]).value;
            && Delete(Child(doc, key), p[1..]).Ok?
            && Delete(doc, p) == Ok(WithChild(doc, key, Delete(Child(doc, key), p[1..]).value))
  {
    var key := Index(doc, p[0]).value;
    ParentLocates(doc, p);
    ParentLocates(Child(doc, key), p[1..]);
    var init := p[..|p| - 1];
    assert init[0] == p[0] && init[1..] == p[1..][..|p| - 2] && p[|p| - 1] == p[1..][|p| - 2];
  }

  lemma {:induction false} DeleteTop(doc: Json, p: Path)
    requires |p| == 1 && Locate(doc, p).Ok?
    ensures Index(doc, p[0]).Ok? && Delete(doc, p) == Ok(Without(doc, Index(doc, p[0]).value))
  {
    assert p[..0] == [];
  }

  lemma {:induction false} RemoveField(fields: map<string, Json>, paths: set<Path>, k: string)
    requires k in fields && [k] !in paths
    ensures Removed(Obj(fields), paths + {[k]}) == Without(Removed(Obj(fields), paths), Field(k))
  {
    var more := paths + {[k]};
    var a, b := Removed(Obj(fields), more).fields, Removed(Obj(fields), paths).fields - {k};
    forall u | u in fields && u != k
      ensures [u] in more <==> [u] in paths
      ensures Tails(more, u) == Tails(paths, u)
    {
      assert [u][0] != [k][0];
      assert [k] + [] == [k];
      TailsAdd(paths, k, [], u);
    }
    assert a.Keys == b.Keys;
    assert a == b;
  }

  lemma {:induction false} SiblingTails(paths: set<Path>, i: nat, m: nat)
    requires i != m
    ensures Tails(paths + {[Show(i)]}, Show(m)) == Tails(paths, Show(m))
  {
    ShowTokens(m, i);
    assert [Show(i)] + [] == [Show(i)];
    TailsAdd(paths, Show(i), [], Show(m));
  }

  /** Item `l` of a reduced array. */
  function ItemOf(items: seq<Json>, paths: set<Path>, l: int): Json
    requires 0 <= l < |Kept(|items|, paths)|
  {
    Removed(items[KeptAt(|items|, paths, l)], Tails(paths, Show(KeptAt(|items|, paths, l))))
  }

  lemma {:induction false} ItemsOf(items: seq<Json>, paths: set<Path>)
    ensures Removed(Arr(items), paths).Arr? && |Removed(Arr(items), paths).items| == |Kept(|items|, paths)|
    ensures forall l :: 0 <= l < |Kept(|items|, paths)| ==> Removed(Arr(items), paths).items[l] == ItemOf(items, paths, l)
  {}

  lemma {:induction false} ItemMoves(items: seq<Json>, paths: set<Path>, j: int, l: int)
    requires 0 <= j < |Kept(|items|, paths)| && 0 <= l < |Kept(|items|, paths)| - 1
    ensures var more := paths + {[Show(KeptAt(|items|, paths, j))]};
            && |Kept(|items|, more)| == |Kept(|items|, paths)| - 1
            && ItemOf(items, more, l) == ItemOf(items, paths, if l < j then l else l + 1)
  {
    var n, m := |items|, if l < j then l else l + 1;
    var i, other := KeptAt(n, paths, j), KeptAt(n, paths, m);
    KeptWithout(n, paths, j);
    assert other != i;
    assert KeptAt(n, paths + {[Show(i)]}, l) == other;
    SiblingTails(paths, i, other);
  }

  lemma {:induction false} RemoveItem(items: seq<Json>, paths: set<Path>, j: int)
    requires 0 <= j < |Kept(|items|, paths)|
    ensures Has(Removed(Arr(items), paths), At(j))
    ensures Removed(Arr(items), paths + {[Show(KeptAt(|items|, paths, j))]}) == Without(Removed(Arr(items), paths), At(j))
  {
    var more := paths + {[Show(KeptAt(|items|, paths, j))]};
    ItemsOf(items, paths);
    ItemsOf(items, more);
    ItemsMove(items, paths, j, Removed(Arr(items), more).items, Removed(Arr(items), paths).items);
  }

  lemma {:induction false} ItemsMove(items: seq<Json>, paths: set<Path>, j: int, a: seq<Json>, b: seq<Json>)
    requires 0 <= j < |Kept(|items|, paths)| == |b|
    requires forall l :: 0 <= l < |b| ==> b[l] == ItemOf(items, paths, l)
    requires |a| == |Kept(|items|, paths + {[Show(KeptAt(|items|, paths, j))]})|
    requires forall l :: 0 <= l < |a| ==> a[l] == ItemOf(items, paths + {[Show(KeptAt(|items|, paths, j))]}, l)
    ensures a == b[..j] + b[j + 1..]
  {
    KeptWithout(|items|, paths, j);
    forall l | 0 <= l < |a|
      ensures a[l] == After(b, j, l)
    {
      ItemMoves(items, paths, j, l);
    }
    Spliced(a, b, j);
  }

  /** Item `l` once item `j` is gone. */
  function After(b: seq<Json>, j: int, l: int): Json
    requires 0 <= j < |b| && 0 <= l < |b| - 1
  {
    if l < j then b[l] else b[l + 1]
  }

  lemma {:induction false} Spliced(a: seq<Json>, b: seq<Json>, j: int)
    requires 0 <= j < |b| && |a| == |b| - 1 && forall l :: 0 <= l < |a| ==> a[l] == After(b, j, l)
    ensures a == b[..j] + b[j + 1..]
  {
    var c := b[..j] + b[j + 1..];
    forall l | 0 <= l < |a|
      ensures a[l] == c[l]
    {
      assert a[l] == After(b, j, l);
    }
  }

  // ---- A deletion deeper down ----

  lemma {:induction false} DeepField(fields: map<string, Json>, paths: set<Path>, k: string, rest: Path)
    requires k in fields && [k] !in paths && rest != []
    ensures Has(Removed(Obj(fields), paths), Field(k))
    ensures Removed(Obj(fields), paths + {[k] + rest}) ==
            WithChild(Removed(Obj(fields), paths), Field(k), Removed(fields[k], Tails(paths, k) + {rest}))
  {
    var more := paths + {[k] + rest};
    forall u | u in fields
      ensures [u] in more <==> [u] in paths
      ensures Tails(more, u) == if u == k then Tails(paths, k) + {rest} else Tails(paths, u)
    {
      assert |[u]| == 1 && |[k] + rest| > 1;
      TailsAdd(paths, k, rest, u);
    }
    var a := Removed(Obj(fields), more).fields;
    var b := Removed(Obj(fields), paths).fields[k := Removed(fields[k], Tails(paths, k) + {rest})];
    assert a.Keys == b.Keys;
    assert a == b;
  }

  lemma {:induction false} DeepItem(items: seq<Json>, paths: set<Path>, j: int, rest: Path)
    requires 0 <= j < |Kept(|items|, paths)| && rest != []
    ensures Has(Removed(Arr(items), paths), At(j))
    ensures var i := KeptAt(|items|, paths, j);
            Removed(Arr(items), paths + {[Show(i)] + rest}) ==
            WithChild(Removed(Arr(items), paths), At(j), Removed(items[i], Tails(paths, Show(i)) + {rest}))
  {
    var n, i := |items|, KeptAt(|items|, paths, j);
    var more := paths + {[Show(i)] + rest};
    KeptDeep(n, paths, [Show(i)] + rest);
    ItemsOf(items, paths);
    ItemsOf(items, more);
    var a, b := Removed(Arr(items), more).items, Removed(Arr(items), paths).items;
    forall l | 0 <= l < |a|
      ensures a[l] == if l == j then Removed(items[i], Tails(paths, Show(i)) + {rest}) else b[l]
    {
      var m := KeptAt(n, paths, l);
      assert KeptAt(n, more, l) == m;
      ShowTokens(m, i);
      TailsAdd(paths, Show(i), rest, Show(m));
    }
    assert a == b[j := Removed(items[i], Tails(paths, Show(i)) + {rest})];
  }

  lemma {:induction false} DeleteOriginTop(doc: Json, paths: set<Path>, p: Path)
    requires |p| == 1 && Locate(Removed(doc, paths), p).Ok?
    ensures Delete(Removed(doc, paths), p) == Ok(Removed(doc, paths + {Origin(doc, paths, p)}))
  {
    var t, key, at := StepDown(doc, paths, p);
    DeleteTop(Removed(doc, paths), p);
    assert Origin(Child(doc, key), Tails(paths, t), p[1..]) == [] && [t] + [] == [t];
    if doc.Obj? {
      RemoveField(doc.fields, paths, t);
    } else {
      RemoveItem(doc.items, paths, IndexValue(p[0]));
    }
  }

  /** A child replaced in the reduced document is a path added below the child. */
  lemma {:induction false} DeepChild(doc: Json, paths: set<Path>, p: Path, rest: Path) returns (t: string, key: Key, at: Key)
    requires p != [] && Index(Removed(doc, paths), p[0]).Ok? && rest != []
    ensures Index(Removed(doc, paths), p[0]) == Ok(at) && Index(doc, t) == Ok(key)
    ensures Child(Removed(doc, paths), at) == Removed(Child(doc, key), Tails(paths, t))
    ensures Origin(doc, paths, p) == [t] + Origin(Child(doc, key), Tails(paths, t), p[1..])
    ensures Removed(doc, paths + {[t] + rest}) ==
            WithChild(Removed(doc, paths), at, Removed(Child(doc, key), Tails(paths, t) + {rest}))
  {
    t, key, at := StepDown(doc, paths, p);
    if doc.Obj? {
      DeepField(doc.fields, paths, t, rest);
    } else {
      var j := IndexValue(p[0]);
      IndexShows(KeptAt(|doc.items|, paths, j));
      DeepItem(doc.items, paths, j, rest);
    }
  }

  /** Deleting `p` from the reduced document takes out of the whole document exactly the value that
      `p` leads to there. */
  lemma {:induction false} DeleteOrigin(doc: Json, paths: set<Path>, p: Path)
    requires p != [] && Locate(Removed(doc, paths), p).Ok?
    ensures Delete(Removed(doc, paths), p) == Ok(Removed(doc, paths + {Origin(doc, paths, p)}))
    decreases |p|
  {
    if |p| == 1 {
      DeleteOriginTop(doc, paths, p);
    } else {
      var t, key, at := StepDown(doc, paths, p);
      var rest := Origin(Child(doc, key), Tails(paths, t), p[1..]);
      OriginLength(Child(doc, key), Tails(paths, t), p[1..]);
      DeleteDown(Removed(doc, paths), p);
      DeleteOrigin(Child(doc, key), Tails(paths, t), p[1..]);
      var t', key', at' := DeepChild(doc, paths, p, rest);
      assert [t'] + rest == Origin(doc, paths, p) by { SameHead(t, t', rest, Origin(Child(doc, key'), Tails(paths, t'), p[1..])); }
    }
  }

  lemma {:induction false} SameHead(t: string, u: string, a: Path, b: Path)
    requires [t] + a == [u] + b
    ensures t == u && a == b
  {
    assert ([t] + a)[0] == t && ([u] + b)[0] == u;
    assert ([t] + a)[1..] == a && ([u] + b)[1..] == b;
  }
}
