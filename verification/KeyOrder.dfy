/** Object keys in code point order, as Python's `sorted` lists them. */
module KeyOrder {
  import opened Bytes
  import opened Picking

  function Codes(s: string): (c: seq<int>)
    ensures |c| == |s| && forall i :: 0 <= i < |s| ==> c[i] == s[i] as int
  {
    seq(|s|, i requires 0 <= i < |s| => s[i] as int)
  }

  predicate KeyLess(a: string, b: string) { LexLess(Codes(a), Codes(b)) }

  lemma {:induction false} KeyTrichotomy(a: string, b: string)
    ensures a == b ==> !KeyLess(a, b)
    ensures a != b ==> KeyLess(a, b) != KeyLess(b, a)
  {
    LexTrichotomy(Codes(a), Codes(b));
    if Codes(a) == Codes(b) {
      forall i | 0 <= i < |a|
        ensures a[i] == b[i]
      {
        assert Codes(a)[i] == Codes(b)[i];
      }
      assert a == b;
    }
  }

  lemma {:induction false} KeyTransitive(a: string, b: string, c: string)
    requires KeyLess(a, b) && KeyLess(b, c)
    ensures KeyLess(a, c)
  {
    LexTransitive(Codes(a), Codes(b), Codes(c));
  }

  ghost predicate Ordered(ks: seq<string>) {
    forall i, j :: 0 <= i < j < |ks| ==> KeyLess(ks[i], ks[j])
  }

  /** `ks` lists the members of `s`, each once, in order. */
  ghost predicate Lists(ks: seq<string>, s: set<string>) {
    Ordered(ks) && forall k :: k in ks <==> k in s
  }

  function InsertKey(k: string, ks: seq<string>): (r: seq<string>)
    ensures forall x :: x in r <==> x == k || x in ks
  {
    if ks == [] then [k]
    else if KeyLess(k, ks[0]) then [k] + ks
    else
      assert ks == [ks[0]] + ks[1..];
      [ks[0]] + InsertKey(k, ks[1..])
  }

  lemma {:induction false} InsertOrdered(k: string, ks: seq<string>)
    requires Ordered(ks) && k !in ks
    ensures Ordered(InsertKey(k, ks))
  {
    if ks != [] {
      KeyTrichotomy(k, ks[0]);
      if KeyLess(k, ks[0]) {
        forall j | 0 < j < |ks|
          ensures KeyLess(k, ks[j])
        {
          KeyTransitive(k, ks[0], ks[j]);
        }
      } else {
        InsertOrdered(k, ks[1..]);
        var r := InsertKey(k, ks[1..]);
        forall j | 0 <= j < |r|
          ensures KeyLess(ks[0], r[j])
        {
          assert r[j] in r;
        }
      }
    }
  }

  /** A strictly ordered list is determined by its members. */
  lemma {:induction false} ListsUnique(a: seq<string>, b: seq<string>, s: set<string>)
    requires Lists(a, s) && Lists(b, s)
    ensures a == b
    decreases |a|
  {
    assert a != [] ==> a[0] in a;
    assert b != [] ==> b[0] in b;
    if a != [] && b != [] {
      SameFirst(a, b, s);
      var rest := s - {a[0]};
      RestLists(a, s);
      RestLists(b, s);
      ListsUnique(a[1..], b[1..], rest);
      assert a == [a[0]] + a[1..] && b == [b[0]] + b[1..];
    }
  }

  lemma {:induction false} SameFirst(a: seq<string>, b: seq<string>, s: set<string>)
    requires Lists(a, s) && Lists(b, s) && a != [] && b != []
    ensures a[0] == b[0]
  {
    assert a[0] in a && b[0] in b;
    var i :| 0 <= i < |b| && b[i] == a[0];
    var j :| 0 <= j < |a| && a[j] == b[0];
    KeyTrichotomy(a[0], b[0]);
  }

  lemma {:induction false} RestLists(a: seq<string>, s: set<string>)
    requires Lists(a, s) && a != []
    ensures Lists(a[1..], s - {a[0]})
  {
    forall k
      ensures k in a[1..] <==> k in s - {a[0]}
    {
      if k in a[1..] {
        var i :| 0 <= i < |a| - 1 && a[1..][i] == k;
        KeyTrichotomy(a[0], a[i + 1]);
        assert k in a;
      }
      if k in s && k != a[0] {
        assert k in a;
        var i :| 0 <= i < |a| && a[i] == k;
        assert a[1..][i - 1] == k;
      }
    }
  }

  lemma {:induction false} Sortable(s: set<string>)
    ensures exists ks :: Lists(ks, s)
    decreases |s|
  {
    EmptyOrNot(s);
    if s == {} {
      assert Lists([], s);
    } else {
      var k :| k in s;
      Sortable(s - {k});
      var ks :| Lists(ks, s - {k});
      InsertOrdered(k, ks);
      assert Lists(InsertKey(k, ks), s);
    }
  }

  ghost function SortedKeys(s: set<string>): (ks: seq<string>)
    ensures Lists(ks, s)
  {
    Sortable(s);
    var ks :| Lists(ks, s);
    ks
  }

  /** `sorted(s)`. */
  method SortKeys(s: set<string>) returns (ks: seq<string>)
    ensures ks == SortedKeys(s)
  {
    ks := [];
    var todo := s;
    while todo != {}
      invariant todo <= s && Lists(ks, s - todo)
      decreases |todo|
    {
      var k := Pick(todo);
      InsertOrdered(k, ks);
      ks := InsertKey(k, ks);
      assert s - (todo - {k}) == (s - todo) + {k};
      todo := todo - {k};
    }
    assert s - todo == s;
    ListsUnique(ks, SortedKeys(s), s);
  }
}
