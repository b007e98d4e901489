/** `names.sort(key=...)`: a stable sort of (name, signal) pairs by code point order. */
module NameSort {
  import opened Bytes
  import opened Utf8
  import opened DesignModel
  import opened Accepted

  type Pair = (Text, int)

  function Insert(x: Pair, sorted: seq<Pair>): seq<Pair> {
    if sorted == [] || LexLess(x.0, sorted[0].0) then [x] + sorted
    else [sorted[0]] + Insert(x, sorted[1..])
  }

  function Sort(pairs: seq<Pair>): seq<Pair> {
    if pairs == [] then [] else Insert(pairs[|pairs| - 1], Sort(pairs[..|pairs| - 1]))
  }

  /** Where `Insert` puts its argument: after everything not greater, before the rest. */
  lemma {:induction false} InsertPoint(x: Pair, sorted: seq<Pair>) returns (k: int)
    ensures 0 <= k <= |sorted| && Insert(x, sorted) == sorted[..k] + [x] + sorted[k..]
    ensures k > 0 ==> !LexLess(x.0, sorted[k - 1].0)
    ensures k < |sorted| ==> LexLess(x.0, sorted[k].0)
  {
    if sorted == [] || LexLess(x.0, sorted[0].0) {
      k := 0;
    } else {
      var j := InsertPoint(x, sorted[1..]);
      k := j + 1;
      assert sorted == [sorted[0]] + sorted[1..];
      assert sorted[..k] == [sorted[0]] + sorted[1..][..j];
    }
  }

  /** Neighbours are in order: no name is below the one before it. */
  predicate InOrder(pairs: seq<Pair>, p: int)
    requires 0 < p < |pairs|
  {
    !LexLess(pairs[p].0, pairs[p - 1].0)
  }

  ghost predicate Ordered(pairs: seq<Pair>) {
    forall p :: 0 < p < |pairs| ==> InOrder(pairs, p)
  }

  lemma {:induction false} InsertOrdered(x: Pair, sorted: seq<Pair>)
    requires Ordered(sorted)
    ensures Ordered(Insert(x, sorted))
  {
    var k := InsertPoint(x, sorted);
    var r := Insert(x, sorted);
    forall p | 0 < p < |r|
      ensures InOrder(r, p)
    {
      if p < k {
        assert InOrder(sorted, p);
      } else if p == k + 1 {
        LexTrichotomy(x.0, sorted[k].0);
      } else if p > k + 1 {
        assert InOrder(sorted, p - 1);
      }
    }
  }

  /** The pairs name distinct signals below `n`, each under its own name. */
  ghost predicate Names(pairs: seq<Pair>, names: seq<Text>) {
    && |pairs| == |names|
    && (forall p :: 0 <= p < |pairs| ==> 0 <= pairs[p].1 < |names| && pairs[p].0 == names[pairs[p].1])
    && Distinct(Signals(pairs))
  }

  function Signals(pairs: seq<Pair>): seq<int> {
    Map((x: Pair) => x.1, pairs)
  }

  lemma {:induction false} InsertDistinct(x: Pair, sorted: seq<Pair>)
    requires Distinct(Signals(sorted)) && forall p :: 0 <= p < |sorted| ==> sorted[p].1 != x.1
    ensures Distinct(Signals(Insert(x, sorted)))
    ensures |Insert(x, sorted)| == |sorted| + 1
    ensures forall y :: y in Insert(x, sorted) ==> y == x || y in sorted
  {
    var k := InsertPoint(x, sorted);
    var r, s := Signals(Insert(x, sorted)), Signals(sorted);
    assert r == s[..k] + [x.1] + s[k..];
  }

  /** The pairs (name, index) a design lists, in signal order. */
  function Pairs(names: seq<Text>): seq<Pair> {
    seq(|names|, i requires 0 <= i < |names| => (names[i], i))
  }

  /** Sorting puts the pairs in order and loses or repeats none. */
  lemma {:induction false} SortNames(names: seq<Text>)
    ensures Ordered(Sort(Pairs(names))) && Names(Sort(Pairs(names)), names)
  {
    if names != [] {
      var n := |names| - 1;
      var init := names[..n];
      SortNames(init);
      assert Pairs(names)[..n] == Pairs(init);
      var before := Sort(Pairs(init));
      var x := (names[n], n);
      InsertOrdered(x, before);
      InsertDistinct(x, before);
      var r := Sort(Pairs(names));
      forall p | 0 <= p < |r|
        ensures 0 <= r[p].1 < |names| && r[p].0 == names[r[p].1]
      {
        assert r[p] in r;
      }
    }
  }

  ghost predicate AllDistinct(names: seq<Text>) {
    forall i, j :: 0 <= i < j < |names| ==> names[i] != names[j]
  }

  /** Names are distinct exactly when the sorted list is strictly increasing. */
  lemma {:induction false} StrictIffDistinct(names: seq<Text>, pairs: seq<Pair>)
    requires Ordered(pairs) && Names(pairs, names)
    ensures AllDistinct(names) <==> forall p :: 0 < p < |pairs| ==> LexLess(pairs[p - 1].0, pairs[p].0)
  {
    if AllDistinct(names) {
      forall p | 0 < p < |pairs|
        ensures LexLess(pairs[p - 1].0, pairs[p].0)
      {
        assert InOrder(pairs, p);
        var s := Signals(pairs);
        assert s[p - 1] != s[p];
        LexTrichotomy(pairs[p - 1].0, pairs[p].0);
      }
    }
    if forall p :: 0 < p < |pairs| ==> LexLess(pairs[p - 1].0, pairs[p].0) {
      var sorted := Map((x: Pair) => x.0, pairs);
      assert Increasing(sorted);
      forall i, j | 0 <= i < j < |names|
        ensures names[i] != names[j]
      {
        var p := Onto(Signals(pairs), i);
        var q := Onto(Signals(pairs), j);
        if p < q {
          LexAscends(sorted, p, q);
        } else {
          LexAscends(sorted, q, p);
        }
        LexTrichotomy(pairs[p].0, pairs[q].0);
      }
    }
  }
}
