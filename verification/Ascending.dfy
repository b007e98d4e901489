/** Strictly ascending lists of integers: filtering a range, sorting and removing duplicates. */
module Ascending {

  ghost predicate Strict(s: seq<int>) {
    forall i, j :: 0 <= i < j < |s| ==> s[i] < s[j]
  }

  /** The numbers below `n` that pass a test, in order: a linear scan. */
  function Select(n: nat, test: int -> bool): seq<int> {
    if n == 0 then [] else Select(n - 1, test) + if test(n - 1) then [n - 1] else []
  }

  lemma {:induction false} SelectMeans(n: nat, test: int -> bool)
    ensures Strict(Select(n, test))
    ensures forall i :: i in Select(n, test) <==> 0 <= i < n && test(i)
  {
    if n > 0 {
      SelectMeans(n - 1, test);
      var s := Select(n - 1, test);
      forall k | 0 <= k < |s|
        ensures s[k] < n - 1
      {
        assert s[k] in s;
      }
    }
  }

  /** A strictly ascending list is determined by its members. */
  lemma {:induction false} StrictUnique(s: seq<int>, t: seq<int>)
    requires Strict(s) && Strict(t) && forall x :: x in s <==> x in t
    ensures s == t
  {
    assert (s == [] || s[0] in s) && (t == [] || t[0] in t);
    if s != [] && t != [] {
      var k :| 0 <= k < |t| && t[k] == s[0];
      var j :| 0 <= j < |s| && s[j] == t[0];
      assert s[0] == t[0];
      forall x
        ensures x in s[1..] <==> x in t[1..]
      {
        assert x in s <==> x == s[0] || x in s[1..];
        assert x in t <==> x == t[0] || x in t[1..];
      }
      StrictUnique(s[1..], t[1..]);
    }
  }

  ghost predicate Naturals(s: seq<int>) {
    forall x :: x in s ==> x >= 0
  }

  lemma {:induction false} StrictLow(s: seq<int>, j: int)
    requires Strict(s) && Naturals(s) && 0 <= j < |s|
    ensures j <= s[j]
  {
    if j > 0 {
      StrictLow(s, j - 1);
    } else {
      assert s[0] in s;
    }
  }

  /** A strictly ascending list holds `j` at place `j` exactly when it lacks nothing up to `j`. */
  lemma {:induction false} StrictSame(s: seq<int>, j: int)
    requires Strict(s) && Naturals(s) && 0 <= j < |s|
    ensures s[j] == j <==> forall i :: 0 <= i <= j ==> i in s
  {
    StrictLow(s, j);
    if j > 0 {
      StrictLow(s, j - 1);
      StrictSame(s, j - 1);
    }
    if forall i :: 0 <= i <= j ==> i in s {
      assert j in s;
      var m :| 0 <= m < |s| && s[m] == j;
    }
    if s[j] == j {
      assert s[j] in s;
    }
  }

  // ---- `std::sort` and `std::unique` ----

  ghost predicate Sorted(s: seq<int>) {
    forall i, j :: 0 <= i < j < |s| ==> s[i] <= s[j]
  }

  function Insert(x: int, s: seq<int>): (r: seq<int>)
    ensures multiset(r) == multiset(s) + multiset{x}
  {
    if s == [] then [x]
    else if x <= s[0] then [x] + s
    else
      assert s == [s[0]] + s[1..];
      [s[0]] + Insert(x, s[1..])
  }

  function Sort(s: seq<int>): (r: seq<int>)
    ensures multiset(r) == multiset(s)
  {
    if s == [] then []
    else
      assert s == [s[0]] + s[1..];
      Insert(s[0], Sort(s[1..]))
  }

  /** Keeps the first of every run of equal neighbours. */
  function Unique(s: seq<int>): (r: seq<int>)
    ensures forall x :: x in r <==> x in s
  {
    if |s| < 2 then s
    else
      assert s == [s[0]] + s[1..];
      if s[0] == s[1] then Unique(s[1..]) else [s[0]] + Unique(s[1..])
  }

  lemma {:induction false} InsertSorted(x: int, s: seq<int>)
    requires Sorted(s)
    ensures Sorted(Insert(x, s))
  {
    if s != [] && x > s[0] {
      InsertSorted(x, s[1..]);
      var r := Insert(x, s[1..]);
      forall k | 0 <= k < |r|
        ensures s[0] <= r[k]
      {
        assert r[k] in multiset(r);
      }
    }
  }

  lemma {:induction false} SortSorted(s: seq<int>)
    ensures Sorted(Sort(s))
  {
    if s != [] {
      SortSorted(s[1..]);
      InsertSorted(s[0], Sort(s[1..]));
    }
  }

  lemma {:induction false} UniqueStrict(s: seq<int>)
    requires Sorted(s)
    ensures Strict(Unique(s))
  {
    if |s| >= 2 {
      UniqueStrict(s[1..]);
      if s[0] != s[1] {
        var r := Unique(s[1..]);
        forall k | 0 <= k < |r|
          ensures s[0] < r[k]
        {
          assert r[k] in s[1..];
        }
      }
    }
  }

  /** Sorting and removing duplicates keeps the members and orders them strictly. */
  lemma {:induction false} SortUnique(s: seq<int>)
    ensures Strict(Unique(Sort(s)))
    ensures forall x :: x in Unique(Sort(s)) <==> x in s
  {
    SortSorted(s);
    UniqueStrict(Sort(s));
    forall x
      ensures x in Sort(s) <==> x in s
    {
      assert x in multiset(Sort(s)) <==> x in multiset(s);
    }
  }
}
