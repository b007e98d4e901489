/** Records grouped per signal by a "starts" array: signal `s` owns the records
    `starts[s] .. starts[s + 1]`. */
module Groups {

  predicate StepOk(starts: seq<int>, s: int, total: int)
    requires 0 <= s < |starts| - 1
  {
    0 <= starts[s] <= starts[s + 1] <= total
  }

  /** What `validate_starts` demands of `n + 1` entries over `total` records. */
  ghost predicate StartsOk(starts: seq<int>, n: int, total: int) {
    && 0 <= n && |starts| == n + 1
    && starts[0] == 0 && starts[n] == total
    && forall s :: 0 <= s < n ==> StepOk(starts, s, total)
  }

  predicate InGroup(starts: seq<int>, s: int, r: int)
    requires 0 <= s < |starts| - 1
  {
    starts[s] <= r < starts[s + 1]
  }

  lemma {:induction false} StartsMonotone(starts: seq<int>, n: int, total: int, s: int, t: int)
    requires StartsOk(starts, n, total) && 0 <= s <= t <= n
    ensures 0 <= starts[s] <= starts[t] <= total
    decreases t - s
  {
    if s < t {
      assert StepOk(starts, s, total);
      StartsMonotone(starts, n, total, s + 1, t);
    } else {
      assert s > 0 ==> StepOk(starts, s - 1, total);
      assert s < n ==> StepOk(starts, s, total);
    }
  }

  /** Every record before the start of `below` lies in a group before it. */
  lemma {:induction false} FindGroup(starts: seq<int>, n: int, total: int, r: int, below: int) returns (s: int)
    requires StartsOk(starts, n, total) && 0 <= below <= n && 0 <= r < starts[below]
    ensures 0 <= s < below && InGroup(starts, s, r)
  {
    assert StepOk(starts, below - 1, total);
    if starts[below - 1] <= r {
      s := below - 1;
    } else {
      s := FindGroup(starts, n, total, r, below - 1);
    }
  }

  /** No record lies in two groups. */
  lemma {:induction false} GroupUnique(starts: seq<int>, n: int, total: int, r: int, s: int, t: int)
    requires StartsOk(starts, n, total)
    requires 0 <= s < n && 0 <= t < n && InGroup(starts, s, r) && InGroup(starts, t, r)
    ensures s == t
  {
    if s < t {
      StartsMonotone(starts, n, total, s + 1, t);
    } else if t < s {
      StartsMonotone(starts, n, total, t + 1, s);
    }
  }

  /** The records of signal `s`, in order. */
  function GroupOf<T>(starts: seq<int>, records: seq<T>, s: int): seq<T> {
    if 0 <= s < |starts| - 1 && StepOk(starts, s, |records|) then records[starts[s]..starts[s + 1]] else []
  }

  /** The groups of the first `n` signals, one after another. */
  ghost function Concatenated<T>(starts: seq<int>, records: seq<T>, n: nat): seq<T> {
    if n == 0 then [] else Concatenated(starts, records, n - 1) + GroupOf(starts, records, n - 1)
  }

  lemma {:induction false} PrefixGrows<T>(records: seq<T>, a: int, b: int)
    requires 0 <= a <= b <= |records|
    ensures records[..a] + records[a..b] == records[..b]
  {}

  lemma {:induction false} ConcatenatedIsPrefix<T>(starts: seq<int>, records: seq<T>, n: nat, m: nat)
    requires StartsOk(starts, n, |records|) && m <= n
    ensures 0 <= starts[m] <= |records| && Concatenated(starts, records, m) == records[..starts[m]]
  {
    if m > 0 {
      ConcatenatedIsPrefix(starts, records, n, m - 1);
      assert StepOk(starts, m - 1, |records|);
      PrefixGrows(records, starts[m - 1], starts[m]);
    } else {
      StartsMonotone(starts, n, |records|, 0, n);
    }
  }

  /** The number of records among the first `m` whose owner is below `s`. */
  ghost function OwnedBelow(owners: seq<int>, s: int): nat {
    if owners == [] then 0
    else OwnedBelow(owners[..|owners| - 1], s) + if owners[|owners| - 1] < s then 1 else 0
  }

  lemma {:induction false} OwnedBelowSplit(owners: seq<int>, s: int, cut: int)
    requires 0 <= cut <= |owners|
    requires forall r :: 0 <= r < cut ==> owners[r] < s
    requires forall r :: cut <= r < |owners| ==> owners[r] >= s
    ensures OwnedBelow(owners, s) == cut
  {
    if owners != [] {
      var init := owners[..|owners| - 1];
      OwnedBelowSplit(init, s, if cut < |owners| then cut else cut - 1);
    }
  }

  /** Each record sits in the group of its own owner. */
  ghost predicate Grouped(starts: seq<int>, n: int, owners: seq<int>) {
    && StartsOk(starts, n, |owners|)
    && forall s, r :: 0 <= s < n && 0 <= r < |owners| && InGroup(starts, s, r) ==> owners[r] == s
  }

  /** In a grouped table the starts array counts owners. */
  lemma {:induction false} StartCountsOwners(starts: seq<int>, n: int, owners: seq<int>, s: int)
    requires Grouped(starts, n, owners) && 0 <= s <= n
    ensures starts[s] == OwnedBelow(owners, s)
  {
    StartsMonotone(starts, n, |owners|, s, n);
    forall r | 0 <= r < |owners|
      ensures if r < starts[s] then owners[r] < s else owners[r] >= s
    {
      var t := FindGroup(starts, n, |owners|, r, n);
      assert owners[r] == t;
      if r < starts[s] {
        var u := FindGroup(starts, n, |owners|, r, s);
        GroupUnique(starts, n, |owners|, r, t, u);
      } else if t < s {
        StartsMonotone(starts, n, |owners|, t + 1, s);
      }
    }
    OwnedBelowSplit(owners, s, starts[s]);
  }
}
