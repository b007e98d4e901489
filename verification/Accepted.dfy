/** What acceptance guarantees about a file, for arbitrary bytes. */
module Accepted {
  import opened Bytes
  import opened DesignModel
  import opened Groups
  import opened Image
  import opened Layout
  import opened BinaryFile

  // ---- Sections ----

  /** Sections of an accepted file do not overlap each other or the header, and lie inside it. */
  lemma {:induction false} SectionsDisjoint(f: seq<Byte>, j: int, k: int)
    requires Shape(f) && 0 <= j < k < SECTION_COUNT
    ensures 176 <= Offset(f, j) <= SectionEnd(f, j) <= Offset(f, k) <= SectionEnd(f, k) <= |f|
    decreases k
  {
    assert PlacedOk(f, k) && SectionFits(f, j) && SectionFits(f, k - 1) && SectionFits(f, k);
    if j < k - 1 {
      SectionsDisjoint(f, j, k - 1);
    }
  }

  // ---- Groups ----

  /** Tables of an acceptable image are grouped by owner. */
  lemma {:induction false} TableGrouped(pool: seq<Byte>, n: int, lowest: int, t: Table)
    requires TableOk(pool, n, lowest, t)
    ensures Grouped(t.starts, n, Map((r: RawRecord) => r.owner, t.records))
  {
    var owners := Map((r: RawRecord) => r.owner, t.records);
    forall s, r | 0 <= s < n && 0 <= r < |owners| && InGroup(t.starts, s, r)
      ensures owners[r] == s
    {
      assert RecordOk(pool, n, lowest, t.records[r], s);
    }
  }

  /** Every record of an acceptable table is well formed and belongs to a signal. */
  lemma {:induction false} TableRecord(pool: seq<Byte>, n: int, lowest: int, t: Table, r: int)
    requires TableOk(pool, n, lowest, t) && 0 <= r < |t.records|
    ensures 0 <= t.records[r].owner < n && InGroup(t.starts, t.records[r].owner, r)
    ensures RecordOk(pool, n, lowest, t.records[r], t.records[r].owner)
  {
    var s := FindGroup(t.starts, n, |t.records|, r, n);
  }

  /** The group of a signal in an acceptable table: a slice of well-formed records. */
  lemma {:induction false} TableGroup(pool: seq<Byte>, n: int, lowest: int, t: Table, s: int)
    requires TableOk(pool, n, lowest, t) && 0 <= s < n
    ensures 0 <= t.starts[s] <= t.starts[s + 1] <= |t.records|
    ensures GroupOf(t.starts, t.records, s) == t.records[t.starts[s]..t.starts[s + 1]]
    ensures forall r :: t.starts[s] <= r < t.starts[s + 1] ==> RecordOk(pool, n, lowest, t.records[r], s)
  {
    assert StepOk(t.starts, s, |t.records|);
    assert forall r :: t.starts[s] <= r < t.starts[s + 1] ==> InGroup(t.starts, s, r);
  }

  lemma {:induction false} AcceptedTable(m: Image, k: int)
    requires ImageOk(m) && IsGroup(k)
    ensures TableOk(m.pool, |m.signals|, LowestOther(k), TableOf(m, k))
  {}

  /** The groups of signals 0, 1, ... in turn are the record section; each record sits in
      its own owner's group; and `starts[s]` counts the records owned below `s`. */
  lemma {:induction false} GroupPartition(f: seq<Byte>, k: int)
    requires Accepts(f) && IsGroup(k)
    ensures Concatenated(StartsIn(f, k), RecordsIn(f, k), N(f)) == RecordsIn(f, k)
    ensures forall r :: 0 <= r < Count(f, k) ==>
              var s := RecordsIn(f, k)[r].owner; 0 <= s < N(f) && InGroup(StartsIn(f, k), s, r)
    ensures forall s :: 0 <= s <= N(f) ==>
              StartsIn(f, k)[s] == OwnedBelow(Map((r: RawRecord) => r.owner, RecordsIn(f, k)), s)
  {
    var m := Parse(f);
    AcceptedTable(m, k);
    var t := TableOf(m, k);
    var n := |m.signals|;
    ConcatenatedIsPrefix(t.starts, t.records, n, n);
    forall r | 0 <= r < |t.records|
      ensures 0 <= t.records[r].owner < n && InGroup(t.starts, t.records[r].owner, r)
    {
      TableRecord(m.pool, n, LowestOther(k), t, r);
    }
    TableGrouped(m.pool, n, LowestOther(k), t);
    forall s | 0 <= s <= n
      ensures t.starts[s] == OwnedBelow(Map((r: RawRecord) => r.owner, t.records), s)
    {
      StartCountsOwners(t.starts, n, Map((r: RawRecord) => r.owner, t.records), s);
    }
  }

  lemma {:induction false} FileTable(f: seq<Byte>, k: int)
    requires Accepts(f) && IsGroup(k)
    ensures |StartsIn(f, k)| == N(f) + 1 && Count(f, k) <= INT32_MAX
    ensures TableOk(Pool(f), N(f), LowestOther(k), TableIn(f, k))
    ensures TableOf(Parse(f), k) == TableIn(f, k)
    ensures forall r :: 0 <= r < Count(f, k) ==> |RecordsIn(f, k)[r].texts| == TextCount(k)
  {
    AcceptedTable(Parse(f), k);
  }

  // ---- Name index ----

  /** The names of an acceptable index, in order. */
  ghost function IndexNames(n: int, es: seq<Entry>): (names: seq<Str>)
    requires NamesOk(n, es)
    ensures |names| == n && forall p :: 0 <= p < n ==> es[p].name == Some(names[p])
    ensures Increasing(names)
  {
    assert forall p :: 0 <= p < n ==> EntryOk(n, es[p], Prior(es, p));
    seq(n, p requires 0 <= p < n => es[p].name.value)
  }

  ghost predicate Distinct(s: seq<int>) {
    forall i, j :: 0 <= i < j < |s| ==> s[i] != s[j]
  }

  /** Pigeonhole: distinct values below a bound are no more than the bound. */
  lemma {:induction false} DistinctBounded(s: seq<int>, n: nat)
    requires Distinct(s) && forall i :: 0 <= i < |s| ==> 0 <= s[i] < n
    ensures |s| <= n
    decreases n
  {
    if s != [] {
      assert 0 <= s[0] < n;
      if k :| 0 <= k < |s| && s[k] == n - 1 {
        DistinctBounded(s[..k] + s[k + 1..], n - 1);
      } else {
        DistinctBounded(s, n - 1);
      }
    }
  }

  lemma {:induction false} Onto(s: seq<int>, v: int) returns (k: int)
    requires Distinct(s) && (forall i :: 0 <= i < |s| ==> 0 <= s[i] < |s|) && 0 <= v < |s|
    ensures 0 <= k < |s| && s[k] == v
  {
    if k' :| 0 <= k' < |s| && s[k'] == v {
      k := k';
    } else {
      DistinctBounded(s + [v], |s|);
      assert false;
    }
  }

  /** Entry `p` of the name index stands for signal `i`. */
  predicate Indexes(es: seq<Entry>, p: int, i: int) {
    0 <= p < |es| && es[p].signal == i
  }

  ghost predicate Listed(es: seq<Entry>, i: int) {
    exists p :: Indexes(es, p, i)
  }

  /** An acceptable name index lists every signal exactly once, under strictly increasing names. */
  lemma {:induction false} IndexPermutation(n: int, es: seq<Entry>)
    requires NamesOk(n, es)
    ensures forall p, q :: 0 <= p < q < n ==> LexLess(IndexNames(n, es)[p], IndexNames(n, es)[q])
    ensures forall i :: 0 <= i < n ==> Listed(es, i)
    ensures forall p, q, i :: Indexes(es, p, i) && Indexes(es, q, i) ==> p == q
  {
    var names := IndexNames(n, es);
    forall p, q | 0 <= p < q < n
      ensures LexLess(names[p], names[q])
    {
      LexAscends(names, p, q);
    }
    var targets := Map((e: Entry) => e.signal, es);
    forall p | 0 <= p < n
      ensures 0 <= targets[p] < n
    {
      assert EntryOk(n, es[p], Prior(es, p));
    }
    forall i | 0 <= i < n
      ensures Listed(es, i)
    {
      var p := Onto(targets, i);
      assert Indexes(es, p, i);
    }
  }

  /** The name index of a file, strings looked up. */
  ghost function IndexIn(f: seq<Byte>): (es: seq<Entry>)
    requires Shape(f)
    ensures |es| == N(f)
  {
    Entries(Pool(f), NamesIn(f))
  }

  lemma {:induction false} AcceptedIndex(f: seq<Byte>)
    requires Accepts(f)
    ensures NamesOk(N(f), IndexIn(f))
  {}

  /** No string reachable from a valid index is missing. */
  lemma {:induction false} StringsPresent(f: seq<Byte>, i: int)
    requires Accepts(f) && 0 <= i < N(f)
    ensures SignalOk(Pool(f), SignalAt(f, i))
    ensures Denotes(Parse(f))[i].name == PoolString(Pool(f), SignalAt(f, i).name).value
    ensures Denotes(Parse(f))[i].kind == PoolString(Pool(f), SignalAt(f, i).kind).value
    ensures Denotes(Parse(f))[i].file == PoolString(Pool(f), SignalAt(f, i).file).value
    ensures Denotes(Parse(f))[i].width == SignalAt(f, i).width
    ensures Denotes(Parse(f))[i].line == SignalAt(f, i).line
    ensures Denotes(Parse(f))[i].direction == SignalAt(f, i).direction
  {
    var m := Parse(f);
    assert m.signals[i] == SignalAt(f, i);
    assert SignalOk(m.pool, m.signals[i]);
    assert Denotes(m)[i] == SignalOf(m, i);
  }
}
