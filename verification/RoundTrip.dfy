/** What the converter writes is what the reader reads: the image of a design is
    acceptable exactly when the design is, and denotes that design. */
module RoundTrip {
  import opened Bytes
  import opened Utf8
  import opened DesignModel
  import opened Groups
  import opened Layout
  import opened Image
  import opened StringPool
  import opened WriterImage
  import NameSort

  // ---- Designs ----

  ghost predicate ReportedEdges(es: seq<Edge<Text>>, k: int)
    requires IsGroup(k)
  {
    && |es| <= INT32_MAX
    && forall i :: 0 <= i < |es| ==>
         && IsInt32(es[i].other) && IsInt32(es[i].line) && (HasLine(k) || es[i].line == 0)
         && |es[i].texts| == TextCount(k)
         && forall t :: t in es[i].texts ==> NulFree(t)
  }

  ghost predicate ReportedSignal(s: Signal<Text>) {
    && NulFree(s.name) && NulFree(s.kind) && NulFree(s.file)
    && IsInt32(s.width) && IsInt32(s.line) && IsInt32(s.direction)
    && ReportedEdges(s.drivers, DRIVERS) && ReportedEdges(s.loads, LOADS) && ReportedEdges(s.ports, PORTS)
  }

  /** What the XDD C interface can report: C ints and C strings. */
  ghost predicate Reported(d: Design) {
    |d| <= INT32_MAX && forall i :: 0 <= i < |d| ==> ReportedSignal(d[i])
  }

  ghost predicate EdgesInRange(d: Design, k: int)
    requires IsGroup(k)
  {
    forall s, j :: 0 <= s < |d| && 0 <= j < |EdgesFor(d[s], k)| ==>
      LowestOther(k) <= EdgesFor(d[s], k)[j].other < |d|
  }

  /** The other ends of edges lie between `lowest` and the number of signals. */
  ghost predicate Within(es: seq<Edge<Text>>, lowest: int, n: int) {
    forall j :: 0 <= j < |es| ==> lowest <= es[j].other < n
  }

  /** What a design must satisfy beyond that for its file to be accepted: a driver may have no source
      signal, which is written -1; a load and a port always have another end. */
  ghost predicate Acceptable(d: Design) {
    && NameSort.AllDistinct(NameTexts(d))
    && (forall i :: 0 <= i < |d| ==> 0 <= d[i].direction <= 3)
    && (forall i :: 0 <= i < |d| ==> Within(d[i].drivers, -1, |d|) && Within(d[i].loads, 0, |d|) && Within(d[i].ports, 0, |d|))
    && Total(d, DRIVERS) <= 2147483647 && Total(d, LOADS) <= 2147483647 && Total(d, PORTS) <= 2147483647
  }

  lemma {:induction false} RangesMean(d: Design)
    ensures (forall i :: 0 <= i < |d| ==> Within(d[i].drivers, -1, |d|) && Within(d[i].loads, 0, |d|) && Within(d[i].ports, 0, |d|))
            <==> EdgesInRange(d, DRIVERS) && EdgesInRange(d, LOADS) && EdgesInRange(d, PORTS)
  {
    if EdgesInRange(d, DRIVERS) && EdgesInRange(d, LOADS) && EdgesInRange(d, PORTS) {
      forall i | 0 <= i < |d|
        ensures Within(d[i].drivers, -1, |d|) && Within(d[i].loads, 0, |d|) && Within(d[i].ports, 0, |d|)
      {
        assert EdgesFor(d[i], DRIVERS) == d[i].drivers && EdgesFor(d[i], LOADS) == d[i].loads && EdgesFor(d[i], PORTS) == d[i].ports;
      }
    }
  }

  /** The same signal with driver `j` left without a source. */
  function Sourceless(s: Signal<Text>, j: int): Signal<Text>
    requires 0 <= j < |s.drivers|
  {
    s.(drivers := s.drivers[j := s.drivers[j].(other := -1)])
  }

  lemma {:induction false} SameTotals(d: Design, e: Design, k: int)
    requires IsGroup(k) && |d| == |e| && forall i :: 0 <= i < |d| ==> |EdgesFor(d[i], k)| == |EdgesFor(e[i], k)|
    ensures Total(d, k) == Total(e, k)
  {
    if d != [] {
      SameTotals(d[..|d| - 1], e[..|e| - 1], k);
    }
  }

  /** A driver without a source keeps a design acceptable. */
  lemma {:induction false} SourcelessAcceptable(d: Design, i: int, j: int)
    requires Acceptable(d) && 0 <= i < |d| && 0 <= j < |d[i].drivers|
    ensures Acceptable(d[i := Sourceless(d[i], j)])
  {
    var e := d[i := Sourceless(d[i], j)];
    SourcelessEdges(d[i], j, |d|);
    assert NameTexts(e) == NameTexts(d);
    SourcelessTotals(d, i, j);
  }

  lemma {:induction false} SourcelessEdges(s: Signal<Text>, j: int, n: int)
    requires 0 <= j < |s.drivers| && Within(s.drivers, -1, n) && n > 0
    ensures Within(Sourceless(s, j).drivers, -1, n)
  {}

  lemma {:induction false} SourcelessTotals(d: Design, i: int, j: int)
    requires 0 <= i < |d| && 0 <= j < |d[i].drivers|
    ensures var e := d[i := Sourceless(d[i], j)];
            Total(e, DRIVERS) == Total(d, DRIVERS) && Total(e, LOADS) == Total(d, LOADS) && Total(e, PORTS) == Total(d, PORTS)
  {
    var e := d[i := Sourceless(d[i], j)];
    SameTotals(d, e, DRIVERS);
    SameTotals(d, e, LOADS);
    SameTotals(d, e, PORTS);
  }

  function EncodeDesign(d: Design): seq<Signal<Str>> {
    Map((s: Signal<Text>) => MapSignal((t: Text) => Encode(t), s), d)
  }

  // ---- Strings ----

  /** The pool holds `t` and gives it back. */
  lemma {:induction false} Readable(pool: seq<Byte>, offsets: Offsets, t: Text)
    requires PoolOk(pool, offsets) && t in offsets && NulFree(t)
    ensures PoolString(pool, Ref(offsets, t)) == Some(Encode(t))
    ensures TextAt(pool, Ref(offsets, t)) == Encode(t)
  {
    PoolReads(pool, offsets, t);
  }

  lemma {:induction false} EdgeTextsMember(es: seq<Edge<Text>>, j: int, t: Text)
    requires 0 <= j < |es| && t in es[j].texts
    ensures t in EdgeTexts(es)
  {
    if j < |es| - 1 {
      EdgeTextsMember(es[..|es| - 1], j, t);
    }
  }

  lemma {:induction false} SignalTextsMember(d: Design, i: int)
    requires 0 <= i < |d|
    ensures SignalTexts(d[i]) <= DesignTexts(d)
  {
    if i < |d| - 1 {
      SignalTextsMember(d[..|d| - 1], i);
    }
  }

  /** Every text of a converted design reads back as its encoding. */
  ghost predicate AllReadable(d: Design, offsets: Offsets, pool: seq<Byte>) {
    && PoolOk(pool, offsets) && DesignTexts(d) <= offsets.Keys
  }

  lemma {:induction false} SignalReadable(d: Design, offsets: Offsets, pool: seq<Byte>, i: int)
    requires Reported(d) && AllReadable(d, offsets, pool) && 0 <= i < |d|
    ensures PoolString(pool, Ref(offsets, d[i].name)) == Some(Encode(d[i].name))
    ensures PoolString(pool, Ref(offsets, d[i].kind)) == Some(Encode(d[i].kind))
    ensures PoolString(pool, Ref(offsets, d[i].file)) == Some(Encode(d[i].file))
  {
    SignalTextsMember(d, i);
    var s := d[i];
    assert ReportedSignal(s);
    assert s.name in Members([s.name, s.kind, s.file]) && s.kind in Members([s.name, s.kind, s.file])
           && s.file in Members([s.name, s.kind, s.file]);
    Readable(pool, offsets, s.name);
    Readable(pool, offsets, s.kind);
    Readable(pool, offsets, s.file);
  }

  lemma {:induction false} EdgeReadable(d: Design, offsets: Offsets, pool: seq<Byte>, k: int, i: int, j: int)
    requires Reported(d) && AllReadable(d, offsets, pool) && IsGroup(k) && 0 <= i < |d|
    requires 0 <= j < |EdgesFor(d[i], k)|
    ensures forall t :: t in EdgesFor(d[i], k)[j].texts ==> PoolString(pool, Ref(offsets, t)) == Some(Encode(t))
  {
    SignalTextsMember(d, i);
    var es := EdgesFor(d[i], k);
    assert ReportedSignal(d[i]) && ReportedEdges(es, k);
    forall t | t in es[j].texts
      ensures PoolString(pool, Ref(offsets, t)) == Some(Encode(t))
    {
      EdgeTextsMember(es, j, t);
      Readable(pool, offsets, t);
    }
  }

  // ---- Tables ----

  lemma {:induction false} WrittenRecord(d: Design, offsets: Offsets, pool: seq<Byte>, k: int, s: int, j: int)
    requires Reported(d) && AllReadable(d, offsets, pool) && IsGroup(k) && 0 <= s < |d|
    requires 0 <= j < |EdgesFor(d[s], k)|
    ensures var e, r := EdgesFor(d[s], k)[j], RawRecordOf(s, EdgesFor(d[s], k)[j], offsets);
            && (RecordOk(pool, |d|, LowestOther(k), r, s) <==> LowestOther(k) <= e.other < |d|)
            && EdgeOf(pool, r) == MapEdge((t: Text) => Encode(t), e)
  {
    EdgeReadable(d, offsets, pool, k, s, j);
    var e := EdgesFor(d[s], k)[j];
    var r := RawRecordOf(s, e, offsets);
    assert forall i :: 0 <= i < |e.texts| ==> e.texts[i] in e.texts;
    assert EdgeOf(pool, r).texts == Map((t: Text) => Encode(t), e.texts);
  }

  lemma {:induction false} WrittenTable(d: Design, offsets: Offsets, pool: seq<Byte>, k: int)
    requires Reported(d) && AllReadable(d, offsets, pool) && IsGroup(k)
    ensures TableOk(pool, |d|, LowestOther(k), TableFor(d, k, offsets)) <==> EdgesInRange(d, k)
  {
    WrittenStarts(d, k, offsets);
    if EdgesInRange(d, k) {
      InRangeAccepted(d, offsets, pool, k);
    }
    if TableOk(pool, |d|, LowestOther(k), TableFor(d, k, offsets)) {
      forall s, j | 0 <= s < |d| && 0 <= j < |EdgesFor(d[s], k)|
        ensures LowestOther(k) <= EdgesFor(d[s], k)[j].other < |d|
      {
        WrittenAt(d, k, offsets, s, j);
        WrittenRecord(d, offsets, pool, k, s, j);
      }
    }
  }

  lemma {:induction false} InRangeAccepted(d: Design, offsets: Offsets, pool: seq<Byte>, k: int)
    requires Reported(d) && AllReadable(d, offsets, pool) && IsGroup(k) && EdgesInRange(d, k)
    ensures TableOk(pool, |d|, LowestOther(k), TableFor(d, k, offsets))
  {
    WrittenStarts(d, k, offsets);
    var t := TableFor(d, k, offsets);
    forall s, r | 0 <= s < |d| && 0 <= r < |t.records| && InGroup(t.starts, s, r)
      ensures RecordOk(pool, |d|, LowestOther(k), t.records[r], s)
    {
      InRangeRecord(d, offsets, pool, k, s, r);
    }
  }

  lemma {:induction false} InRangeRecord(d: Design, offsets: Offsets, pool: seq<Byte>, k: int, s: int, r: int)
    requires Reported(d) && AllReadable(d, offsets, pool) && IsGroup(k) && EdgesInRange(d, k)
    requires 0 <= s < |d| && 0 <= r < |RecordsFor(d, k, offsets)| && InGroup(StartsFor(d, k), s, r)
    ensures RecordOk(pool, |d|, LowestOther(k), RecordsFor(d, k, offsets)[r], s)
  {
    var j := WrittenFor(d, k, offsets, s, r);
    WrittenRecord(d, offsets, pool, k, s, j);
  }

  lemma {:induction false} WrittenEdges(d: Design, offsets: Offsets, pool: seq<Byte>, k: int, s: int)
    requires Reported(d) && AllReadable(d, offsets, pool) && IsGroup(k) && 0 <= s < |d|
    ensures EdgesOf(pool, TableFor(d, k, offsets), s)
         == Map((e: Edge<Text>) => MapEdge((t: Text) => Encode(t), e), EdgesFor(d[s], k))
  {
    WrittenGroup(d, k, offsets, s);
    forall j | 0 <= j < |EdgesFor(d[s], k)|
      ensures EdgeOf(pool, RawRecordOf(s, EdgesFor(d[s], k)[j], offsets)) == MapEdge((t: Text) => Encode(t), EdgesFor(d[s], k)[j])
    {
      WrittenRecord(d, offsets, pool, k, s, j);
    }
  }

  // ---- Name index ----

  lemma {:induction false} WrittenEntries(d: Design, offsets: Offsets, pool: seq<Byte>)
    requires Reported(d) && AllReadable(d, offsets, pool)
    ensures var pairs := NameSort.Sort(NameSort.Pairs(NameTexts(d)));
            Entries(pool, NamesFor(d, offsets)) == Map((x: NameSort.Pair) => Entry(Some(Encode(x.0)), x.1), pairs)
  {
    var pairs := NameSort.Sort(NameSort.Pairs(NameTexts(d)));
    NameSort.SortNames(NameTexts(d));
    forall p | 0 <= p < |pairs|
      ensures PoolString(pool, Ref(offsets, pairs[p].0)) == Some(Encode(pairs[p].0))
    {
      SignalReadable(d, offsets, pool, pairs[p].1);
    }
  }

  /** One entry of the sorted index passes exactly when its name follows the one before. */
  lemma {:induction false} SortedEntryOk(n: int, pairs: seq<NameSort.Pair>, es: seq<Entry>, p: int)
    requires 0 <= p < |pairs| && 0 <= pairs[p].1 < n
    requires es == Map((x: NameSort.Pair) => Entry(Some(Encode(x.0)), x.1), pairs)
    ensures EntryOk(n, es[p], Prior(es, p)) <==> p == 0 || LexLess(pairs[p - 1].0, pairs[p].0)
  {
    if p > 0 {
      OrderPreserved(pairs[p - 1].0, pairs[p].0);
    }
  }

  lemma {:induction false} SortedSignals(names: seq<Text>, pairs: seq<NameSort.Pair>, es: seq<Entry>, p: int, q: int)
    requires NameSort.Names(pairs, names) && 0 <= p < q < |pairs|
    requires es == Map((x: NameSort.Pair) => Entry(Some(Encode(x.0)), x.1), pairs)
    ensures es[p].signal != es[q].signal
  {
    assert NameSort.Signals(pairs)[p] != NameSort.Signals(pairs)[q];
  }

  predicate NameFollows(pairs: seq<NameSort.Pair>, p: int)
    requires 0 <= p < |pairs|
  {
    p == 0 || LexLess(pairs[p - 1].0, pairs[p].0)
  }

  lemma {:induction false} SortedEntriesOk(names: seq<Text>, pairs: seq<NameSort.Pair>, es: seq<Entry>)
    requires NameSort.Names(pairs, names)
    requires es == Map((x: NameSort.Pair) => Entry(Some(Encode(x.0)), x.1), pairs)
    ensures NamesOk(|names|, es) <==> forall p :: 0 <= p < |pairs| ==> NameFollows(pairs, p)
  {
    forall p | 0 <= p < |pairs|
      ensures EntryOk(|names|, es[p], Prior(es, p)) <==> NameFollows(pairs, p)
    {
      SortedEntryOk(|names|, pairs, es, p);
    }
    forall p, q | 0 <= p < q < |es|
      ensures es[p].signal != es[q].signal
    {
      SortedSignals(names, pairs, es, p, q);
    }
  }

  /** Sorting by code point makes the reader's byte-order check pass exactly when names are distinct. */
  lemma {:induction false} SortedNamesOk(names: seq<Text>, pairs: seq<NameSort.Pair>, es: seq<Entry>)
    requires NameSort.Ordered(pairs) && NameSort.Names(pairs, names)
    requires es == Map((x: NameSort.Pair) => Entry(Some(Encode(x.0)), x.1), pairs)
    ensures NamesOk(|names|, es) <==> NameSort.AllDistinct(names)
  {
    NameSort.StrictIffDistinct(names, pairs);
    SortedEntriesOk(names, pairs, es);
    assert (forall p :: 0 <= p < |pairs| ==> NameFollows(pairs, p)) <==>
           forall p :: 0 < p < |pairs| ==> LexLess(pairs[p - 1].0, pairs[p].0) by {
      if forall p :: 0 <= p < |pairs| ==> NameFollows(pairs, p) {
        forall p | 0 < p < |pairs|
          ensures LexLess(pairs[p - 1].0, pairs[p].0)
        {
          assert NameFollows(pairs, p);
        }
      }
    }
  }

  // ---- The image ----

  lemma {:induction false} WrittenSignals(d: Design, offsets: Offsets, pool: seq<Byte>)
    requires Reported(d) && AllReadable(d, offsets, pool)
    ensures forall i :: 0 <= i < |d| ==>
              (SignalOk(pool, SignalsFor(d, offsets)[i]) <==> 0 <= d[i].direction <= 3)
  {
    forall i | 0 <= i < |d|
      ensures SignalOk(pool, RawSignalOf(d[i], offsets)) <==> 0 <= d[i].direction <= 3
    {
      SignalReadable(d, offsets, pool, i);
    }
  }

  /** Record counts aside, the written image is acceptable exactly when the design is. */
  lemma {:induction false} WrittenImageOk(d: Design, offsets: Offsets, pool: seq<Byte>)
    requires Reported(d) && AllReadable(d, offsets, pool)
    requires Total(d, DRIVERS) <= INT32_MAX && Total(d, LOADS) <= INT32_MAX && Total(d, PORTS) <= INT32_MAX
    ensures ImageOk(ImageFor(d, offsets, pool)) <==> Acceptable(d)
  {
    RangesMean(d);
    WrittenSignals(d, offsets, pool);
    WrittenEntries(d, offsets, pool);
    NameSort.SortNames(NameTexts(d));
    SortedNamesOk(NameTexts(d), NameSort.Sort(NameSort.Pairs(NameTexts(d))), Entries(pool, NamesFor(d, offsets)));
    WrittenTable(d, offsets, pool, DRIVERS);
    WrittenTable(d, offsets, pool, LOADS);
    WrittenTable(d, offsets, pool, PORTS);
    var m := ImageFor(d, offsets, pool);
    assert (forall i :: 0 <= i < |d| ==> SignalOk(pool, m.signals[i])) <==> (forall i :: 0 <= i < |d| ==> 0 <= d[i].direction <= 3);
  }

  /** The written image denotes the design, every text UTF-8 encoded. */
  lemma {:induction false} WrittenImageDenotes(d: Design, offsets: Offsets, pool: seq<Byte>)
    requires Reported(d) && AllReadable(d, offsets, pool)
    ensures Denotes(ImageFor(d, offsets, pool)) == EncodeDesign(d)
  {
    forall i | 0 <= i < |d|
      ensures Denotes(ImageFor(d, offsets, pool))[i] == EncodeDesign(d)[i]
    {
      WrittenSignalDenotes(d, offsets, pool, i);
    }
  }

  lemma {:induction false} WrittenSignalDenotes(d: Design, offsets: Offsets, pool: seq<Byte>, i: int)
    requires Reported(d) && AllReadable(d, offsets, pool) && 0 <= i < |d|
    ensures SignalOf(ImageFor(d, offsets, pool), i) == MapSignal((t: Text) => Encode(t), d[i])
  {
    SignalReadable(d, offsets, pool, i);
    WrittenEdges(d, offsets, pool, DRIVERS, i);
    WrittenEdges(d, offsets, pool, LOADS, i);
    WrittenEdges(d, offsets, pool, PORTS, i);
  }
}
