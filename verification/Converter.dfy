/** `convert`: interns texts, appends records group by group, sorts the name index and
    packs the sections. */
module Converter {
  import opened Bytes
  import opened Utf8
  import opened DesignModel
  import opened Folding
  import opened Layout
  import opened BinaryFile
  import opened Image
  import opened StringPool
  import opened Packing
  import opened WriterImage
  import opened WriterFile
  import opened RoundTrip
  import NameSort

  /** Record and starts bytes of one group, while they are being appended to. */
  datatype GroupBlobs = GroupBlobs(records: seq<Byte>, starts: seq<Byte>)

  // ---- What the blobs hold after the signals `p` ----

  /** The texts of the signal records of `p`, and of one of its groups. */
  ghost function HeadTexts(p: Design): set<Text> {
    if p == [] then {} else HeadTexts(p[..|p| - 1]) + Members(Head(p[|p| - 1]))
  }

  ghost function GroupTexts(p: Design, k: int): set<Text>
    requires IsGroup(k)
  {
    if p == [] then {} else GroupTexts(p[..|p| - 1], k) + EdgeTexts(EdgesFor(p[|p| - 1], k))
  }

  function Head(s: Signal<Text>): seq<Text> { [s.name, s.kind, s.file] }

  ghost predicate SignalsEncoded(blob: seq<Byte>, p: Design, offsets: Offsets) {
    HeadTexts(p) <= offsets.Keys && blob == PackRows(SignalRows(SignalsFor(p, offsets)))
  }

  /** The bytes of group `k` after the signals `p`, folded. */
  ghost predicate GroupEncoded(g: GroupBlobs, k: int, p: Design, offsets: Offsets)
    requires IsGroup(k)
  {
    forall x {:trigger Unfold(x)} :: Unfold(x) ==> GroupBytes(g, k, p, offsets)
  }

  ghost predicate GroupBytes(g: GroupBlobs, k: int, p: Design, offsets: Offsets)
    requires IsGroup(k)
  {
    && GroupTexts(p, k) <= offsets.Keys
    && g.records == PackRows(RecordRows(k, RecordsFor(p, k, offsets)))
    && g.starts == PackRows(StartRows(StartsFor(p, k)[..|p|]))
  }

  lemma {:induction false} GroupMeans(g: GroupBlobs, k: int, p: Design, offsets: Offsets)
    requires IsGroup(k) && GroupEncoded(g, k, p, offsets)
    ensures GroupBytes(g, k, p, offsets)
  {
    assert Unfold(0);
  }

  lemma {:induction false} GroupIs(g: GroupBlobs, k: int, p: Design, offsets: Offsets)
    requires IsGroup(k) && GroupBytes(g, k, p, offsets)
    ensures GroupEncoded(g, k, p, offsets)
  {}

  // ---- Appending rows ----

  lemma {:induction false} PackAppend(rows: seq<seq<Word>>, row: seq<Word>)
    ensures PackRows(rows + [row]) == PackRows(rows) + PackWords(row)
  {
    assert (rows + [row])[..|rows|] == rows;
  }

  lemma {:induction false} RecordAppend(k: int, rs: seq<RawRecord>, r: RawRecord)
    ensures PackRows(RecordRows(k, rs + [r])) == PackRows(RecordRows(k, rs)) + PackWords(RecordRow(k, r))
  {
    assert RecordRows(k, rs + [r]) == RecordRows(k, rs) + [RecordRow(k, r)];
    PackAppend(RecordRows(k, rs), RecordRow(k, r));
  }

  lemma {:induction false} StartAppend(ss: seq<int>, n: int)
    ensures PackRows(StartRows(ss + [n])) == PackRows(StartRows(ss)) + PackWords(Words64(n))
  {
    assert StartRows(ss + [n]) == StartRows(ss) + [Words64(n)];
    PackAppend(StartRows(ss), Words64(n));
  }

  lemma {:induction false} SignalAppend(p: Design, s: Signal<Text>, offsets: Offsets)
    ensures PackRows(SignalRows(SignalsFor(p + [s], offsets)))
         == PackRows(SignalRows(SignalsFor(p, offsets))) + PackWords(SignalRow(RawSignalOf(s, offsets)))
  {
    assert SignalRows(SignalsFor(p + [s], offsets)) == SignalRows(SignalsFor(p, offsets)) + [SignalRow(RawSignalOf(s, offsets))];
    PackAppend(SignalRows(SignalsFor(p, offsets)), SignalRow(RawSignalOf(s, offsets)));
  }

  // ---- Offsets never change, so neither do written records ----

  lemma {:induction false} RecordStable(owner: int, e: Edge<Text>, a: Offsets, b: Offsets)
    requires Extends(a, b) && Members(e.texts) <= a.Keys
    ensures RawRecordOf(owner, e, a) == RawRecordOf(owner, e, b)
  {
    assert forall i :: 0 <= i < |e.texts| ==> e.texts[i] in Members(e.texts) && Ref(a, e.texts[i]) == Ref(b, e.texts[i]);
    assert RawRecordOf(owner, e, a).texts == RawRecordOf(owner, e, b).texts;
  }

  lemma {:induction false} EdgesStable(owner: int, es: seq<Edge<Text>>, a: Offsets, b: Offsets)
    requires Extends(a, b) && EdgeTexts(es) <= a.Keys
    ensures RecordsOf(owner, es, a) == RecordsOf(owner, es, b)
  {
    if es != [] {
      var n := |es| - 1;
      EdgesStable(owner, es[..n], a, b);
      RecordStable(owner, es[n], a, b);
      assert RecordsOf(owner, es, a) == RecordsOf(owner, es[..n], a) + [RawRecordOf(owner, es[n], a)];
      assert RecordsOf(owner, es, b) == RecordsOf(owner, es[..n], b) + [RawRecordOf(owner, es[n], b)];
    }
  }

  lemma {:induction false} RecordsStable(d: Design, k: int, a: Offsets, b: Offsets)
    requires IsGroup(k) && Extends(a, b) && GroupTexts(d, k) <= a.Keys
    ensures RecordsFor(d, k, a) == RecordsFor(d, k, b)
  {
    if d != [] {
      RecordsStable(d[..|d| - 1], k, a, b);
      EdgesStable(|d| - 1, EdgesFor(d[|d| - 1], k), a, b);
    }
  }

  lemma {:induction false} GroupStable(g: GroupBlobs, k: int, d: Design, a: Offsets, b: Offsets)
    requires IsGroup(k) && Extends(a, b) && GroupEncoded(g, k, d, a)
    ensures GroupEncoded(g, k, d, b)
  {
    GroupMeans(g, k, d, a);
    RecordsStable(d, k, a, b);
    GroupIs(g, k, d, b);
  }

  lemma {:induction false} HeadStable(d: Design, a: Offsets, b: Offsets)
    requires Extends(a, b) && HeadTexts(d) <= a.Keys
    ensures SignalsFor(d, a) == SignalsFor(d, b)
  {
    if d != [] {
      var init, last := d[..|d| - 1], d[|d| - 1];
      HeadStable(init, a, b);
      var ts := Head(last);
      assert ts[0] in Members(ts) && ts[1] in Members(ts) && ts[2] in Members(ts);
      assert SignalsFor(d, a) == SignalsFor(init, a) + [RawSignalOf(last, a)];
      assert SignalsFor(d, b) == SignalsFor(init, b) + [RawSignalOf(last, b)];
    }
  }

  lemma {:induction false} SignalsStable(blob: seq<Byte>, d: Design, a: Offsets, b: Offsets)
    requires Extends(a, b) && SignalsEncoded(blob, d, a)
    ensures SignalsEncoded(blob, d, b)
  {
    HeadStable(d, a, b);
  }

  // ---- One group of one signal ----

  /** One `pack` call of a driver, load or port. */
  method AppendRecord(strings: Strings, k: int, owner: int, e: Edge<Text>, blob: seq<Byte>, ghost done: seq<RawRecord>)
    returns (r: Result<seq<Byte>>)
    requires strings.Valid() && blob == PackRows(RecordRows(k, done))
    modifies strings
    ensures strings.Valid() && Extends(old(strings.offsets), strings.offsets)
    ensures r.Err? ==> r.error == PoolLimit && PoolSize(old(strings.offsets).Keys + Members(e.texts)) > POOL_LIMIT
    ensures r.Ok? ==> strings.offsets.Keys == old(strings.offsets).Keys + Members(e.texts)
    ensures r.Ok? ==> r.value == PackRows(RecordRows(k, done + [RawRecordOf(owner, e, strings.offsets)]))
  {
    var offs := strings.InternAll(e.texts);
    if offs.Err? {
      return Err(offs.error);
    }
    var rec := RawRecord(owner, e.other, AsWords(offs.value), e.line);
    InternedRecord(owner, e, offs.value, strings.data, strings.offsets);
    RecordAppend(k, done, rec);
    return Ok(blob + PackWords(RecordRow(k, rec)));
  }

  lemma {:induction false} DoneNext(before: seq<RawRecord>, owner: int, es: seq<Edge<Text>>, j: int, a: Offsets, b: Offsets)
    requires 0 <= j < |es| && Extends(a, b) && EdgeTexts(es[..j]) <= a.Keys
    ensures before + RecordsOf(owner, es[..j], a) + [RawRecordOf(owner, es[j], b)]
         == before + RecordsOf(owner, es[..j + 1], b)
  {
    EdgesStable(owner, es[..j], a, b);
    assert RecordsOf(owner, es[..j + 1], b) == RecordsOf(owner, es[..j], b) + [RawRecordOf(owner, es[j], b)];
  }

  /** The records of the first `j` edges are written, and their texts interned. */
  ghost predicate RecordsDone(
    k: int, owner: int, es: seq<Edge<Text>>, j: int, before: seq<RawRecord>, first: Offsets, now: Offsets, out: seq<Byte>)
  {
    && 0 <= j <= |es| && Extends(first, now) && now.Keys == first.Keys + EdgeTexts(es[..j])
    && out == PackRows(RecordRows(k, before + RecordsOf(owner, es[..j], now)))
  }

  /** One round of the inner loop. */
  method AppendNext(strings: Strings, k: int, owner: int, es: seq<Edge<Text>>, j: int, out: seq<Byte>,
                    ghost before: seq<RawRecord>, ghost first: Offsets)
    returns (r: Result<seq<Byte>>)
    requires strings.Valid() && 0 <= j < |es| && RecordsDone(k, owner, es, j, before, first, strings.offsets, out)
    modifies strings
    ensures strings.Valid() && Extends(old(strings.offsets), strings.offsets)
    ensures r.Err? ==> r.error == PoolLimit && PoolSize(first.Keys + EdgeTexts(es)) > POOL_LIMIT
    ensures r.Ok? ==> RecordsDone(k, owner, es, j + 1, before, first, strings.offsets, r.value)
  {
    ghost var a := strings.offsets;
    EdgeTextsNext(es, j);
    r := AppendRecord(strings, k, owner, es[j], out, before + RecordsOf(owner, es[..j], a));
    if r.Err? {
      TextsTooMany(first.Keys, a.Keys, es, j);
    } else {
      DoneNext(before, owner, es, j, a, strings.offsets);
    }
  }

  /** The inner loop over one signal's drivers, loads or ports. */
  method AppendRecords(strings: Strings, k: int, owner: int, es: seq<Edge<Text>>, blob: seq<Byte>, ghost before: seq<RawRecord>)
    returns (r: Result<seq<Byte>>)
    requires strings.Valid() && blob == PackRows(RecordRows(k, before))
    modifies strings
    ensures strings.Valid() && Extends(old(strings.offsets), strings.offsets)
    ensures r.Err? ==> r.error == PoolLimit && PoolSize(old(strings.offsets).Keys + EdgeTexts(es)) > POOL_LIMIT
    ensures r.Ok? ==> strings.offsets.Keys == old(strings.offsets).Keys + EdgeTexts(es)
    ensures r.Ok? ==> r.value == PackRows(RecordRows(k, before + RecordsOf(owner, es, strings.offsets)))
  {
    var out := blob;
    ghost var first := strings.offsets;
    assert before + RecordsOf(owner, es[..0], first) == before;
    for j := 0 to |es|
      invariant strings.Valid() && RecordsDone(k, owner, es, j, before, first, strings.offsets, out)
    {
      var next := AppendNext(strings, k, owner, es, j, out, before, first);
      if next.Err? {
        return Err(next.error);
      }
      out := next.value;
    }
    assert es[..|es|] == es;
    return Ok(out);
  }

  lemma {:induction false} TextsTooMany(first: set<Text>, now: set<Text>, es: seq<Edge<Text>>, j: int)
    requires 0 <= j < |es| && now == first + EdgeTexts(es[..j]) && PoolSize(now + Members(es[j].texts)) > POOL_LIMIT
    ensures PoolSize(first + EdgeTexts(es)) > POOL_LIMIT
  {
    EdgeTextsNext(es, j);
    EdgeTextsPrefix(es, j + 1);
    PoolSizeMonotone(now + Members(es[j].texts), first + EdgeTexts(es));
  }

  function AsWords(offs: seq<int>): seq<Word> {
    Map(o => if 0 <= o < TWO32 then o else 0, offs)
  }

  lemma {:induction false} InternedRecord(owner: int, e: Edge<Text>, offs: seq<int>, data: seq<Byte>, offsets: Offsets)
    requires OffsetsOf(offs, e.texts, offsets) && PoolOk(data, offsets)
    ensures RawRecord(owner, e.other, AsWords(offs), e.line) == RawRecordOf(owner, e, offsets)
  {
    forall j | 0 <= j < |offs|
      ensures AsWords(offs)[j] == Ref(offsets, e.texts[j])
    {
      PoolReads(data, offsets, e.texts[j]);
    }
    assert AsWords(offs) == RawRecordOf(owner, e, offsets).texts;
  }

  lemma {:induction false} EdgeTextsNext(es: seq<Edge<Text>>, j: int)
    requires 0 <= j < |es|
    ensures EdgeTexts(es[..j + 1]) == EdgeTexts(es[..j]) + Members(es[j].texts)
  {
    assert es[..j + 1][..j] == es[..j];
  }

  lemma {:induction false} EdgeTextsPrefix(es: seq<Edge<Text>>, j: int)
    requires 0 <= j <= |es|
    ensures EdgeTexts(es[..j]) <= EdgeTexts(es)
    decreases |es| - j
  {
    if j < |es| {
      EdgeTextsNext(es, j);
      EdgeTextsPrefix(es, j + 1);
    } else {
      assert es[..j] == es;
    }
  }

  // ---- One signal ----

  lemma {:induction false} RecordRowsLength(rs: seq<RawRecord>, k: int)
    requires IsGroup(k) && forall r :: 0 <= r < |rs| ==> |rs[r].texts| == TextCount(k)
    ensures RowsOf(RecordRows(k, rs), RowLength(k)) && |PackRows(RecordRows(k, rs))| / Width(k) == |rs|
  {
    PackRowsLength(RecordRows(k, rs), RowLength(k));
  }

  lemma {:induction false} RecordsHaveTexts(p: Design, k: int, offsets: Offsets)
    requires IsGroup(k) && Reported(p)
    ensures forall r :: 0 <= r < |RecordsFor(p, k, offsets)| ==> |RecordsFor(p, k, offsets)[r].texts| == TextCount(k)
  {
    if p != [] {
      var init, last := p[..|p| - 1], p[|p| - 1];
      RecordsHaveTexts(init, k, offsets);
      assert ReportedSignal(last) && ReportedEdges(EdgesFor(last, k), k);
    }
  }

  /** `len(blob) // sizeof` counts the records written so far. */
  lemma {:induction false} RecordsWritten(p: Design, k: int, offsets: Offsets)
    requires IsGroup(k) && Reported(p)
    ensures |PackRows(RecordRows(k, RecordsFor(p, k, offsets)))| / Width(k) == Total(p, k)
  {
    RecordsHaveTexts(p, k, offsets);
    RecordRowsLength(RecordsFor(p, k, offsets), k);
    TotalIsLength(p, k, offsets);
  }

  lemma {:induction false} GroupGrows(p: Design, s: Signal<Text>, k: int, offsets: Offsets)
    requires IsGroup(k)
    ensures RecordsFor(p + [s], k, offsets) == RecordsFor(p, k, offsets) + RecordsOf(|p|, EdgesFor(s, k), offsets)
    ensures GroupTexts(p + [s], k) == GroupTexts(p, k) + EdgeTexts(EdgesFor(s, k))
    ensures StartsFor(p + [s], k)[..|p| + 1] == StartsFor(p, k) == StartsFor(p, k)[..|p|] + [Total(p, k)]
  {
    assert (p + [s])[..|p|] == p;
  }

  /** The starts entry and the records of one group of one signal. */
  method AppendGroup(strings: Strings, k: int, index: int, s: Signal<Text>, g: GroupBlobs, ghost p: Design)
    returns (r: Result<GroupBlobs>)
    requires strings.Valid() && IsGroup(k) && index == |p| && Reported(p)
    requires GroupEncoded(g, k, p, strings.offsets)
    modifies strings
    ensures strings.Valid() && Extends(old(strings.offsets), strings.offsets)
    ensures r.Err? ==> r.error == PoolLimit && PoolSize(old(strings.offsets).Keys + EdgeTexts(EdgesFor(s, k))) > POOL_LIMIT
    ensures r.Ok? ==> strings.offsets.Keys == old(strings.offsets).Keys + EdgeTexts(EdgesFor(s, k))
    ensures r.Ok? ==> GroupEncoded(r.value, k, p + [s], strings.offsets)
  {
    ghost var a := strings.offsets;
    GroupMeans(g, k, p, a);
    var starts := g.starts + PackWords(Words64(|g.records| / Width(k)));
    ghost var before := RecordsFor(p, k, a);
    var records := AppendRecords(strings, k, index, EdgesFor(s, k), g.records, before);
    if records.Err? {
      return Err(records.error);
    }
    r := Ok(GroupBlobs(records.value, starts));
    GroupAppended(g, r.value, k, p, s, a, strings.offsets);
  }

  lemma {:induction false} GroupAppended(
    g: GroupBlobs, g': GroupBlobs, k: int, p: Design, s: Signal<Text>, a: Offsets, b: Offsets)
    requires IsGroup(k) && Reported(p) && GroupBytes(g, k, p, a)
    requires Extends(a, b) && EdgeTexts(EdgesFor(s, k)) <= b.Keys
    requires g'.records == PackRows(RecordRows(k, RecordsFor(p, k, a) + RecordsOf(|p|, EdgesFor(s, k), b)))
    requires g'.starts == g.starts + PackWords(Words64(|g.records| / Width(k)))
    ensures GroupEncoded(g', k, p + [s], b)
  {
    RecordsWritten(p, k, a);
    StartAppend(StartsFor(p, k)[..|p|], Total(p, k));
    RecordsStable(p, k, a, b);
    GroupGrows(p, s, k, b);
    GroupIs(g', k, p + [s], b);
  }

  /** Everything appended so far. */
  datatype Blobs = Blobs(signals: seq<Byte>, drivers: GroupBlobs, loads: GroupBlobs, ports: GroupBlobs)

  ghost predicate Encoded(b: Blobs, p: Design, offsets: Offsets) {
    && SignalsEncoded(b.signals, p, offsets)
    && GroupEncoded(b.drivers, DRIVERS, p, offsets)
    && GroupEncoded(b.loads, LOADS, p, offsets)
    && GroupEncoded(b.ports, PORTS, p, offsets)
  }

  /** The `SIGNAL.pack` call. */
  method AppendSignalRow(strings: Strings, s: Signal<Text>, blob: seq<Byte>, ghost p: Design) returns (r: Result<seq<Byte>>)
    requires strings.Valid() && SignalsEncoded(blob, p, strings.offsets)
    modifies strings
    ensures strings.Valid() && Extends(old(strings.offsets), strings.offsets)
    ensures r.Err? ==> r.error == PoolLimit && PoolSize(old(strings.offsets).Keys + Members(Head(s))) > POOL_LIMIT
    ensures r.Ok? ==> strings.offsets.Keys == old(strings.offsets).Keys + Members(Head(s))
    ensures r.Ok? ==> SignalsEncoded(r.value, p + [s], strings.offsets)
  {
    ghost var a := strings.offsets;
    var offs := strings.InternAll(Head(s));
    if offs.Err? {
      return Err(offs.error);
    }
    var ws := AsWords(offs.value);
    InternedSignal(s, offs.value, strings.data, strings.offsets);
    HeadStable(p, a, strings.offsets);
    SignalAppend(p, s, strings.offsets);
    assert (p + [s])[..|p|] == p;
    return Ok(blob + PackWords(SignalRow(RawSignal(ws[0], ws[1], ws[2], s.width, s.line, s.direction))));
  }

  lemma {:induction false} InternedSignal(s: Signal<Text>, offs: seq<int>, data: seq<Byte>, offsets: Offsets)
    requires OffsetsOf(offs, Head(s), offsets) && PoolOk(data, offsets)
    ensures |offs| == 3
    ensures var ws := AsWords(offs);
            RawSignal(ws[0], ws[1], ws[2], s.width, s.line, s.direction) == RawSignalOf(s, offsets)
  {
    assert Head(s)[0] == s.name && Head(s)[1] == s.kind && Head(s)[2] == s.file;
    PoolReads(data, offsets, s.name);
    PoolReads(data, offsets, s.kind);
    PoolReads(data, offsets, s.file);
  }

  /** The three groups of one signal: drivers, then loads, then ports. */
  method AppendGroups(strings: Strings, index: int, s: Signal<Text>, b: Blobs, ghost p: Design) returns (r: Result<Blobs>)
    requires strings.Valid() && index == |p| && Reported(p)
    requires GroupEncoded(b.drivers, DRIVERS, p, strings.offsets)
    requires GroupEncoded(b.loads, LOADS, p, strings.offsets)
    requires GroupEncoded(b.ports, PORTS, p, strings.offsets)
    modifies strings
    ensures strings.Valid() && Extends(old(strings.offsets), strings.offsets)
    ensures r.Err? ==> r.error == PoolLimit && PoolSize(old(strings.offsets).Keys + AllEdgeTexts(s)) > POOL_LIMIT
    ensures r.Ok? ==> strings.offsets.Keys == old(strings.offsets).Keys + AllEdgeTexts(s) && r.value.signals == b.signals
    ensures r.Ok? ==> GroupEncoded(r.value.drivers, DRIVERS, p + [s], strings.offsets)
    ensures r.Ok? ==> GroupEncoded(r.value.loads, LOADS, p + [s], strings.offsets)
    ensures r.Ok? ==> GroupEncoded(r.value.ports, PORTS, p + [s], strings.offsets)
  {
    ghost var all := strings.offsets.Keys + AllEdgeTexts(s);
    ghost var o1 := strings.offsets;
    var drivers := AppendGroup(strings, DRIVERS, index, s, b.drivers, p);
    if drivers.Err? {
      PoolSizeMonotone(o1.Keys + EdgeTexts(s.drivers), all);
      return Err(drivers.error);
    }
    ghost var o2 := strings.offsets;
    GroupStable(b.loads, LOADS, p, o1, o2);
    var loads := AppendGroup(strings, LOADS, index, s, b.loads, p);
    if loads.Err? {
      PoolSizeMonotone(o2.Keys + EdgeTexts(s.loads), all);
      return Err(loads.error);
    }
    ghost var o3 := strings.offsets;
    GroupStable(b.ports, PORTS, p, o1, o3);
    GroupStable(drivers.value, DRIVERS, p + [s], o2, o3);
    var ports := AppendGroup(strings, PORTS, index, s, b.ports, p);
    if ports.Err? {
      PoolSizeMonotone(o3.Keys + EdgeTexts(s.ports), all);
      return Err(ports.error);
    }
    GroupStable(drivers.value, DRIVERS, p + [s], o3, strings.offsets);
    GroupStable(loads.value, LOADS, p + [s], o3, strings.offsets);
    return Ok(Blobs(b.signals, drivers.value, loads.value, ports.value));
  }

  ghost function AllEdgeTexts(s: Signal<Text>): set<Text> {
    EdgeTexts(s.drivers) + EdgeTexts(s.loads) + EdgeTexts(s.ports)
  }

  /** One iteration of the signal loop. */
  method AppendSignal(strings: Strings, index: int, s: Signal<Text>, b: Blobs, ghost p: Design) returns (r: Result<Blobs>)
    requires strings.Valid() && index == |p| && Reported(p) && Encoded(b, p, strings.offsets)
    modifies strings
    ensures strings.Valid()
    ensures r.Err? ==> r.error == PoolLimit && PoolSize(old(strings.offsets).Keys + SignalTexts(s)) > POOL_LIMIT
    ensures r.Ok? ==> strings.offsets.Keys == old(strings.offsets).Keys + SignalTexts(s)
    ensures r.Ok? ==> Encoded(r.value, p + [s], strings.offsets)
  {
    ghost var all := strings.offsets.Keys + SignalTexts(s);
    ghost var o0 := strings.offsets;
    var signals := AppendSignalRow(strings, s, b.signals, p);
    if signals.Err? {
      PoolSizeMonotone(o0.Keys + Members(Head(s)), all);
      return Err(signals.error);
    }
    ghost var o1 := strings.offsets;
    GroupStable(b.drivers, DRIVERS, p, o0, o1);
    GroupStable(b.loads, LOADS, p, o0, o1);
    GroupStable(b.ports, PORTS, p, o0, o1);
    r := AppendGroups(strings, index, s, b.(signals := signals.value), p);
    if r.Err? {
      PoolSizeMonotone(o1.Keys + AllEdgeTexts(s), all);
      return;
    }
    SignalsStable(signals.value, p + [s], o1, strings.offsets);
  }

  // ---- Name index and file ----

  /** The name index blob: every name is interned again, which finds its offset. */
  method AppendNames(strings: Strings, pairs: seq<NameSort.Pair>) returns (blob: seq<Byte>)
    requires strings.Valid() && forall p :: 0 <= p < |pairs| ==> pairs[p].0 in strings.offsets
    modifies strings
    ensures strings.Valid() && strings.offsets == old(strings.offsets) && strings.data == old(strings.data)
    ensures blob == PackRows(NameRows(RawNames(pairs, strings.offsets)))
  {
    blob := [];
    ghost var offsets := strings.offsets;
    for i := 0 to |pairs|
      invariant strings.Valid() && strings.offsets == offsets && strings.data == old(strings.data)
      invariant blob == PackRows(NameRows(RawNames(pairs[..i], offsets)))
    {
      assert offsets.Keys + {pairs[i].0} == offsets.Keys;
      var o := strings.Intern(pairs[i].0);
      PoolReads(strings.data, offsets, pairs[i].0);
      NameAppend(pairs, i, offsets);
      blob := blob + PackWords(NameRow(RawName(o.value, pairs[i].1)));
    }
    assert pairs[..|pairs|] == pairs;
  }

  lemma {:induction false} NameAppend(pairs: seq<NameSort.Pair>, i: int, offsets: Offsets)
    requires 0 <= i < |pairs|
    ensures PackRows(NameRows(RawNames(pairs[..i + 1], offsets)))
         == PackRows(NameRows(RawNames(pairs[..i], offsets))) + PackWords(NameRow(RawName(Ref(offsets, pairs[i].0), pairs[i].1)))
  {
    var row := NameRow(RawName(Ref(offsets, pairs[i].0), pairs[i].1));
    assert NameRows(RawNames(pairs[..i + 1], offsets)) == NameRows(RawNames(pairs[..i], offsets)) + [row];
    PackAppend(NameRows(RawNames(pairs[..i], offsets)), row);
  }

  /** The signal loop. */
  method AppendSignals(strings: Strings, d: Design) returns (r: Result<Blobs>)
    requires strings.Valid() && strings.offsets.Keys == {[]} && Reported(d)
    modifies strings
    ensures strings.Valid()
    ensures r.Err? <==> PoolSize(DesignTexts(d)) > POOL_LIMIT
    ensures r.Err? ==> r.error == PoolLimit
    ensures r.Ok? ==> strings.offsets.Keys == DesignTexts(d) && Encoded(r.value, d, strings.offsets)
  {
    var none := GroupBlobs([], []);
    var b := Blobs([], none, none, none);
    assert d[..0] == [];
    EncodedNothing(strings.offsets);
    for i := 0 to |d|
      invariant strings.Valid() && strings.offsets.Keys == DesignTexts(d[..i])
      invariant Encoded(b, d[..i], strings.offsets)
    {
      PrefixNext(d, i);
      var next := AppendSignal(strings, i, d[i], b, d[..i]);
      if next.Err? {
        TextsPrefix(d, i + 1);
        PoolSizeMonotone(DesignTexts(d[..i + 1]), DesignTexts(d));
        return Err(next.error);
      }
      b := next.value;
    }
    assert d[..|d|] == d;
    return Ok(b);
  }

  lemma {:induction false} EncodedNothing(offsets: Offsets)
    ensures Encoded(Blobs([], GroupBlobs([], []), GroupBlobs([], []), GroupBlobs([], [])), [], offsets)
  {
    GroupIs(GroupBlobs([], []), DRIVERS, [], offsets);
    GroupIs(GroupBlobs([], []), LOADS, [], offsets);
    GroupIs(GroupBlobs([], []), PORTS, [], offsets);
  }

  lemma {:induction false} PrefixNext(d: Design, i: int)
    requires 0 <= i < |d| && Reported(d)
    ensures d[..i] + [d[i]] == d[..i + 1] && Reported(d[..i])
    ensures DesignTexts(d[..i + 1]) == DesignTexts(d[..i]) + SignalTexts(d[i])
  {
    assert d[..i + 1][..i] == d[..i];
  }

  lemma {:induction false} TextsPrefix(d: Design, i: int)
    requires 0 <= i <= |d|
    ensures DesignTexts(d[..i]) <= DesignTexts(d)
    decreases |d| - i
  {
    if i < |d| {
      assert d[..i + 1][..i] == d[..i];
      TextsPrefix(d, i + 1);
    } else {
      assert d[..i] == d;
    }
  }

  /** Blob `b` is section `k` of the image, folded. */
  ghost predicate SectionIs(b: Blob, m: Image, k: int)
    requires IsSection(k)
  {
    forall x {:trigger Unfold(x)} :: Unfold(x) ==> b == BlobOf(m, k)
  }

  /** A group's records with their count, and its starts with the closing entry. */
  method CloseGroup(g: GroupBlobs, k: int, n: int, ghost d: Design, ghost offsets: Offsets, ghost m: Image)
    returns (records: Blob, starts: Blob)
    requires IsGroup(k) && Reported(d) && GroupEncoded(g, k, d, offsets) && n == |d|
    requires TableOf(m, k) == TableFor(d, k, offsets)
    ensures SectionIs(records, m, k) && SectionIs(starts, m, k + 1)
  {
    ClosedGroup(g, k, d, offsets);
    TableBlobs(m, k);
    var count := |g.records| / Width(k);
    records := Blob(g.records, count);
    starts := Blob(g.starts + PackWords(Words64(count)), n + 1);
  }

  lemma {:induction false} TableBlobs(m: Image, k: int)
    requires IsGroup(k)
    ensures BlobOf(m, k) == RowsBlob(RecordRows(k, TableOf(m, k).records))
    ensures BlobOf(m, k + 1) == RowsBlob(StartRows(TableOf(m, k).starts))
  {}

  lemma {:induction false} ClosedGroup(g: GroupBlobs, k: int, d: Design, offsets: Offsets)
    requires IsGroup(k) && Reported(d) && GroupEncoded(g, k, d, offsets)
    ensures Blob(g.records, |g.records| / Width(k)) == RowsBlob(RecordRows(k, RecordsFor(d, k, offsets)))
    ensures Blob(g.starts + PackWords(Words64(|g.records| / Width(k))), |d| + 1) == RowsBlob(StartRows(StartsFor(d, k)))
  {
    GroupMeans(g, k, d, offsets);
    RecordsWritten(d, k, offsets);
    TotalIsLength(d, k, offsets);
    StartAppend(StartsFor(d, k)[..|d|], Total(d, k));
    assert StartsFor(d, k) == StartsFor(d, k)[..|d|] + [Total(d, k)];
  }

  /** File `f` is what the converter writes for `d`, under some assignment of string offsets. */
  ghost predicate Converted(d: Design, f: seq<Byte>) {
    exists offsets: Offsets, pool: seq<Byte> :: ConvertedWith(d, f, offsets, pool)
  }

  ghost predicate ConvertedWith(d: Design, f: seq<Byte>, offsets: Offsets, pool: seq<Byte>) {
    PoolOk(pool, offsets) && offsets.Keys == DesignTexts(d) && Packed(f, BlobsOf(ImageFor(d, offsets, pool)))
  }

  // ---- The round trip ----

  lemma {:induction false} TotalBound(d: Design, k: int)
    requires IsGroup(k) && Reported(d)
    ensures Total(d, k) <= |d| * INT32_MAX
  {
    if d != [] {
      var init, last := d[..|d| - 1], d[|d| - 1];
      assert ReportedSignal(last) && ReportedEdges(EdgesFor(last, k), k);
      TotalBound(init, k);
    }
  }

  lemma {:induction false} RecordsFit(d: Design, k: int, offsets: Offsets)
    requires IsGroup(k) && Reported(d)
    ensures forall r :: 0 <= r < |RecordsFor(d, k, offsets)| ==>
              var rec := RecordsFor(d, k, offsets)[r];
              && 0 <= rec.owner < |d| && IsInt32(rec.other) && IsInt32(rec.line) && (HasLine(k) || rec.line == 0)
  {
    if d != [] {
      var init, last := d[..|d| - 1], d[|d| - 1];
      RecordsFit(init, k, offsets);
      assert ReportedSignal(last) && ReportedEdges(EdgesFor(last, k), k);
    }
  }

  lemma {:induction false} StartsFit(d: Design, k: int, s: int)
    requires IsGroup(k) && Reported(d) && 0 <= s <= |d|
    ensures 0 <= StartsFor(d, k)[s] < TWO64
  {
    StartsPrefix(d, k, s);
    TotalMonotone(d, k, s);
    TotalBound(d, k);
  }

  lemma {:induction false} TableWritten(d: Design, k: int, offsets: Offsets)
    requires IsGroup(k) && Reported(d)
    ensures TableFits(k, TableFor(d, k, offsets))
    ensures |StartsFor(d, k)| == |d| + 1 && |RecordsFor(d, k, offsets)| == Total(d, k)
  {
    RecordsFit(d, k, offsets);
    RecordsHaveTexts(d, k, offsets);
    TotalIsLength(d, k, offsets);
    forall s | 0 <= s <= |d|
      ensures 0 <= StartsFor(d, k)[s] < TWO64
    {
      StartsFit(d, k, s);
    }
  }

  lemma {:induction false} NamesWritten(d: Design, offsets: Offsets)
    requires |d| <= INT32_MAX
    ensures |NamesFor(d, offsets)| == |d| && NamesFit(NamesFor(d, offsets))
  {
    NameSort.SortNames(NameTexts(d));
  }

  predicate TotalsFit(d: Design) {
    Total(d, DRIVERS) <= INT32_MAX && Total(d, LOADS) <= INT32_MAX && Total(d, PORTS) <= INT32_MAX
  }

  lemma {:induction false} ImageWritten(d: Design, offsets: Offsets, pool: seq<Byte>)
    requires Reported(d) && pool != []
    ensures ImageFits(ImageFor(d, offsets, pool))
    ensures CountsFit(ImageFor(d, offsets, pool)) <==> TotalsFit(d)
  {
    NamesWritten(d, offsets);
    TableWritten(d, DRIVERS, offsets);
    TableWritten(d, LOADS, offsets);
    TableWritten(d, PORTS, offsets);
    forall i | 0 <= i < |d|
      ensures IsInt32(d[i].width) && IsInt32(d[i].line) && IsInt32(d[i].direction)
    {
      assert ReportedSignal(d[i]);
    }
  }

  /** The converter's file is accepted exactly when the design is acceptable, and then
      reading it back gives the design, every text UTF-8 encoded. */
  lemma {:induction false} ConvertedRoundTrip(d: Design, f: seq<Byte>)
    requires Reported(d) && Converted(d, f)
    ensures Accepts(f) <==> Acceptable(d)
    ensures Acceptable(d) ==> Denotes(Parse(f)) == EncodeDesign(d)
  {
    var offsets: Offsets, pool: seq<Byte> :| ConvertedWith(d, f, offsets, pool);
    PoolNonEmpty(pool, offsets);
    ImageWritten(d, offsets, pool);
    ParsePacked(f, ImageFor(d, offsets, pool));
    if TotalsFit(d) {
      WrittenImageOk(d, offsets, pool);
    }
    WrittenImageDenotes(d, offsets, pool);
  }

  lemma {:induction false} PoolNonEmpty(pool: seq<Byte>, offsets: Offsets)
    requires PoolOk(pool, offsets)
    ensures pool != []
  {
    assert StoredAt(pool, offsets[[]], []);
  }

  /** Blobs of bounded size make a file of bounded size. */
  lemma {:induction false} EndBound(blobs: seq<Blob>, bound: nat, k: int)
    requires 0 <= k <= |blobs| && forall j :: 0 <= j < k ==> |blobs[j].bytes| <= bound
    ensures EndOf(blobs, k) <= HEADER_SIZE + k * (bound + 8)
  {
    if k > 0 {
      EndBound(blobs, bound, k - 1);
      AlignUpBounds(EndOf(blobs, k - 1));
      assert k * (bound + 8) == (k - 1) * (bound + 8) + bound + 8;
    }
  }

  lemma {:induction false} BlobBound(m: Image, k: int)
    requires IsSection(k) && ImageFits(m) && CountsFit(m) && |m.pool| <= POOL_LIMIT
    ensures |BlobOf(m, k).bytes| <= 0x20_0000_0000 && 0 <= BlobOf(m, k).count < TWO64
  {
    if k == SIGNALS {
      PackRowsLength(SignalRows(m.signals), 6);
    } else if k == NAME_INDEX {
      PackRowsLength(NameRows(m.names), 2);
    } else if IsGroup(k) {
      RecordRowsLength(TableOf(m, k).records, k);
      PackRowsLength(RecordRows(k, TableOf(m, k).records), RowLength(k));
    } else if k != STRINGS {
      PackRowsLength(StartRows(TableOf(m, k - 1).starts), 2);
    }
  }

  lemma {:induction false} SizeBound(m: Image)
    requires ImageFits(m) && CountsFit(m) && |m.pool| <= POOL_LIMIT
    ensures Packable(BlobsOf(m)) && EndOf(BlobsOf(m), SECTION_COUNT) < TWO63
  {
    var blobs := BlobsOf(m);
    forall k | 0 <= k < SECTION_COUNT
      ensures |blobs[k].bytes| <= 0x20_0000_0000 && 0 <= blobs[k].count < TWO64
    {
      BlobBound(m, k);
    }
    EndBound(blobs, 0x20_0000_0000, SECTION_COUNT);
  }

  /** An acceptable design is small enough to pack. */
  lemma {:induction false} AcceptablePacks(d: Design, offsets: Offsets, pool: seq<Byte>)
    requires Reported(d) && Acceptable(d) && PoolOk(pool, offsets)
    ensures Packable(BlobsOf(ImageFor(d, offsets, pool)))
    ensures EndOf(BlobsOf(ImageFor(d, offsets, pool)), SECTION_COUNT) < TWO63
  {
    PoolNonEmpty(pool, offsets);
    ImageWritten(d, offsets, pool);
    SizeBound(ImageFor(d, offsets, pool));
  }

  lemma {:induction false} PairsKnown(d: Design, offsets: Offsets)
    requires offsets.Keys == DesignTexts(d)
    ensures var pairs := NameSort.Sort(NameSort.Pairs(NameTexts(d)));
            |pairs| == |d| && forall p :: 0 <= p < |pairs| ==> pairs[p].0 in offsets
  {
    NameSort.SortNames(NameTexts(d));
    var pairs := NameSort.Sort(NameSort.Pairs(NameTexts(d)));
    forall p | 0 <= p < |pairs|
      ensures pairs[p].0 in offsets
    {
      var s := d[pairs[p].1];
      SignalTextsMember(d, pairs[p].1);
      assert Head(s)[0] in Members(Head(s));
    }
  }

  /** Interning and appending; the offsets and pool it ends with are exposed to proofs. */
  method Gather(d: Design) returns (r: Result<seq<Blob>>, ghost offsets: Offsets, ghost pool: seq<Byte>)
    requires Reported(d)
    ensures r.Err? <==> PoolSize(DesignTexts(d)) > POOL_LIMIT
    ensures r.Err? ==> r.error == PoolLimit
    ensures r.Ok? ==> PoolOk(pool, offsets) && offsets.Keys == DesignTexts(d)
    ensures r.Ok? ==> r.value == BlobsOf(ImageFor(d, offsets, pool))
  {
    var strings := new Strings();
    var blobs := AppendSignals(strings, d);
    offsets, pool := strings.offsets, strings.data;
    if blobs.Err? {
      r := Err(blobs.error);
      return;
    }
    var pairs := NameSort.Sort(NameSort.Pairs(NameTexts(d)));
    PairsKnown(d, offsets);
    var names := AppendNames(strings, pairs);
    NamesWritten(d, offsets);
    ghost var m := ImageFor(d, offsets, pool);
    PlainBlobs(d, blobs.value.signals, names, offsets, m);
    var sections := Assemble(|d|, blobs.value, names, strings.data, d, offsets, m);
    r := Ok(sections);
  }

  lemma {:induction false} PlainBlobs(d: Design, signals: seq<Byte>, names: seq<Byte>, offsets: Offsets, m: Image)
    requires SignalsEncoded(signals, d, offsets) && names == PackRows(NameRows(NamesFor(d, offsets)))
    requires m.signals == SignalsFor(d, offsets) && m.names == NamesFor(d, offsets) && |m.names| == |d|
    ensures SectionIs(Blob(signals, |d|), m, SIGNALS) && SectionIs(Blob(names, |d|), m, NAME_INDEX)
    ensures SectionIs(Blob(m.pool, |m.pool|), m, STRINGS)
  {}

  /** The list of blobs and counts handed to `_pack_sections`. */
  method Assemble(n: int, b: Blobs, names: seq<Byte>, pool: seq<Byte>, ghost d: Design, ghost offsets: Offsets, ghost m: Image)
    returns (sections: seq<Blob>)
    requires Reported(d) && n == |d|
    requires m.drivers == TableFor(d, DRIVERS, offsets) && m.loads == TableFor(d, LOADS, offsets) && m.ports == TableFor(d, PORTS, offsets)
    requires GroupEncoded(b.drivers, DRIVERS, d, offsets) && GroupEncoded(b.loads, LOADS, d, offsets)
    requires GroupEncoded(b.ports, PORTS, d, offsets)
    requires SectionIs(Blob(b.signals, n), m, SIGNALS) && SectionIs(Blob(names, n), m, NAME_INDEX)
    requires SectionIs(Blob(pool, |pool|), m, STRINGS)
    ensures sections == BlobsOf(m)
  {
    var driverRecords, driverStarts := CloseGroup(b.drivers, DRIVERS, n, d, offsets, m);
    var loadRecords, loadStarts := CloseGroup(b.loads, LOADS, n, d, offsets, m);
    var portRecords, portStarts := CloseGroup(b.ports, PORTS, n, d, offsets, m);
    var signals, index, strings := Blob(b.signals, n), Blob(names, n), Blob(pool, |pool|);
    sections := [signals, index, driverRecords, driverStarts, loadRecords, loadStarts, portRecords, portStarts, strings];
    NineSections(signals, index, driverRecords, driverStarts, loadRecords, loadStarts, portRecords, portStarts, strings, m);
  }

  lemma {:induction false} NineSections(
    b0: Blob, b1: Blob, b2: Blob, b3: Blob, b4: Blob, b5: Blob, b6: Blob, b7: Blob, b8: Blob, m: Image)
    requires SectionIs(b0, m, 0) && SectionIs(b1, m, 1) && SectionIs(b2, m, 2)
    requires SectionIs(b3, m, 3) && SectionIs(b4, m, 4) && SectionIs(b5, m, 5)
    requires SectionIs(b6, m, 6) && SectionIs(b7, m, 7) && SectionIs(b8, m, 8)
    ensures [b0, b1, b2, b3, b4, b5, b6, b7, b8] == BlobsOf(m)
  {
    assert Unfold(0);
  }

  lemma {:induction false} WrittenOrTooBig(d: Design, f: Result<seq<Byte>>, offsets: Offsets, pool: seq<Byte>)
    requires Reported(d) && PoolOk(pool, offsets) && offsets.Keys == DesignTexts(d)
    requires f.Ok? <==> Packable(BlobsOf(ImageFor(d, offsets, pool)))
    requires f.Ok? ==> Packed(f.value, BlobsOf(ImageFor(d, offsets, pool)))
    ensures f.Err? ==> !Acceptable(d)
    ensures f.Ok? ==> Converted(d, f.value)
    ensures f.Ok? && Acceptable(d) ==> |f.value| < TWO63
  {
    if Acceptable(d) {
      AcceptablePacks(d, offsets, pool);
    }
    if f.Ok? {
      assert ConvertedWith(d, f.value, offsets, pool);
    }
  }

  /** `convert`: fails on a full string pool, and otherwise writes the design or, for a
      design no reader would accept anyway, may fail to pack it. */
  method Convert(d: Design) returns (r: Result<seq<Byte>>)
    requires Reported(d)
    ensures r == Err(PoolLimit) <==> PoolSize(DesignTexts(d)) > POOL_LIMIT
    ensures r.Err? && r.error != PoolLimit ==> !Acceptable(d)
    ensures r.Ok? ==> Converted(d, r.value)
    ensures r.Ok? ==> (Accepts(r.value) <==> Acceptable(d))
    ensures r.Ok? && Acceptable(d) ==> |r.value| < TWO63 && Denotes(Parse(r.value)) == EncodeDesign(d)
  {
    var sections, offsets, pool := Gather(d);
    if sections.Err? {
      return Err(sections.error);
    }
    r := PackSections(sections.value);
    WrittenOrTooBig(d, r, offsets, pool);
    if r.Ok? {
      ConvertedRoundTrip(d, r.value);
    }
  }
}
