/** The parity check as a whole: when the snapshot of an accepted file succeeds, how its own
    binary search answers, and what it lists for a converted design. */
module ParityCheck {
  import opened Bytes
  import opened Utf8
  import opened DesignModel
  import opened Image
  import Layout
  import opened BinaryFile
  import opened Accepted
  import opened ParityReader
  import opened ParityTheorem
  import opened RoundTrip
  import opened Resolver
  import opened WriterImage
  import Converter
  import ConvertedNames
  import NameSort

  // ---- When the snapshot succeeds ----

  predicate IsUtf8(s: Str) { Decode(s).Some? }

  predicate EdgeUtf8(e: Edge<Str>) {
    forall j :: 0 <= j < |e.texts| ==> IsUtf8(e.texts[j])
  }

  predicate EdgesUtf8(es: seq<Edge<Str>>) {
    forall j :: 0 <= j < |es| ==> EdgeUtf8(es[j])
  }

  predicate SignalUtf8(s: Signal<Str>) {
    && IsUtf8(s.name) && IsUtf8(s.kind) && IsUtf8(s.file)
    && EdgesUtf8(s.drivers) && EdgesUtf8(s.loads) && EdgesUtf8(s.ports)
  }

  /** Every string the file's records and name index refer to is UTF-8. */
  ghost predicate AllUtf8(f: seq<Byte>)
    requires Accepts(f)
  {
    && (forall i :: 0 <= i < N(f) ==> SignalUtf8(Denotes(Parse(f))[i]))
    && forall p :: 0 <= p < N(f) ==> IndexIn(f)[p].name.Some? && IsUtf8(IndexIn(f)[p].name.value)
  }

  function Read(s: Str): Text { if IsUtf8(s) then Decode(s).value else [] }

  lemma {:induction false} EdgesReread(es: seq<Edge<Str>>)
    requires EdgesUtf8(es)
    ensures EncodeEdges(Map((e: Edge<Str>) => MapEdge((s: Str) => Read(s), e), es)) == es
  {
    var ts := Map((e: Edge<Str>) => MapEdge((s: Str) => Read(s), e), es);
    forall j | 0 <= j < |es|
      ensures EncodeEdges(ts)[j] == es[j]
    {
      assert EdgeUtf8(es[j]);
      forall q | 0 <= q < |es[j].texts|
        ensures Encode(Read(es[j].texts[q])) == es[j].texts[q]
      {
        EncodeDecode(es[j].texts[q]);
      }
      assert EncodeEdges(ts)[j].texts == es[j].texts;
    }
  }

  lemma {:induction false} SignalReread(s: Signal<Str>)
    requires SignalUtf8(s)
    ensures SignalEncodes(MapSignal((b: Str) => Read(b), s), s)
  {
    EncodeDecode(s.name);
    EncodeDecode(s.kind);
    EncodeDecode(s.file);
    EdgesReread(s.drivers);
    EdgesReread(s.loads);
    EdgesReread(s.ports);
    var t := MapSignal((b: Str) => Read(b), s);
    assert FactsEncode(FactsOf(t), s);
  }

  lemma {:induction false} EncodedEdgesUtf8(ts: seq<Edge<Text>>)
    ensures EdgesUtf8(EncodeEdges(ts))
  {
    var es := EncodeEdges(ts);
    forall j, q | 0 <= j < |es| && 0 <= q < |es[j].texts|
      ensures IsUtf8(es[j].texts[q])
    {
      DecodeEncode(ts[j].texts[q]);
    }
  }

  lemma {:induction false} EncodedSignalUtf8(t: Signal<Text>, s: Signal<Str>)
    requires SignalEncodes(t, s)
    ensures SignalUtf8(s)
  {
    DecodeEncode(t.name);
    DecodeEncode(t.kind);
    DecodeEncode(t.file);
    EncodedEdgesUtf8(t.drivers);
    EncodedEdgesUtf8(t.loads);
    EncodedEdgesUtf8(t.ports);
  }

  /** The design and index that successful parts list. */
  function Listing(p: Parts): (d: seq<Signal<Text>>)
    requires p.AllOk() && |p.signals.value| == |p.drivers.value| == |p.loads.value| == |p.ports.value|
    ensures PartsFor(d, p.names.value) == p
  {
    var s := p.signals.value;
    var d := seq(|s|, i requires 0 <= i < |s| =>
      Signal(s[i].name, s[i].kind, s[i].file, s[i].width, s[i].line, s[i].direction,
             p.drivers.value[i], p.loads.value[i], p.ports.value[i]));
    assert forall i :: 0 <= i < |s| ==> FactsOf(d[i]) == s[i];
    assert Map(x => FactsOf(x), d) == s;
    assert Map((x: Signal<Text>) => x.drivers, d) == p.drivers.value;
    assert Map((x: Signal<Text>) => x.loads, d) == p.loads.value;
    assert Map((x: Signal<Text>) => x.ports, d) == p.ports.value;
    d
  }

  lemma {:induction false} PartLengths(f: seq<Byte>)
    requires Accepts(f) && PartsOf(f).AllOk()
    ensures var p := PartsOf(f);
            |p.signals.value| == |p.drivers.value| == |p.loads.value| == |p.ports.value| == N(f)
  {
    var p := PartsOf(f);
    SignalsPart(f, p.signals.value);
    GroupsPart(f, Layout.DRIVERS, p.drivers.value);
    GroupsPart(f, Layout.LOADS, p.loads.value);
    GroupsPart(f, Layout.PORTS, p.ports.value);
  }

  lemma {:induction false} ListedUtf8(f: seq<Byte>, d: seq<Signal<Text>>, names: seq<(Text, int)>)
    requires Accepts(f) && Denotes(Parse(f)) == EncodeDesign(d) && IndexIn(f) == EncodeIndex(names)
    ensures AllUtf8(f)
  {
    DesignEncodes(d, Denotes(Parse(f)));
    forall i | 0 <= i < N(f)
      ensures SignalUtf8(Denotes(Parse(f))[i])
    {
      EncodedSignalUtf8(d[i], Denotes(Parse(f))[i]);
    }
    forall p | 0 <= p < N(f)
      ensures IndexIn(f)[p].name.Some? && IsUtf8(IndexIn(f)[p].name.value)
    {
      DecodeEncode(names[p].0);
    }
  }

  function RereadDesign(ds: seq<Signal<Str>>): seq<Signal<Text>> {
    Map((s: Signal<Str>) => MapSignal((b: Str) => Read(b), s), ds)
  }

  function RereadIndex(es: seq<Entry>): seq<(Text, int)> {
    Map((e: Entry) => (if e.name.Some? then Read(e.name.value) else [], e.signal), es)
  }

  lemma {:induction false} Reread(f: seq<Byte>)
    requires Accepts(f) && AllUtf8(f)
    ensures Denotes(Parse(f)) == EncodeDesign(RereadDesign(Denotes(Parse(f))))
    ensures IndexIn(f) == EncodeIndex(RereadIndex(IndexIn(f)))
  {
    var ds, es := Denotes(Parse(f)), IndexIn(f);
    forall i | 0 <= i < |ds|
      ensures SignalEncodes(RereadDesign(ds)[i], ds[i])
    {
      SignalReread(ds[i]);
    }
    DesignEncodes(RereadDesign(ds), ds);
    forall p | 0 <= p < |es|
      ensures EncodeIndex(RereadIndex(es))[p] == es[p]
    {
      EncodeDecode(es[p].name.value);
    }
  }

  /** On a file the C++ reader accepts, the snapshot raises no error exactly when every string is
      UTF-8, and then it lists a design and an index whose encodings are what that reader presents. */
  lemma {:induction false} SnapshotSucceeds(f: seq<Byte>)
    requires Accepts(f)
    ensures PartsOf(f).AllOk() <==> AllUtf8(f)
    ensures PartsOf(f).AllOk() ==>
              var p := PartsOf(f);
              && |p.signals.value| == |p.drivers.value| == |p.loads.value| == |p.ports.value|
              && Denotes(Parse(f)) == EncodeDesign(Listing(p))
              && IndexIn(f) == EncodeIndex(p.names.value)
  {
    var p := PartsOf(f);
    if p.AllOk() {
      PartLengths(f);
      var d := Listing(p);
      SnapshotMeans(f, d, p.names.value);
      ListedUtf8(f, d, p.names.value);
    }
    if AllUtf8(f) {
      Reread(f);
      var d, names := RereadDesign(Denotes(Parse(f))), RereadIndex(IndexIn(f));
      SnapshotMeans(f, d, names);
      assert PartsFor(d, names).AllOk();
    }
  }

  // ---- The snapshot's own binary search ----

  ghost predicate CodePointOrdered(names: seq<(Text, int)>) {
    forall p, q :: 0 <= p < q < |names| ==> LexLess(names[p].0, names[q].0)
  }

  lemma {:induction false} BisectMiss(names: seq<(Text, int)>, t: Text, low: nat, high: nat)
    requires low <= high <= |names| && forall p :: low <= p < high ==> names[p].0 != t
    ensures Bisect(names, t, low, high) == -1
    decreases high - low
  {
    if low < high {
      var middle := low + (high - low) / 2;
      BisectMiss(names, t, low, middle);
      BisectMiss(names, t, middle + 1, high);
    }
  }

  lemma {:induction false} BisectHit(names: seq<(Text, int)>, t: Text, low: nat, high: nat, p: nat)
    requires CodePointOrdered(names) && low <= p < high <= |names| && names[p].0 == t
    ensures Bisect(names, t, low, high) == names[p].1
    decreases high - low
  {
    var middle := low + (high - low) / 2;
    LexTrichotomy(t, names[middle].0);
    if p < middle {
      BisectHit(names, t, low, middle, p);
    } else if p > middle {
      BisectHit(names, t, middle + 1, high, p);
    }
  }

  lemma {:induction false} IndexIncreases(n: int, names: seq<(Text, int)>)
    requires NamesOk(n, EncodeIndex(names))
    ensures CodePointOrdered(names)
  {
    var es := EncodeIndex(names);
    IndexPermutation(n, es);
    forall p, q | 0 <= p < q < |names|
      ensures LexLess(names[p].0, names[q].0)
    {
      assert IndexNames(n, es)[p] == Encode(names[p].0) && IndexNames(n, es)[q] == Encode(names[q].0);
      OrderPreserved(names[p].0, names[q].0);
    }
  }

  /** Searching the texts by code point order gives what the C++ reader finds for their bytes. */
  lemma {:induction false} BisectIsLookup(n: int, names: seq<(Text, int)>, t: Text)
    requires NamesOk(n, EncodeIndex(names))
    ensures Bisect(names, t, 0, |names|) == Lookup(EncodeIndex(names), Encode(t))
  {
    var es := EncodeIndex(names);
    IndexIncreases(n, names);
    if p :| 0 <= p < |names| && names[p].0 == t {
      BisectHit(names, t, 0, |names|, p);
      LookupUnique(n, es, Encode(t), p);
    } else {
      BisectMiss(names, t, 0, |names|);
      forall p | 0 <= p < |es|
        ensures es[p].name != Some(Encode(t))
      {
        if Encode(names[p].0) == Encode(t) {
          EncodeInjective(names[p].0, t);
          assert false;
        }
      }
      LookupMiss(es, Encode(t));
    }
  }

  // ---- Converted designs ----

  function NameIndex(d: Design): seq<(Text, int)> { NameSort.Sort(NameSort.Pairs(NameTexts(d))) }

  /** The snapshot of a converted design lists that design and its sorted names. */
  lemma {:induction false} ConvertedSnapshot(d: Design, f: seq<Byte>)
    requires Reported(d) && Converter.Converted(d, f) && Acceptable(d)
    ensures Accepts(f) && PartsOf(f) == PartsFor(d, NameIndex(d))
  {
    ConvertedEntries(d, f);
    Converter.ConvertedRoundTrip(d, f);
    SnapshotMeans(f, d, NameIndex(d));
  }

  lemma {:induction false} IndexBisects(names: seq<Str>, index: seq<(Text, int)>, t: Text)
    requires NamesOk(|names|, EncodeIndex(index)) && ConvertedNames.OwnNames(names, EncodeIndex(index))
    ensures Bisect(index, t, 0, |index|) == ConvertedNames.Scan(names, Encode(t))
  {
    BisectIsLookup(|names|, index, t);
    ConvertedNames.LookupIsScan(names, EncodeIndex(index), Encode(t));
  }

  /** Its own search is the linear scan of the signal names, for every text. */
  lemma {:induction false} ConvertedBisect(d: Design, f: seq<Byte>, t: Text)
    requires Reported(d) && Converter.Converted(d, f) && Acceptable(d)
    ensures Bisect(NameIndex(d), t, 0, |NameIndex(d)|) == ConvertedNames.Scan(ConvertedNames.EncodedNames(d), Encode(t))
  {
    ConvertedNames.ConvertedIndex(d, f);
    ConvertedEntries(d, f);
    AcceptedIndex(f);
    IndexBisects(ConvertedNames.EncodedNames(d), NameIndex(d), t);
  }

  /** An entry of the sorted index scans to its own signal. */
  lemma {:induction false} EntryScans(d: Design, p: int)
    requires NameSort.AllDistinct(NameTexts(d)) && 0 <= p < |NameIndex(d)|
    ensures ConvertedNames.Scan(ConvertedNames.EncodedNames(d), Encode(NameIndex(d)[p].0)) == NameIndex(d)[p].1
  {
    NameSort.SortNames(NameTexts(d));
    ConvertedNames.OwnNameScans(d, NameIndex(d)[p].1);
  }

  lemma {:induction false} ConvertedEntries(d: Design, f: seq<Byte>)
    requires Reported(d) && Converter.Converted(d, f) && Acceptable(d)
    ensures Accepts(f) && IndexIn(f) == EncodeIndex(NameIndex(d))
  {
    var offsets, pool := ConvertedNames.ParsedConverted(d, f);
    WrittenEntries(d, offsets, pool);
    assert IndexIn(f) == Entries(Parse(f).pool, Parse(f).names);
  }
}
