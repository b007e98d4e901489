/** The image the converter writes for a design, as a function of the design and of
    the offsets its string pool assigned. */
module WriterImage {
  import opened Bytes
  import opened Utf8
  import opened DesignModel
  import opened Groups
  import opened Layout
  import opened Image
  import opened StringPool
  import NameSort

  type Design = seq<Signal<Text>>

  function EdgesFor(s: Signal<Text>, k: int): seq<Edge<Text>>
    requires IsGroup(k)
  {
    if k == DRIVERS then s.drivers else if k == LOADS then s.loads else s.ports
  }

  // ---- Texts of a design ----

  ghost function EdgeTexts(es: seq<Edge<Text>>): set<Text> {
    if es == [] then {} else EdgeTexts(es[..|es| - 1]) + Members(es[|es| - 1].texts)
  }

  ghost function SignalTexts(s: Signal<Text>): set<Text> {
    Members([s.name, s.kind, s.file]) + EdgeTexts(s.drivers) + EdgeTexts(s.loads) + EdgeTexts(s.ports)
  }

  /** Every text a conversion interns; the empty text is always in the pool. */
  ghost function DesignTexts(d: Design): set<Text> {
    if d == [] then {[]} else DesignTexts(d[..|d| - 1]) + SignalTexts(d[|d| - 1])
  }

  // ---- Raw records ----

  function Ref(offsets: Offsets, t: Text): Word {
    if t in offsets && 0 <= offsets[t] < TWO32 then offsets[t] else 0
  }

  function RawSignalOf(s: Signal<Text>, offsets: Offsets): RawSignal {
    RawSignal(Ref(offsets, s.name), Ref(offsets, s.kind), Ref(offsets, s.file), s.width, s.line, s.direction)
  }

  function RawRecordOf(owner: int, e: Edge<Text>, offsets: Offsets): RawRecord {
    RawRecord(owner, e.other, Map(t => Ref(offsets, t), e.texts), e.line)
  }

  function SignalsFor(d: Design, offsets: Offsets): seq<RawSignal> {
    Map(s => RawSignalOf(s, offsets), d)
  }

  function RecordsOf(owner: int, es: seq<Edge<Text>>, offsets: Offsets): seq<RawRecord> {
    Map(e => RawRecordOf(owner, e, offsets), es)
  }

  /** The records of all signals of `d`, signal by signal. */
  function RecordsFor(d: Design, k: int, offsets: Offsets): seq<RawRecord>
    requires IsGroup(k)
  {
    if d == [] then []
    else RecordsFor(d[..|d| - 1], k, offsets) + RecordsOf(|d| - 1, EdgesFor(d[|d| - 1], k), offsets)
  }

  /** Number of records of `d` in group `k`. */
  function Total(d: Design, k: int): nat
    requires IsGroup(k)
  {
    if d == [] then 0 else Total(d[..|d| - 1], k) + |EdgesFor(d[|d| - 1], k)|
  }

  function StartsFor(d: Design, k: int): (ss: seq<int>)
    requires IsGroup(k)
    ensures |ss| == |d| + 1 && ss[|d|] == Total(d, k)
  {
    (if d == [] then [] else StartsFor(d[..|d| - 1], k)) + [Total(d, k)]
  }

  function TableFor(d: Design, k: int, offsets: Offsets): Table
    requires IsGroup(k)
  {
    Table(StartsFor(d, k), RecordsFor(d, k, offsets))
  }

  function NameTexts(d: Design): seq<Text> {
    Map((s: Signal<Text>) => s.name, d)
  }

  function RawNames(pairs: seq<NameSort.Pair>, offsets: Offsets): seq<RawName> {
    Map((x: NameSort.Pair) => RawName(Ref(offsets, x.0), x.1), pairs)
  }

  function NamesFor(d: Design, offsets: Offsets): seq<RawName> {
    RawNames(NameSort.Sort(NameSort.Pairs(NameTexts(d))), offsets)
  }

  function ImageFor(d: Design, offsets: Offsets, pool: seq<Byte>): Image {
    Image(SignalsFor(d, offsets), NamesFor(d, offsets), TableFor(d, DRIVERS, offsets),
          TableFor(d, LOADS, offsets), TableFor(d, PORTS, offsets), pool)
  }

  // ---- Starts and groups of a written table ----

  lemma {:induction false} TotalIsLength(d: Design, k: int, offsets: Offsets)
    requires IsGroup(k)
    ensures |RecordsFor(d, k, offsets)| == Total(d, k)
  {
    if d != [] {
      TotalIsLength(d[..|d| - 1], k, offsets);
    }
  }

  lemma {:induction false} StartsPrefix(d: Design, k: int, s: int)
    requires IsGroup(k) && 0 <= s <= |d|
    ensures StartsFor(d, k)[s] == Total(d[..s], k)
    ensures StartsFor(d, k)[..s + 1] == StartsFor(d[..s], k)
  {
    if s < |d| {
      var init := d[..|d| - 1];
      StartsPrefix(init, k, s);
      assert init[..s] == d[..s];
      assert StartsFor(d, k)[..s + 1] == StartsFor(init, k)[..s + 1];
    } else {
      assert d[..s] == d;
    }
  }

  lemma {:induction false} TotalNext(d: Design, k: int, s: int)
    requires IsGroup(k) && 0 <= s < |d|
    ensures Total(d[..s + 1], k) == Total(d[..s], k) + |EdgesFor(d[s], k)|
  {
    assert d[..s + 1][..s] == d[..s];
  }

  lemma {:induction false} TotalMonotone(d: Design, k: int, s: int)
    requires IsGroup(k) && 0 <= s <= |d|
    ensures Total(d[..s], k) <= Total(d, k)
    decreases |d| - s
  {
    if s < |d| {
      TotalNext(d, k, s);
      TotalMonotone(d, k, s + 1);
    } else {
      assert d[..s] == d;
    }
  }

  lemma {:induction false} RecordsPrefix(d: Design, k: int, offsets: Offsets, s: int)
    requires IsGroup(k) && 0 <= s <= |d|
    ensures RecordsFor(d[..s], k, offsets) <= RecordsFor(d, k, offsets)
    decreases |d|
  {
    if s < |d| {
      var init := d[..|d| - 1];
      RecordsPrefix(init, k, offsets, s);
      assert init[..s] == d[..s];
    } else {
      assert d[..s] == d;
    }
  }

  /** The written starts array is acceptable, and each group holds its signal's records. */
  lemma {:induction false} WrittenStarts(d: Design, k: int, offsets: Offsets)
    requires IsGroup(k)
    ensures StartsOk(StartsFor(d, k), |d|, |RecordsFor(d, k, offsets)|)
  {
    TotalIsLength(d, k, offsets);
    var ss := StartsFor(d, k);
    StartsPrefix(d, k, 0);
    assert d[..0] == [];
    forall s | 0 <= s < |d|
      ensures StepOk(ss, s, Total(d, k))
    {
      WrittenBounds(d, k, s);
    }
  }

  /** Where the records of signal `s` are. */
  lemma {:induction false} WrittenBounds(d: Design, k: int, s: int)
    requires IsGroup(k) && 0 <= s < |d|
    ensures StartsFor(d, k)[s] == Total(d[..s], k)
    ensures StartsFor(d, k)[s + 1] == Total(d[..s], k) + |EdgesFor(d[s], k)| <= Total(d, k)
  {
    StartsPrefix(d, k, s);
    StartsPrefix(d, k, s + 1);
    TotalNext(d, k, s);
    TotalMonotone(d, k, s + 1);
  }

  lemma {:induction false} WrittenSlice(d: Design, k: int, offsets: Offsets, s: int)
    requires IsGroup(k) && 0 <= s < |d|
    ensures Total(d[..s], k) + |EdgesFor(d[s], k)| <= |RecordsFor(d, k, offsets)|
    ensures RecordsFor(d, k, offsets)[Total(d[..s], k)..Total(d[..s], k) + |EdgesFor(d[s], k)|]
         == RecordsOf(s, EdgesFor(d[s], k), offsets)
  {
    TotalIsLength(d[..s], k, offsets);
    RecordsPrefix(d, k, offsets, s + 1);
    assert d[..s + 1][..s] == d[..s];
    PrefixSlice(RecordsFor(d, k, offsets), RecordsFor(d[..s], k, offsets), RecordsOf(s, EdgesFor(d[s], k), offsets));
  }

  lemma {:induction false} WrittenGroup(d: Design, k: int, offsets: Offsets, s: int)
    requires IsGroup(k) && 0 <= s < |d|
    ensures GroupOf(StartsFor(d, k), RecordsFor(d, k, offsets), s) == RecordsOf(s, EdgesFor(d[s], k), offsets)
  {
    WrittenBounds(d, k, s);
    WrittenSlice(d, k, offsets, s);
  }

  lemma {:induction false} WrittenPart(d: Design, k: int, offsets: Offsets, s: int) returns (part: seq<RawRecord>)
    requires IsGroup(k) && 0 <= s < |d|
    ensures |part| == |EdgesFor(d[s], k)|
    ensures forall j :: 0 <= j < |part| ==> part[j] == RawRecordOf(s, EdgesFor(d[s], k)[j], offsets)
    ensures 0 <= StartsFor(d, k)[s] && StartsFor(d, k)[s] + |part| == StartsFor(d, k)[s + 1] <= |RecordsFor(d, k, offsets)|
    ensures RecordsFor(d, k, offsets)[StartsFor(d, k)[s]..StartsFor(d, k)[s + 1]] == part
  {
    WrittenBounds(d, k, s);
    WrittenSlice(d, k, offsets, s);
    part := RecordsOf(s, EdgesFor(d[s], k), offsets);
  }

  /** Record `j` of signal `s` in the written table. */
  lemma {:induction false} WrittenAt(d: Design, k: int, offsets: Offsets, s: int, j: int)
    requires IsGroup(k) && 0 <= s < |d| && 0 <= j < |EdgesFor(d[s], k)|
    ensures var r := StartsFor(d, k)[s] + j;
            && 0 <= r < |RecordsFor(d, k, offsets)| && InGroup(StartsFor(d, k), s, r)
            && RecordsFor(d, k, offsets)[r] == RawRecordOf(s, EdgesFor(d[s], k)[j], offsets)
  {
    var part := WrittenPart(d, k, offsets, s);
    GroupAt(StartsFor(d, k), RecordsFor(d, k, offsets), part, s, j);
  }

  /** A record in the group of signal `s` is one of that signal's. */
  lemma {:induction false} WrittenFor(d: Design, k: int, offsets: Offsets, s: int, r: int) returns (j: int)
    requires IsGroup(k) && 0 <= s < |d| && 0 <= r < |RecordsFor(d, k, offsets)| && InGroup(StartsFor(d, k), s, r)
    ensures 0 <= j < |EdgesFor(d[s], k)| && RecordsFor(d, k, offsets)[r] == RawRecordOf(s, EdgesFor(d[s], k)[j], offsets)
  {
    WrittenBounds(d, k, s);
    j := r - StartsFor(d, k)[s];
    WrittenAt(d, k, offsets, s, j);
  }

  lemma {:induction false} GroupAt<T>(starts: seq<int>, records: seq<T>, part: seq<T>, s: int, j: int)
    requires 0 <= s < |starts| - 1 && 0 <= starts[s] && starts[s] + |part| == starts[s + 1] <= |records|
    requires records[starts[s]..starts[s + 1]] == part && 0 <= j < |part|
    ensures InGroup(starts, s, starts[s] + j) && records[starts[s] + j] == part[j]
  {
    assert records[starts[s]..starts[s + 1]][j] == records[starts[s] + j];
  }

  lemma {:induction false} PrefixSlice<T>(whole: seq<T>, a: seq<T>, b: seq<T>)
    requires a + b <= whole
    ensures whole[|a|..|a| + |b|] == b
  {
    assert whole[..|a| + |b|] == a + b;
  }
}
