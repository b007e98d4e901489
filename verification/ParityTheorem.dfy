/** What the parity checker's snapshot lists, on every file the C++ reader accepts. */
module ParityTheorem {
  import opened Bytes
  import opened Utf8
  import opened DesignModel
  import opened Layout
  import opened Image
  import opened BinaryFile
  import opened Accepted
  import opened ParityReader
  import opened ParityAgreement
  import opened RoundTrip
  import WriterFile
  import Backend

  // ---- The parts of a snapshot, as decodings ----

  function DecodeEntry(decode: Codec, e: Entry): Result<(Text, int)> {
    match e.name
    case None => Err(PackRange)
    case Some(s) =>
      match DecodeAs(decode, s)
      case Err(x) => Err(x)
      case Ok(t) => Ok((t, e.signal))
  }

  lemma {:induction false} NameReads(f: seq<Byte>, at: PoolAt, pool: seq<Byte>, o: int, r: RawName)
    requires At(f, at, pool) && PoolString(pool, r.name).Some?
    requires Unpack(f, o, 2).Ok? && r.name == Unpack(f, o, 2).value[0] && r.signal == AsI32(Unpack(f, o, 2).value[1])
    ensures ReadName(f, at, o) == DecodeEntry(at.decode, Entry(PoolString(pool, r.name), r.signal))
  {
    TextDecodes(f, at, pool, r.name);
  }

  lemma {:induction false} NameAgrees(f: seq<Byte>, at: PoolAt, p: int)
    requires Accepts(f) && 0 <= p < N(f) && At(f, at, Pool(f))
    ensures ReadName(f, at, Place(Offset(f, NAME_INDEX), NAME_INDEX, p)) == DecodeEntry(at.decode, IndexIn(f)[p])
  {
    AcceptedIndex(f);
    assert EntryOk(N(f), IndexIn(f)[p], Prior(IndexIn(f), p));
    assert NamesIn(f)[p] == NameAt(f, p);
    UnpackFields(f, NAME_INDEX, p, 2);
    NameReads(f, at, Pool(f), Place(Offset(f, NAME_INDEX), NAME_INDEX, p), NamesIn(f)[p]);
  }

  lemma {:induction false} StartAgrees(f: seq<Byte>, k: int, s: int)
    requires |f| >= HEADER_SIZE && IsGroup(k) && SectionFits(f, k + 1) && 0 <= s < Count(f, k + 1)
    ensures ReadStart(f, Place(Offset(f, k + 1), k + 1, s)) == Ok(StartsIn(f, k)[s])
  {
    assert Width(k + 1) == 8;
    UnpackFields(f, k + 1, s, 2);
    WriterFile.StartFields(f, k, s);
  }

  /** A loop that collects `xs` yields exactly its elements. */
  lemma {:induction false} CollectIs<T>(g: int -> Result<T>, n: nat, xs: seq<T>)
    ensures CollectAll(g, n) == Ok(xs) <==> |xs| == n && forall i :: 0 <= i < n ==> g(i) == Ok(xs[i])
  {
    CollectAllMeans(g, n);
    if |xs| == n && forall i :: 0 <= i < n ==> g(i) == Ok(xs[i]) {
      var r := CollectAll(g, n);
      assert forall i :: 0 <= i < n ==> r.value[i] == xs[i];
      assert r.value == xs;
    }
  }

  // ---- Decoding inverts encoding, text by text, record by record ----

  ghost predicate Inverts(decode: Codec) {
    forall b: Str, t: Text :: decode(b) == Some(t) <==> b == Encode(t)
  }

  lemma {:induction false} TextsMean(decode: Codec, ss: seq<Str>, ts: seq<Text>)
    requires Inverts(decode)
    ensures DecodeTexts(decode, ss) == Ok(ts) <==> ss == Map((t: Text) => Encode(t), ts)
  {
    var g := j => if 0 <= j < |ss| then DecodeAs(decode, ss[j]) else Err(PackRange);
    CollectIs(g, |ss|, ts);
    if |ss| == |ts| {
      forall j | 0 <= j < |ss|
        ensures g(j) == Ok(ts[j]) <==> ss[j] == Encode(ts[j])
      {
        assert decode(ss[j]) == Some(ts[j]) <==> ss[j] == Encode(ts[j]);
      }
    }
  }

  lemma {:induction false} EdgeMeans(decode: Codec, e: Edge<Str>, t: Edge<Text>)
    requires Inverts(decode)
    ensures DecodeEdge(decode, e) == Ok(t) <==> e == MapEdge((x: Text) => Encode(x), t)
  {
    TextsMean(decode, e.texts, t.texts);
  }

  function EncodeEdges(ts: seq<Edge<Text>>): seq<Edge<Str>> {
    Map((e: Edge<Text>) => MapEdge((x: Text) => Encode(x), e), ts)
  }

  lemma {:induction false} EdgesMean(decode: Codec, es: seq<Edge<Str>>, ts: seq<Edge<Text>>)
    requires Inverts(decode)
    ensures DecodeEdges(decode, es) == Ok(ts) <==> es == EncodeEdges(ts)
  {
    var g := j => if 0 <= j < |es| then DecodeEdge(decode, es[j]) else Err(PackRange);
    CollectIs(g, |es|, ts);
    if |es| == |ts| {
      forall j | 0 <= j < |es|
        ensures g(j) == Ok(ts[j]) <==> es[j] == EncodeEdges(ts)[j]
      {
        EdgeMeans(decode, es[j], ts[j]);
      }
    }
  }

  function FactsOf(s: Signal<Text>): SignalFacts {
    SignalFacts(s.name, s.kind, s.width, s.file, s.line, s.direction)
  }

  predicate FactsEncode(t: SignalFacts, s: Signal<Str>) {
    && s.name == Encode(t.name) && s.kind == Encode(t.kind) && s.file == Encode(t.file)
    && s.width == t.width && s.line == t.line && s.direction == t.direction
  }

  lemma {:induction false} FactsMean(decode: Codec, s: Signal<Str>, t: SignalFacts)
    requires Inverts(decode)
    ensures DecodeFacts(decode, s) == Ok(t) <==> FactsEncode(t, s)
  {
    var ss, ts := [s.name, s.kind, s.file], [t.name, t.kind, t.file];
    TextsMean(decode, ss, ts);
    var r := DecodeTexts(decode, ss);
    if r.Ok? && |r.value| == 3 {
      assert r.value == [r.value[0], r.value[1], r.value[2]];
    }
    var es := Map((x: Text) => Encode(x), ts);
    assert es == [Encode(t.name), Encode(t.kind), Encode(t.file)];
    assert ss == es <==> ss[0] == es[0] && ss[1] == es[1] && ss[2] == es[2];
  }

  lemma {:induction false} EntryMeans(decode: Codec, e: Entry, t: (Text, int))
    requires Inverts(decode)
    ensures DecodeEntry(decode, e) == Ok(t) <==> e == Entry(Some(Encode(t.0)), t.1)
  {
    if e.name.Some? {
      assert decode(e.name.value) == Some(t.0) <==> e.name.value == Encode(t.0);
    }
  }

  // ---- The parts of the snapshot of an accepted file ----

  lemma {:induction false} CodecInverts(t: Table9)
    requires |t.offsets| == |t.counts| == SECTION_COUNT
    ensures Inverts(PoolOf(t).decode)
  {
    var decode := PoolOf(t).decode;
    forall b: Str, x: Text
      ensures decode(b) == Some(x) <==> b == Encode(x)
    {
      DecodeIffEncoded(b, x);
    }
  }

  lemma {:induction false} PoolAtSection(f: seq<Byte>)
    requires |f| >= HEADER_SIZE && SectionFits(f, STRINGS)
    ensures At(f, PoolOf(SectionTable(f)), Pool(f))
  {}

  lemma {:induction false} PoolPlaced(f: seq<Byte>)
    requires Accepts(f)
    ensures At(f, PoolOf(SectionTable(f)), Pool(f)) && Inverts(PoolOf(SectionTable(f)).decode)
  {
    PoolAtSection(f);
    CodecInverts(SectionTable(f));
  }

  lemma {:induction false} SignalsPart(f: seq<Byte>, xs: seq<SignalFacts>)
    requires Accepts(f)
    ensures PartsOf(f).signals == Ok(xs) <==>
            |xs| == N(f) && forall i :: 0 <= i < N(f) ==> FactsEncode(xs[i], Denotes(Parse(f))[i])
  {
    var t := SectionTable(f);
    var at := PoolOf(t);
    PoolPlaced(f);
    var g := i => ReadSignal(f, at, Place(t.offsets[SIGNALS], SIGNALS, i));
    CollectIs(g, N(f), xs);
    if |xs| == N(f) {
      forall i | 0 <= i < N(f)
        ensures g(i) == Ok(xs[i]) <==> FactsEncode(xs[i], Denotes(Parse(f))[i])
      {
        SignalAgrees(f, at, i);
        FactsMean(at.decode, Denotes(Parse(f))[i], xs[i]);
      }
    }
  }

  lemma {:induction false} NamesPart(f: seq<Byte>, xs: seq<(Text, int)>)
    requires Accepts(f)
    ensures PartsOf(f).names == Ok(xs) <==> IndexIn(f) == EncodeIndex(xs)
  {
    var t := SectionTable(f);
    var at := PoolOf(t);
    PoolPlaced(f);
    var g := i => ReadName(f, at, Place(t.offsets[NAME_INDEX], NAME_INDEX, i));
    CollectIs(g, N(f), xs);
    if |xs| == N(f) {
      forall p | 0 <= p < N(f)
        ensures g(p) == Ok(xs[p]) <==> IndexIn(f)[p] == EncodeIndex(xs)[p]
      {
        NameAgrees(f, at, p);
        EntryMeans(at.decode, IndexIn(f)[p], xs[p]);
      }
    }
  }

  function EncodeIndex(xs: seq<(Text, int)>): seq<Entry> {
    Map((x: (Text, int)) => Entry(Some(Encode(x.0)), x.1), xs)
  }

  lemma {:induction false} StartsPart(f: seq<Byte>, k: int)
    requires Accepts(f) && IsGroup(k)
    ensures var t := SectionTable(f);
            CollectAll(i => ReadStart(f, Place(t.offsets[k + 1], k + 1, i)), t.counts[k + 1]) == Ok(StartsIn(f, k))
  {
    var t := SectionTable(f);
    var g := i => ReadStart(f, Place(t.offsets[k + 1], k + 1, i));
    forall s | 0 <= s < Count(f, k + 1)
      ensures g(s) == Ok(StartsIn(f, k)[s])
    {
      StartAgrees(f, k, s);
    }
    CollectIs(g, t.counts[k + 1], StartsIn(f, k));
  }

  lemma {:induction false} GroupsMean(
    f: seq<Byte>, at: PoolAt, t: Table9, k: int, starts: seq<int>, xs: seq<seq<Edge<Text>>>)
    requires IsGroup(k) && |t.offsets| == |t.counts| == SECTION_COUNT
    requires CollectAll(i => ReadStart(f, Place(t.offsets[k + 1], k + 1, i)), t.counts[k + 1]) == Ok(starts)
    ensures GroupsOf(f, at, t, k) == Ok(xs) <==>
            && |xs| == t.counts[SIGNALS]
            && forall i :: 0 <= i < |xs| ==> ReadGroup(f, at, t.offsets[k], k, starts, i) == Ok(xs[i])
  {
    CollectIs(s => ReadGroup(f, at, t.offsets[k], k, starts, s), t.counts[SIGNALS], xs);
  }

  lemma {:induction false} GroupMeans(f: seq<Byte>, at: PoolAt, k: int, i: int, x: seq<Edge<Text>>)
    requires Accepts(f) && IsGroup(k) && 0 <= i < N(f) && At(f, at, Pool(f)) && Inverts(at.decode)
    ensures ReadGroup(f, at, Offset(f, k), k, StartsIn(f, k), i) == Ok(x) <==>
            Backend.EdgesIn(f, k, i) == EncodeEdges(x)
  {
    GroupAgrees(f, at, k, i);
    EdgesMean(at.decode, Backend.EdgesIn(f, k, i), x);
  }

  ghost predicate GroupsEncode(f: seq<Byte>, k: int, xs: seq<seq<Edge<Text>>>)
    requires Accepts(f) && IsGroup(k)
  {
    |xs| == N(f) && forall i :: 0 <= i < N(f) ==> Backend.EdgesIn(f, k, i) == EncodeEdges(xs[i])
  }

  lemma {:induction false} GroupsPart(f: seq<Byte>, k: int, xs: seq<seq<Edge<Text>>>)
    requires Accepts(f) && IsGroup(k)
    ensures GroupsOf(f, PoolOf(SectionTable(f)), SectionTable(f), k) == Ok(xs) <==> GroupsEncode(f, k, xs)
  {
    var t := SectionTable(f);
    var at := PoolOf(t);
    PoolPlaced(f);
    StartsPart(f, k);
    GroupsMean(f, at, t, k, StartsIn(f, k), xs);
    if |xs| == N(f) {
      forall i | 0 <= i < N(f)
        ensures ReadGroup(f, at, t.offsets[k], k, StartsIn(f, k), i) == Ok(xs[i])
                <==> Backend.EdgesIn(f, k, i) == EncodeEdges(xs[i])
      {
        GroupMeans(f, at, k, i, xs[i]);
      }
    }
  }

  // ---- The two readers agree ----

  function PartsFor(d: seq<Signal<Text>>, names: seq<(Text, int)>): Parts {
    Parts(Ok(Map(s => FactsOf(s), d)), Ok(names),
          Ok(Map((s: Signal<Text>) => s.drivers, d)), Ok(Map((s: Signal<Text>) => s.loads, d)),
          Ok(Map((s: Signal<Text>) => s.ports, d)))
  }

  predicate SignalEncodes(t: Signal<Text>, s: Signal<Str>) {
    && FactsEncode(FactsOf(t), s)
    && s.drivers == EncodeEdges(t.drivers) && s.loads == EncodeEdges(t.loads) && s.ports == EncodeEdges(t.ports)
  }

  lemma {:induction false} DesignEncodes(d: seq<Signal<Text>>, ds: seq<Signal<Str>>)
    ensures ds == EncodeDesign(d) <==> |d| == |ds| && forall i :: 0 <= i < |d| ==> SignalEncodes(d[i], ds[i])
  {
    if |d| == |ds| {
      forall i | 0 <= i < |d|
        ensures ds[i] == EncodeDesign(d)[i] <==> SignalEncodes(d[i], ds[i])
      {
        assert EncodeDesign(d)[i] == MapSignal((t: Text) => Encode(t), d[i]);
        EncodedSignal(d[i], ds[i]);
      }
    }
  }

  lemma {:induction false} EncodedSignal(t: Signal<Text>, s: Signal<Str>)
    ensures s == MapSignal((x: Text) => Encode(x), t) <==> SignalEncodes(t, s)
  {
    var m := MapSignal((x: Text) => Encode(x), t);
    assert m.drivers == EncodeEdges(t.drivers);
    assert m.loads == EncodeEdges(t.loads);
    assert m.ports == EncodeEdges(t.ports);
  }

  ghost predicate EdgesEncode(f: seq<Byte>, d: seq<Signal<Text>>)
    requires Accepts(f)
  {
    && GroupsEncode(f, DRIVERS, Map((s: Signal<Text>) => s.drivers, d))
    && GroupsEncode(f, LOADS, Map((s: Signal<Text>) => s.loads, d))
    && GroupsEncode(f, PORTS, Map((s: Signal<Text>) => s.ports, d))
  }

  /** A design of texts encodes to the file's design exactly when its facts and edges do. */
  lemma {:induction false} DenotedEncodes(f: seq<Byte>, d: seq<Signal<Text>>)
    requires Accepts(f)
    ensures Denotes(Parse(f)) == EncodeDesign(d) <==>
            && |d| == N(f)
            && (forall i :: 0 <= i < N(f) ==> FactsEncode(FactsOf(d[i]), Denotes(Parse(f))[i]))
            && EdgesEncode(f, d)
  {
    DesignEncodes(d, Denotes(Parse(f)));
    forall i | 0 <= i < N(f)
      ensures Denotes(Parse(f))[i].drivers == Backend.EdgesIn(f, DRIVERS, i)
      ensures Denotes(Parse(f))[i].loads == Backend.EdgesIn(f, LOADS, i)
      ensures Denotes(Parse(f))[i].ports == Backend.EdgesIn(f, PORTS, i)
    {
      Backend.DenotedEdges(f, i);
    }
  }

  /** On an accepted file the snapshot lists a design and a name index exactly when the C++
      reader presents their UTF-8 encodings. */
  lemma {:induction false} SnapshotMeans(f: seq<Byte>, d: seq<Signal<Text>>, names: seq<(Text, int)>)
    requires Accepts(f)
    ensures PartsOf(f) == PartsFor(d, names) <==>
            Denotes(Parse(f)) == EncodeDesign(d) && IndexIn(f) == EncodeIndex(names)
  {
    var p := PartsFor(d, names);
    DenotedEncodes(f, d);
    SignalsPart(f, p.signals.value);
    NamesPart(f, names);
    GroupsPart(f, DRIVERS, p.drivers.value);
    GroupsPart(f, LOADS, p.loads.value);
    GroupsPart(f, PORTS, p.ports.value);
  }
}
