/** Writer and readers together: what a design becomes after conversion and reopening. */
module EndToEnd {
  import opened Bytes
  import opened Image
  import opened BinaryFile
  import opened StringPool
  import opened WriterImage
  import opened RoundTrip
  import Backend
  import Layout
  import Converter
  import Utf8
  import opened ParityCheck
  import opened ConvertedNames
  import ParityReader
  import ParityTheorem
  import Resolver

  /** Conversion, then `open`: every accessor answers from the design that was converted. */
  method ConvertAndOpen(d: Design, backend: Backend.BinaryDesignBackend) returns (ok: bool)
    requires Reported(d)
    modifies backend
    ensures ok <==> Acceptable(d) && PoolSize(DesignTexts(d)) <= POOL_LIMIT
    ensures backend.Valid() && backend.Contents() == if ok then EncodeDesign(d) else []
    ensures if ok then backend.mapping.Some? && Converter.Converted(d, backend.mapping.value) else backend.mapping.None?
  {
    backend.Close();
    var file := Converter.Convert(d);
    if file.Err? || |file.value| >= TWO63 {
      return false;
    }
    ok := backend.Open(file.value);
  }

  /** Conversion, `open` and `resolve`: the first candidate spelling of the query that some signal of the
      design bears. */
  method ConvertAndResolve(d: Design, backend: Backend.BinaryDesignBackend, query: Str) returns (ok: bool, signal: int)
    requires Reported(d)
    modifies backend
    ensures ok <==> Acceptable(d) && PoolSize(DesignTexts(d)) <= POOL_LIMIT
    ensures signal == if ok && query != [] then FirstScanned(EncodedNames(d), Resolver.Spellings(query)) else -1
  {
    ok := ConvertAndOpen(d, backend);
    signal := backend.Resolve(Some(query));
    if ok && query != [] {
      ResolveIsScan(d, backend.mapping.value, query);
    }
  }

  /** What the parity check expects for a design: its parts, each name of the index resolved to its own
      signal, and the probe name resolved by a linear scan of the signal names. */
  ghost predicate Lists(s: ParityReader.Snapshot, d: Design) {
    var p, names := ParityTheorem.PartsFor(d, NameIndex(d)), NameIndex(d);
    && Ok(s.signals) == p.signals && Ok(s.nameIndex) == p.names
    && Ok(s.drivers) == p.drivers && Ok(s.loads) == p.loads && Ok(s.ports) == p.ports
    && s.resolveResults == names + [(ParityReader.MISSING, Scan(EncodedNames(d), Utf8.Encode(ParityReader.MISSING)))]
  }

  /** Conversion, then the parity snapshot: it succeeds exactly when the strings fit the pool, and lists
      the converted design. */
  method ConvertAndSnapshot(d: Design) returns (r: Result<ParityReader.Snapshot>)
    requires Reported(d) && Acceptable(d)
    ensures r.Ok? <==> PoolSize(DesignTexts(d)) <= POOL_LIMIT
    ensures r.Ok? ==> Lists(r.value, d)
  {
    var file := Converter.Convert(d);
    if file.Err? {
      return Err(file.error);
    }
    FileLists(d, file.value);
    r := SnapshotOf(file.value, ParityTheorem.PartsFor(d, NameIndex(d)));
    ResolvesAll(d, file.value, r.value.resolveResults);
  }

  ghost predicate FileHas(f: seq<Byte>, p: ParityReader.Parts) {
    |f| >= Layout.HEADER_SIZE && Layout.HeaderOk(f) && ParityReader.PartsOf(f) == p && p.AllOk()
  }

  lemma {:induction false} FileLists(d: Design, f: seq<Byte>)
    requires Reported(d) && Converter.Converted(d, f) && Acceptable(d)
    ensures FileHas(f, ParityTheorem.PartsFor(d, NameIndex(d)))
  {
    ParityCheck.ConvertedSnapshot(d, f);
  }

  /** The answers of the snapshot's own search over a name index. */
  ghost predicate Answers(names: seq<(Utf8.Text, int)>, out: seq<(Utf8.Text, int)>) {
    && |out| == |names| + 1
    && out[|names|] == (ParityReader.MISSING, ParityReader.Bisect(names, ParityReader.MISSING, 0, |names|))
    && forall p :: 0 <= p < |names| ==> out[p] == (names[p].0, ParityReader.Bisect(names, names[p].0, 0, |names|))
  }

  lemma {:induction false} ResolvesAll(d: Design, f: seq<Byte>, out: seq<(Utf8.Text, int)>)
    requires Reported(d) && Converter.Converted(d, f) && Acceptable(d) && Answers(NameIndex(d), out)
    ensures out == NameIndex(d) + [(ParityReader.MISSING, Scan(EncodedNames(d), Utf8.Encode(ParityReader.MISSING)))]
  {
    forall p | 0 <= p < |NameIndex(d)|
      ensures FindsOwn(NameIndex(d), p)
    {
      ParityCheck.ConvertedBisect(d, f, NameIndex(d)[p].0);
      ParityCheck.EntryScans(d, p);
    }
    ParityCheck.ConvertedBisect(d, f, ParityReader.MISSING);
    AnswersAre(NameIndex(d), out);
  }

  predicate FindsOwn(names: seq<(Utf8.Text, int)>, p: int)
    requires 0 <= p < |names|
  {
    ParityReader.Bisect(names, names[p].0, 0, |names|) == names[p].1
  }

  lemma {:induction false} AnswersAre(names: seq<(Utf8.Text, int)>, out: seq<(Utf8.Text, int)>)
    requires Answers(names, out) && forall p :: 0 <= p < |names| ==> FindsOwn(names, p)
    ensures out == names + [(ParityReader.MISSING, ParityReader.Bisect(names, ParityReader.MISSING, 0, |names|))]
  {
    forall p | 0 <= p < |names|
      ensures out[p] == names[p]
    {
      assert FindsOwn(names, p);
    }
  }

  method SnapshotOf(f: seq<Byte>, ghost p: ParityReader.Parts) returns (r: Result<ParityReader.Snapshot>)
    requires FileHas(f, p)
    ensures r.Ok?
    ensures var s := r.value;
            && Ok(s.signals) == p.signals && Ok(s.nameIndex) == p.names
            && Ok(s.drivers) == p.drivers && Ok(s.loads) == p.loads && Ok(s.ports) == p.ports
            && Answers(s.nameIndex, s.resolveResults)
  {
    r := ParityReader.BinarySnapshot(f);
  }

  /** Acceptance can be met: the empty design has a file, and it is accepted. */
  method EmptyFile() returns (f: seq<Byte>)
    ensures Accepts(f) && N(f) == 0
  {
    PoolSizeAdd({}, []);
    assert {} + {[]} == DesignTexts([]);
    var r := Converter.Convert([]);
    f := r.value;
    assert |Denotes(Parse(f))| == 0;
  }
}
