/** Name resolution on files the converter wrote. */
module ConvertedNames {
  import opened Bytes
  import opened Utf8
  import opened DesignModel
  import opened Image
  import opened BinaryFile
  import opened Accepted
  import opened WriterImage
  import opened RoundTrip
  import opened Converter
  import opened Resolver
  import WriterFile
  import NameSort
  import StringPool

  /** The first signal with a given name, by linear scan in signal order; -1 if none. */
  function Scan(names: seq<Str>, query: Str): int {
    if names == [] then -1
    else
      var last := |names| - 1;
      var before := Scan(names[..last], query);
      if before >= 0 then before else if names[last] == query then last else -1
  }

  lemma {:induction false} ScanFinds(names: seq<Str>, query: Str)
    ensures -1 <= Scan(names, query) < |names|
    ensures Scan(names, query) >= 0 ==>
              names[Scan(names, query)] == query && query !in names[..Scan(names, query)]
    ensures Scan(names, query) == -1 ==> query !in names
  {
    if names != [] {
      var last := |names| - 1;
      ScanFinds(names[..last], query);
      assert names == names[..last] + [names[last]];
      var s := Scan(names[..last], query);
      assert s >= 0 ==> names[..last][..s] == names[..s];
    }
  }

  /** The first candidate spelling that some signal bears. */
  function FirstScanned(names: seq<Str>, cs: seq<Str>): int {
    if cs == [] then -1
    else if Scan(names, cs[0]) >= 0 then Scan(names, cs[0])
    else FirstScanned(names, cs[1..])
  }

  function EncodedNames(d: Design): seq<Str> {
    Map((s: Signal<Text>) => Encode(s.name), d)
  }

  /** The entries of an index pair each signal with its own name. */
  ghost predicate OwnNames(names: seq<Str>, es: seq<Entry>) {
    forall p :: 0 <= p < |es| ==> 0 <= es[p].signal < |names| && es[p].name == Some(names[es[p].signal])
  }

  lemma {:induction false} SortedOwnNames(d: Design, pairs: seq<NameSort.Pair>, es: seq<Entry>)
    requires NameSort.Names(pairs, NameTexts(d))
    requires es == Map((x: NameSort.Pair) => Entry(Some(Encode(x.0)), x.1), pairs)
    ensures OwnNames(EncodedNames(d), es)
  {}

  lemma {:induction false} ParsedConverted(d: Design, f: seq<Byte>) returns (offsets: StringPool.Offsets, pool: seq<Byte>)
    requires Reported(d) && Converted(d, f) && Acceptable(d)
    ensures AllReadable(d, offsets, pool)
    ensures Accepts(f) && Parse(f) == ImageFor(d, offsets, pool)
  {
    ConvertedRoundTrip(d, f);
    offsets, pool :| ConvertedWith(d, f, offsets, pool);
    PoolNonEmpty(pool, offsets);
    ImageWritten(d, offsets, pool);
    WriterFile.ParsePacked(f, ImageFor(d, offsets, pool));
  }

  /** The name index of a converted file pairs each signal with its own name. */
  lemma {:induction false} ConvertedIndex(d: Design, f: seq<Byte>)
    requires Reported(d) && Converted(d, f) && Acceptable(d)
    ensures Accepts(f) && N(f) == |d| && OwnNames(EncodedNames(d), IndexIn(f))
  {
    var offsets, pool := ParsedConverted(d, f);
    WrittenEntries(d, offsets, pool);
    NameSort.SortNames(NameTexts(d));
    var pairs := NameSort.Sort(NameSort.Pairs(NameTexts(d)));
    SortedOwnNames(d, pairs, Entries(pool, NamesFor(d, offsets)));
    assert IndexIn(f) == Entries(Parse(f).pool, Parse(f).names);
  }

  /** On an index that pairs every signal with its own name, lookup is the linear scan. */
  lemma {:induction false} LookupIsScan(names: seq<Str>, es: seq<Entry>, query: Str)
    requires NamesOk(|names|, es)
    requires OwnNames(names, es)
    ensures Lookup(es, query) == Scan(names, query)
  {
    ScanFinds(names, query);
    IndexPermutation(|names|, es);
    var i := Scan(names, query);
    if i >= 0 {
      assert Listed(es, i);
      var p :| Indexes(es, p, i);
      LookupUnique(|names|, es, query, p);
    } else {
      forall p | 0 <= p < |es|
        ensures es[p].name != Some(query)
      {
        assert names[es[p].signal] in names;
      }
      LookupMiss(es, query);
    }
  }

  lemma {:induction false} FirstHitIsScanned(names: seq<Str>, es: seq<Entry>, cs: seq<Str>)
    requires NamesOk(|names|, es)
    requires OwnNames(names, es)
    ensures FirstHit(es, cs) == FirstScanned(names, cs)
  {
    if cs != [] {
      LookupIsScan(names, es, cs[0]);
      FirstHitIsScanned(names, es, cs[1..]);
    }
  }

  /** `resolve` on a converted file: the first candidate spelling of the query, by linear scan of
      the signal names. */
  lemma {:induction false} ResolveIsScan(d: Design, f: seq<Byte>, query: Str)
    requires Reported(d) && Converted(d, f) && Acceptable(d) && query != []
    ensures Accepts(f)
    ensures Resolved(IndexIn(f), query) == FirstScanned(EncodedNames(d), Spellings(query))
  {
    ConvertedIndex(d, f);
    AcceptedIndex(f);
    CandidatesAreSpellings(query);
    FirstHitIsScanned(EncodedNames(d), IndexIn(f), Candidates(query));
  }

  /** Every signal with a non-empty name resolves to itself. */
  lemma {:induction false} NamesResolve(d: Design, f: seq<Byte>, i: int)
    requires Reported(d) && Converted(d, f) && Acceptable(d) && 0 <= i < |d|
    ensures Accepts(f)
    ensures Resolved(IndexIn(f), Encode(d[i].name)) == if d[i].name == [] then -1 else i
  {
    ConvertedIndex(d, f);
    if d[i].name != [] {
      OwnNameScans(d, i);
      var query := Encode(d[i].name);
      assert EncodeScalar(d[i].name[0]) != [];
      ResolveIsScan(d, f, query);
      FirstSpelling(EncodedNames(d), query);
    }
  }

  /** The query itself is the first spelling tried. */
  lemma {:induction false} FirstSpelling(names: seq<Str>, query: Str)
    requires Scan(names, query) >= 0
    ensures FirstScanned(names, Spellings(query)) == Scan(names, query)
  {
    assert Spellings(query)[0] == query;
  }

  lemma {:induction false} OwnNameScans(d: Design, i: int)
    requires NameSort.AllDistinct(NameTexts(d)) && 0 <= i < |d|
    ensures Scan(EncodedNames(d), Encode(d[i].name)) == i
  {
    var names, query := EncodedNames(d), Encode(d[i].name);
    ScanFinds(names, query);
    assert names[i] in names;
    var j := Scan(names, query);
    EncodeInjective(d[i].name, d[j].name);
    assert NameTexts(d)[i] == NameTexts(d)[j];
  }

  // ---- Root spellings, on any acceptable index ----

  lemma {:induction false} CandidatesOfRoots(rest: Str)
    ensures Candidates(UPPER_ROOT + rest) == [UPPER_ROOT + rest] + Candidates(LOWER_ROOT + rest)
    ensures Candidates(LOWER_ROOT + rest) == [LOWER_ROOT + rest, rest, LOWER_ROOT + (LOWER_ROOT + rest)]
  {
    assert (UPPER_ROOT + rest)[4..] == rest && (LOWER_ROOT + rest)[4..] == rest;
    assert (UPPER_ROOT + rest)[0] == 84 && (LOWER_ROOT + rest)[0] == 116;
    assert UPPER_ROOT <= UPPER_ROOT + rest && LOWER_ROOT <= LOWER_ROOT + rest && !(UPPER_ROOT <= LOWER_ROOT + rest);
  }

  lemma {:induction false} DistinctHit(n: int, es: seq<Entry>, query: Str, cs: seq<Str>)
    requires NamesOk(n, es) && Lookup(es, query) >= 0 && query !in cs
    ensures FirstHit(es, cs) != Lookup(es, query)
  {
    if cs != [] {
      if Lookup(es, cs[0]) >= 0 {
        LookupRange(n, es, query);
        LookupRange(n, es, cs[0]);
        var p :| 0 <= p < n && es[p].name == Some(query);
        var q :| 0 <= q < n && es[q].name == Some(cs[0]);
        LookupUnique(n, es, query, p);
        LookupUnique(n, es, cs[0], q);
        assert cs[0] in cs && p != q;
        IndexPermutation(n, es);
        assert Indexes(es, p, es[p].signal) && Indexes(es, q, es[q].signal);
      } else {
        DistinctHit(n, es, query, cs[1..]);
      }
    }
  }

  /** "TOP.r" and "top.r" resolve alike exactly when no entry is named "TOP.r". */
  lemma {:induction false} RootsAlike(n: int, es: seq<Entry>, rest: Str)
    requires NamesOk(n, es)
    ensures Resolved(es, UPPER_ROOT + rest) == Resolved(es, LOWER_ROOT + rest)
            <==> forall p :: 0 <= p < n ==> es[p].name != Some(UPPER_ROOT + rest)
  {
    var upper := UPPER_ROOT + rest;
    var cs := Candidates(LOWER_ROOT + rest);
    CandidatesOfRoots(rest);
    LookupRange(n, es, upper);
    assert ([upper] + cs)[1..] == cs;
    if Lookup(es, upper) >= 0 {
      assert |upper| == |rest| + 4 && upper[0] == 84;
      assert upper != LOWER_ROOT + rest && upper != rest && upper != LOWER_ROOT + (LOWER_ROOT + rest);
      DistinctHit(n, es, upper, cs);
    }
  }
}
