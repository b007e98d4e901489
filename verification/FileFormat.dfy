/** Acceptance in terms of the bytes alone: every number of the format written out. */
module FileFormat {
  import opened Bytes
  import opened Groups
  import opened Layout
  import opened Image
  import opened BinaryFile
  import opened Accepted

  // ---- Header and section table ----

  /** "XDDBIN1" and a NUL, version 1.0, the byte-order tag, the header size and the file size. */
  predicate PlainHeader(f: seq<Byte>) {
    && |f| >= 176
    && f[0] == 88 && f[1] == 68 && f[2] == 68 && f[3] == 66 && f[4] == 73 && f[5] == 78 && f[6] == 49 && f[7] == 0
    && GetU32(f, 8) == 1 && GetU32(f, 12) == 0 && GetU32(f, 16) == 16909060 && GetU32(f, 20) == 176
    && GetU64(f, 24) == |f|
  }

  /** Entry `k` of the section table: an offset and a count, of records `width` bytes wide. */
  predicate PlainSection(f: seq<Byte>, k: int, width: int, before: int)
    requires |f| >= 176 && 0 <= k < 9
  {
    var offset, count := GetU64(f, 32 + 16 * k), GetU64(f, 40 + 16 * k);
    176 <= offset && before <= offset && offset % 8 == 0 && offset + count * width <= |f|
  }

  function EndAt(f: seq<Byte>, k: int, width: int): int
    requires |f| >= 176 && 0 <= k < 9
  {
    GetU64(f, 32 + 16 * k) + GetU64(f, 40 + 16 * k) * width
  }

  /** Signals, names, drivers, their starts, loads, their starts, ports, their starts, strings: records of
      24, 8, 28, 8, 20, 8, 12, 8 and 1 bytes, each section after the one before. */
  predicate PlainSections(f: seq<Byte>)
    requires |f| >= 176
  {
    && PlainSection(f, 0, 24, 176)
    && PlainSection(f, 1, 8, EndAt(f, 0, 24))
    && PlainSection(f, 2, 28, EndAt(f, 1, 8))
    && PlainSection(f, 3, 8, EndAt(f, 2, 28))
    && PlainSection(f, 4, 20, EndAt(f, 3, 8))
    && PlainSection(f, 5, 8, EndAt(f, 4, 20))
    && PlainSection(f, 6, 12, EndAt(f, 5, 8))
    && PlainSection(f, 7, 8, EndAt(f, 6, 12))
    && PlainSection(f, 8, 1, EndAt(f, 7, 8))
  }

  predicate PlainCounts(f: seq<Byte>)
    requires |f| >= 176
  {
    var n := GetU64(f, 40);
    && n <= 2147483647 && GetU64(f, 72) <= 2147483647 && GetU64(f, 104) <= 2147483647 && GetU64(f, 136) <= 2147483647
    && GetU64(f, 56) == n && GetU64(f, 88) == n + 1 && GetU64(f, 120) == n + 1 && GetU64(f, 152) == n + 1
    && GetU64(f, 168) >= 1
  }

  predicate PlainShape(f: seq<Byte>) { PlainHeader(f) && PlainSections(f) && PlainCounts(f) }

  lemma {:induction false} HeaderMeans(f: seq<Byte>)
    requires |f| >= 176
    ensures HeaderOk(f) <==> PlainHeader(f)
  {
    var magic := f[..8];
    assert magic == [88, 68, 68, 66, 73, 78, 49, 0] <==>
           magic[0] == 88 && magic[1] == 68 && magic[2] == 68 && magic[3] == 66
           && magic[4] == 73 && magic[5] == 78 && magic[6] == 49 && magic[7] == 0;
  }

  lemma {:induction false} SectionMeans(f: seq<Byte>, k: int, width: int, before: int)
    requires |f| >= 176 && 0 <= k < 9 && Width(k) == width
    requires before == if k == 0 then 176 else SectionEnd(f, k - 1)
    ensures SectionFits(f, k) && PlacedOk(f, k) <==> PlainSection(f, k, width, before)
    ensures SectionEnd(f, k) == EndAt(f, k, width)
  {
    assert Count(f, k) * Width(k) >= 0;
  }

  lemma {:induction false} SectionsMean(f: seq<Byte>)
    requires |f| >= 176
    ensures AllFit(f) && (forall k :: 0 <= k < SECTION_COUNT ==> PlacedOk(f, k)) <==> PlainSections(f)
  {
    SectionMeans(f, 0, 24, 176);
    SectionMeans(f, 1, 8, EndAt(f, 0, 24));
    SectionMeans(f, 2, 28, EndAt(f, 1, 8));
    SectionMeans(f, 3, 8, EndAt(f, 2, 28));
    SectionMeans(f, 4, 20, EndAt(f, 3, 8));
    SectionMeans(f, 5, 8, EndAt(f, 4, 20));
    SectionMeans(f, 6, 12, EndAt(f, 5, 8));
    SectionMeans(f, 7, 8, EndAt(f, 6, 12));
    SectionMeans(f, 8, 1, EndAt(f, 7, 8));
    NineSections(f);
  }

  ghost predicate Sound(f: seq<Byte>, k: int)
    requires |f| >= 176 && 0 <= k < 9
  {
    SectionFits(f, k) && PlacedOk(f, k)
  }

  lemma {:induction false} NineSections(f: seq<Byte>)
    requires |f| >= 176
    ensures AllFit(f) && (forall k :: 0 <= k < SECTION_COUNT ==> PlacedOk(f, k)) <==>
            && Sound(f, 0) && Sound(f, 1) && Sound(f, 2) && Sound(f, 3) && Sound(f, 4)
            && Sound(f, 5) && Sound(f, 6) && Sound(f, 7) && Sound(f, 8)
  {
    if AllFit(f) && forall k :: 0 <= k < SECTION_COUNT ==> PlacedOk(f, k) {
      forall k | 0 <= k < 9
        ensures Sound(f, k)
      {
        assert SectionFits(f, k) && PlacedOk(f, k);
      }
    }
    if Sound(f, 0) && Sound(f, 1) && Sound(f, 2) && Sound(f, 3) && Sound(f, 4)
       && Sound(f, 5) && Sound(f, 6) && Sound(f, 7) && Sound(f, 8) {
      forall k | 0 <= k < 9
        ensures Sound(f, k)
      {
        assert k == 0 || k == 1 || k == 2 || k == 3 || k == 4 || k == 5 || k == 6 || k == 7 || k == 8;
      }
      assert forall k :: 0 <= k < 9 ==> SectionFits(f, k) && PlacedOk(f, k) by {
        forall k | 0 <= k < 9
          ensures SectionFits(f, k) && PlacedOk(f, k)
        {
          assert Sound(f, k);
        }
      }
    }
  }

  lemma {:induction false} CountsMean(f: seq<Byte>)
    requires |f| >= 176
    ensures CountsOk(f) <==> PlainCounts(f)
  {}

  /** The shape of a file, for arbitrary bytes. */
  lemma {:induction false} ShapeMeans(f: seq<Byte>)
    ensures Shape(f) <==> PlainShape(f)
  {
    if |f| >= 176 {
      HeaderMeans(f);
      SectionsMean(f);
      CountsMean(f);
    }
  }

  // ---- Records ----

  lemma {:induction false} SignalBytes(f: seq<Byte>, i: int)
    requires Shape(f) && 0 <= i < N(f)
    ensures var a := GetU64(f, 32) + 24 * i;
            && 0 <= a && a + 24 <= |f|
            && SignalAt(f, i) == RawSignal(GetU32(f, a), GetU32(f, a + 4), GetU32(f, a + 8),
                                           AsI32(GetU32(f, a + 12)), AsI32(GetU32(f, a + 16)), AsI32(GetU32(f, a + 20)))
  {
    assert SectionFits(f, 0);
    RecordFits(24, i, Count(f, 0));
  }

  lemma {:induction false} NameBytes(f: seq<Byte>, p: int)
    requires Shape(f) && 0 <= p < N(f)
    ensures var a := GetU64(f, 48) + 8 * p;
            0 <= a && a + 8 <= |f| && NameAt(f, p) == RawName(GetU32(f, a), AsI32(GetU32(f, a + 4)))
  {
    assert SectionFits(f, 1);
    RecordFits(8, p, Count(f, 1));
  }

  /** Target, source, kind, role, predicate, file, line. */
  lemma {:induction false} DriverBytes(f: seq<Byte>, r: int)
    requires Shape(f) && 0 <= r < GetU64(f, 72)
    ensures var a := GetU64(f, 64) + 28 * r;
            && 0 <= a && a + 28 <= |f|
            && RecordAt(f, DRIVERS, r) ==
               RawRecord(AsI32(GetU32(f, a)), AsI32(GetU32(f, a + 4)),
                         [GetU32(f, a + 8), GetU32(f, a + 12), GetU32(f, a + 16), GetU32(f, a + 20)], AsI32(GetU32(f, a + 24)))
  {
    assert SectionFits(f, 2);
    RecordFits(28, r, Count(f, 2));
  }

  /** Source, consumer, kind, file, line. */
  lemma {:induction false} LoadBytes(f: seq<Byte>, r: int)
    requires Shape(f) && 0 <= r < GetU64(f, 104)
    ensures var a := GetU64(f, 96) + 20 * r;
            && 0 <= a && a + 20 <= |f|
            && RecordAt(f, LOADS, r) ==
               RawRecord(AsI32(GetU32(f, a)), AsI32(GetU32(f, a + 4)), [GetU32(f, a + 8), GetU32(f, a + 12)], AsI32(GetU32(f, a + 16)))
  {
    assert SectionFits(f, 4);
    RecordFits(20, r, Count(f, 4));
  }

  /** Signal, connected signal, kind. */
  lemma {:induction false} PortBytes(f: seq<Byte>, r: int)
    requires Shape(f) && 0 <= r < GetU64(f, 136)
    ensures var a := GetU64(f, 128) + 12 * r;
            && 0 <= a && a + 12 <= |f|
            && RecordAt(f, PORTS, r) == RawRecord(AsI32(GetU32(f, a)), AsI32(GetU32(f, a + 4)), [GetU32(f, a + 8)], 0)
  {
    assert SectionFits(f, 6);
    RecordFits(12, r, Count(f, 6));
  }

  lemma {:induction false} PoolBytes(f: seq<Byte>)
    requires Shape(f)
    ensures GetU64(f, 160) + GetU64(f, 168) <= |f| && Pool(f) == f[GetU64(f, 160)..GetU64(f, 160) + GetU64(f, 168)]
  {
    assert SectionFits(f, 8);
  }

  lemma {:induction false} StartEntry(f: seq<Byte>, k: int, s: int)
    requires |f| >= 176 && IsGroup(k) && SectionFits(f, k + 1) && 0 <= s < Count(f, k + 1)
    ensures Offset(f, k + 1) + 8 * s + 8 <= |f| && StartsIn(f, k)[s] == GetU64(f, Offset(f, k + 1) + 8 * s)
  {
    assert Width(k + 1) == 8;
  }

  lemma {:induction false} DriverStartBytes(f: seq<Byte>, s: int)
    requires Shape(f) && 0 <= s <= N(f)
    ensures GetU64(f, 80) + 8 * s + 8 <= |f| && StartsIn(f, DRIVERS)[s] == GetU64(f, GetU64(f, 80) + 8 * s)
  {
    assert SectionFits(f, 3);
    StartEntry(f, 2, s);
  }

  lemma {:induction false} LoadStartBytes(f: seq<Byte>, s: int)
    requires Shape(f) && 0 <= s <= N(f)
    ensures GetU64(f, 112) + 8 * s + 8 <= |f| && StartsIn(f, LOADS)[s] == GetU64(f, GetU64(f, 112) + 8 * s)
  {
    assert SectionFits(f, 5);
    StartEntry(f, 4, s);
  }

  lemma {:induction false} PortStartBytes(f: seq<Byte>, s: int)
    requires Shape(f) && 0 <= s <= N(f)
    ensures GetU64(f, 144) + 8 * s + 8 <= |f| && StartsIn(f, PORTS)[s] == GetU64(f, GetU64(f, 144) + 8 * s)
  {
    assert SectionFits(f, 7);
    StartEntry(f, 6, s);
  }

  // ---- Contents ----

  /** One record of signal `s`: its own, its other end a signal or, where `lowest` is -1, none, and all its
      strings present. */
  ghost predicate PlainRecord(pool: seq<Byte>, n: int, lowest: int, r: RawRecord, s: int) {
    r.owner == s && lowest <= r.other && r.other < n && forall j :: 0 <= j < |r.texts| ==> PoolString(pool, r.texts[j]).Some?
  }

  /** The starts array rises from 0 to the number of records, and the records between two of its entries
      belong to the first's signal. */
  ghost predicate PlainGroups(pool: seq<Byte>, n: nat, lowest: int, t: Table) {
    && |t.starts| == n + 1 && t.starts[0] == 0 && t.starts[n] == |t.records|
    && (forall s :: 0 <= s < n ==> Rises(t, s))
    && forall s, r :: 0 <= s < n && 0 <= r < |t.records| && Between(t, s, r) ==> PlainRecord(pool, n, lowest, t.records[r], s)
  }

  predicate Rises(t: Table, s: int)
    requires 0 <= s < |t.starts| - 1
  {
    0 <= t.starts[s] && t.starts[s] <= t.starts[s + 1] && t.starts[s + 1] <= |t.records|
  }

  predicate Between(t: Table, s: int, r: int)
    requires 0 <= s < |t.starts| - 1
  {
    t.starts[s] <= r && r < t.starts[s + 1]
  }

  ghost predicate PlainNames(n: int, es: seq<Entry>) {
    && |es| == n
    && (forall p :: 0 <= p < n ==> es[p].name.Some? && 0 <= es[p].signal < n)
    && (forall p :: 0 < p < n && es[p - 1].name.Some? && es[p].name.Some? ==> Precedes(es[p - 1].name.value, es[p].name.value))
    && forall p, q :: 0 <= p < q < n ==> es[p].signal != es[q].signal
  }

  ghost predicate PlainContents(f: seq<Byte>)
    requires Shape(f)
  {
    && (forall i :: 0 <= i < N(f) ==> PlainSignal(Pool(f), SignalAt(f, i)))
    && PlainNames(N(f), IndexIn(f))
    && PlainGroups(Pool(f), N(f), -1, TableIn(f, DRIVERS))
    && PlainGroups(Pool(f), N(f), 0, TableIn(f, LOADS))
    && PlainGroups(Pool(f), N(f), 0, TableIn(f, PORTS))
  }

  predicate PlainSignal(pool: seq<Byte>, r: RawSignal) {
    && PoolString(pool, r.name).Some? && PoolString(pool, r.kind).Some? && PoolString(pool, r.file).Some?
    && (r.direction == 0 || r.direction == 1 || r.direction == 2 || r.direction == 3)
  }

  lemma {:induction false} GroupsMean(pool: seq<Byte>, n: nat, lowest: int, t: Table)
    ensures TableOk(pool, n, lowest, t) <==> PlainGroups(pool, n, lowest, t)
  {
    if TableOk(pool, n, lowest, t) {
      forall s | 0 <= s < n
        ensures Rises(t, s)
      {
        assert StepOk(t.starts, s, |t.records|);
      }
      forall s, r | 0 <= s < n && 0 <= r < |t.records| && Between(t, s, r)
        ensures PlainRecord(pool, n, lowest, t.records[r], s)
      {
        assert InGroup(t.starts, s, r);
      }
    }
    if PlainGroups(pool, n, lowest, t) {
      forall s | 0 <= s < n
        ensures StepOk(t.starts, s, |t.records|)
      {
        assert Rises(t, s);
      }
      forall s, r | 0 <= s < n && 0 <= r < |t.records| && InGroup(t.starts, s, r)
        ensures RecordOk(pool, n, lowest, t.records[r], s)
      {
        assert Between(t, s, r);
      }
    }
  }

  lemma {:induction false} NamesMean(n: int, es: seq<Entry>)
    ensures NamesOk(n, es) <==> PlainNames(n, es)
  {
    if NamesOk(n, es) {
      forall p | 0 <= p < n
        ensures es[p].name.Some? && 0 <= es[p].signal < n
        ensures p > 0 && es[p - 1].name.Some? ==> Precedes(es[p - 1].name.value, es[p].name.value)
      {
        assert EntryOk(n, es[p], Prior(es, p));
        if p > 0 && es[p - 1].name.Some? {
          LexMeans(es[p - 1].name.value, es[p].name.value);
        }
      }
    }
    if PlainNames(n, es) {
      forall p | 0 <= p < n
        ensures EntryOk(n, es[p], Prior(es, p))
      {
        if p > 0 {
          LexMeans(es[p - 1].name.value, es[p].name.value);
        }
      }
    }
  }

  /** Acceptance, for arbitrary bytes: with the bytes of each record as the lemmas above give them. */
  lemma {:induction false} AcceptsMeans(f: seq<Byte>)
    ensures Accepts(f) <==> PlainShape(f) && Shape(f) && PlainContents(f)
  {
    ShapeMeans(f);
    if Shape(f) {
      NamesMean(N(f), IndexIn(f));
      GroupsMean(Pool(f), N(f), -1, TableIn(f, DRIVERS));
      GroupsMean(Pool(f), N(f), 0, TableIn(f, LOADS));
      GroupsMean(Pool(f), N(f), 0, TableIn(f, PORTS));
      ContentsMean(f);
    }
  }

  lemma {:induction false} ContentsMean(f: seq<Byte>)
    requires Shape(f)
    ensures ImageOk(Parse(f)) <==>
            && (forall i :: 0 <= i < N(f) ==> PlainSignal(Pool(f), SignalAt(f, i)))
            && NamesOk(N(f), IndexIn(f))
            && TableOk(Pool(f), N(f), -1, TableIn(f, DRIVERS))
            && TableOk(Pool(f), N(f), 0, TableIn(f, LOADS))
            && TableOk(Pool(f), N(f), 0, TableIn(f, PORTS))
  {
    var m := Parse(f);
    assert forall i :: 0 <= i < N(f) ==> m.signals[i] == SignalAt(f, i);
    assert forall i :: 0 <= i < N(f) ==> (SignalOk(m.pool, m.signals[i]) <==> PlainSignal(Pool(f), SignalAt(f, i)));
  }

  /** A driver's source is a signal or -1; a load's consumer and a port's other end are signals. */
  lemma {:induction false} AcceptedEnds(f: seq<Byte>)
    requires Accepts(f)
    ensures forall r :: 0 <= r < Count(f, DRIVERS) ==> -1 <= RecordsIn(f, DRIVERS)[r].other < N(f)
    ensures forall r :: 0 <= r < Count(f, LOADS) ==> 0 <= RecordsIn(f, LOADS)[r].other < N(f)
    ensures forall r :: 0 <= r < Count(f, PORTS) ==> 0 <= RecordsIn(f, PORTS)[r].other < N(f)
  {
    TableEnds(Pool(f), N(f), -1, TableIn(f, DRIVERS));
    TableEnds(Pool(f), N(f), 0, TableIn(f, LOADS));
    TableEnds(Pool(f), N(f), 0, TableIn(f, PORTS));
  }

  lemma {:induction false} TableEnds(pool: seq<Byte>, n: int, lowest: int, t: Table)
    requires TableOk(pool, n, lowest, t)
    ensures forall r :: 0 <= r < |t.records| ==> lowest <= t.records[r].other < n
  {
    forall r | 0 <= r < |t.records|
      ensures lowest <= t.records[r].other < n
    {
      TableRecord(pool, n, lowest, t, r);
    }
  }
}
