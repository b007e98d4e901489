/** The bytes of a written image: packing an image and parsing the file gives the
    image back. */
module WriterFile {
  import opened Bytes
  import opened DesignModel
  import opened Layout
  import opened Image
  import opened BinaryFile
  import opened Packing

  // ---- Rows ----

  function SignalRow(r: RawSignal): seq<Word> {
    [r.name, r.kind, r.file, FromI32(r.width), FromI32(r.line), FromI32(r.direction)]
  }

  function NameRow(r: RawName): seq<Word> {
    [r.name, FromI32(r.signal)]
  }

  function RecordRow(k: int, r: RawRecord): seq<Word> {
    [FromI32(r.owner), FromI32(r.other)] + r.texts + (if HasLine(k) then [FromI32(r.line)] else [])
  }

  function SignalRows(rs: seq<RawSignal>): seq<seq<Word>> { Map(r => SignalRow(r), rs) }

  function NameRows(rs: seq<RawName>): seq<seq<Word>> { Map(r => NameRow(r), rs) }

  function RecordRows(k: int, rs: seq<RawRecord>): seq<seq<Word>> { Map(r => RecordRow(k, r), rs) }

  function StartRows(ss: seq<int>): seq<seq<Word>> { Map(n => Words64(n), ss) }

  function RowsBlob(rows: seq<seq<Word>>): Blob { Blob(PackRows(rows), |rows|) }

  /** Section `k` of an image. */
  function BlobOf(m: Image, k: int): Blob
    requires IsSection(k)
  {
    if k == SIGNALS then RowsBlob(SignalRows(m.signals))
    else if k == NAME_INDEX then RowsBlob(NameRows(m.names))
    else if k == STRINGS then Blob(m.pool, |m.pool|)
    else if IsGroup(k) then RowsBlob(RecordRows(k, TableOf(m, k).records))
    else RowsBlob(StartRows(TableOf(m, k - 1).starts))
  }

  function BlobsOf(m: Image): (bs: seq<Blob>)
    ensures |bs| == SECTION_COUNT && forall k :: 0 <= k < SECTION_COUNT ==> bs[k] == BlobOf(m, k)
  {
    seq(SECTION_COUNT, k requires 0 <= k < SECTION_COUNT => BlobOf(m, k))
  }

  // ---- Fields fit ----

  ghost predicate TableFits(k: int, t: Table)
    requires IsGroup(k)
  {
    && (forall s :: 0 <= s < |t.starts| ==> 0 <= t.starts[s] < TWO64)
    && forall r :: 0 <= r < |t.records| ==>
         && IsInt32(t.records[r].owner) && IsInt32(t.records[r].other) && IsInt32(t.records[r].line)
         && |t.records[r].texts| == TextCount(k) && (HasLine(k) || t.records[r].line == 0)
  }

  ghost predicate SignalsFit(rs: seq<RawSignal>) {
    forall i :: 0 <= i < |rs| ==> IsInt32(rs[i].width) && IsInt32(rs[i].line) && IsInt32(rs[i].direction)
  }

  ghost predicate NamesFit(rs: seq<RawName>) {
    forall p :: 0 <= p < |rs| ==> IsInt32(rs[p].signal)
  }

  /** Every value of the image fits the field it is written to. */
  ghost predicate ImageFits(m: Image) {
    && SignalsFit(m.signals) && NamesFit(m.names)
    && TableFits(DRIVERS, m.drivers) && TableFits(LOADS, m.loads) && TableFits(PORTS, m.ports)
  }

  // ---- Sections ----

  /** A section of packed rows lies where its table entry says, and its fields read back. */
  lemma {:induction false} RowSection(f: seq<Byte>, k: int, rows: seq<seq<Word>>, w: nat)
    requires |f| >= HEADER_SIZE && IsSection(k) && Holds(f, RowsBlob(rows), k)
    requires RowsOf(rows, w) && Width(k) == 4 * w
    ensures SectionFits(f, k) && Count(f, k) == |rows|
    ensures Count(f, k) * Width(k) == |PackRows(rows)|
    ensures forall i, j :: 0 <= i < |rows| && 0 <= j < w ==> Field(f, k, i, j) == rows[i][j]
  {
    PackRowsLength(rows, w);
    assert |rows| * Width(k) == 4 * w * |rows|;
    forall i, j | 0 <= i < |rows| && 0 <= j < w
      ensures Field(f, k, i, j) == rows[i][j]
    {
      RowFieldAt(f, Offset(f, k), rows, w, i, j);
      assert Width(k) * i == 4 * w * i;
    }
  }

  lemma {:induction false} SignalSection(f: seq<Byte>, rs: seq<RawSignal>)
    requires |f| >= HEADER_SIZE && Holds(f, RowsBlob(SignalRows(rs)), SIGNALS) && SignalsFit(rs)
    ensures SectionFits(f, SIGNALS) && SignalsIn(f) == rs
    ensures Count(f, SIGNALS) * Width(SIGNALS) == |PackRows(SignalRows(rs))|
  {
    var rows := SignalRows(rs);
    RowSection(f, SIGNALS, rows, 6);
    forall i | 0 <= i < |rows|
      ensures SignalAt(f, i) == rs[i]
    {
      assert rows[i] == SignalRow(rs[i]);
      assert forall j :: 0 <= j < 6 ==> Field(f, SIGNALS, i, j) == rows[i][j];
    }
  }

  lemma {:induction false} NameSection(f: seq<Byte>, rs: seq<RawName>)
    requires |f| >= HEADER_SIZE && Holds(f, RowsBlob(NameRows(rs)), NAME_INDEX) && NamesFit(rs)
    ensures SectionFits(f, NAME_INDEX) && NamesIn(f) == rs
    ensures Count(f, NAME_INDEX) * Width(NAME_INDEX) == |PackRows(NameRows(rs))|
  {
    var rows := NameRows(rs);
    RowSection(f, NAME_INDEX, rows, 2);
    forall i | 0 <= i < |rows|
      ensures NameAt(f, i) == rs[i]
    {
      assert rows[i] == NameRow(rs[i]);
      assert forall j :: 0 <= j < 2 ==> Field(f, NAME_INDEX, i, j) == rows[i][j];
    }
  }

  lemma {:induction false} RecordSection(f: seq<Byte>, k: int, t: Table)
    requires |f| >= HEADER_SIZE && IsGroup(k) && Holds(f, RowsBlob(RecordRows(k, t.records)), k) && TableFits(k, t)
    ensures SectionFits(f, k) && RecordsIn(f, k) == t.records
    ensures Count(f, k) * Width(k) == |PackRows(RecordRows(k, t.records))|
  {
    var rows := RecordRows(k, t.records);
    RowSection(f, k, rows, RowLength(k));
    forall r | 0 <= r < |rows|
      ensures RecordAt(f, k, r) == t.records[r]
    {
      assert rows[r] == RecordRow(k, t.records[r]);
      RecordReads(f, k, r, t.records[r]);
    }
  }

  function RowLength(k: int): nat
    requires IsGroup(k)
  {
    2 + TextCount(k) + if HasLine(k) then 1 else 0
  }

  lemma {:induction false} RecordReads(f: seq<Byte>, k: int, r: int, rec: RawRecord)
    requires |f| >= HEADER_SIZE && IsGroup(k) && SectionFits(f, k) && 0 <= r < Count(f, k)
    requires IsInt32(rec.owner) && IsInt32(rec.other) && IsInt32(rec.line)
    requires |rec.texts| == TextCount(k) && (HasLine(k) || rec.line == 0)
    requires forall j :: 0 <= j < RowLength(k) ==> Field(f, k, r, j) == RecordRow(k, rec)[j]
    ensures RecordAt(f, k, r) == rec
  {
    assert forall j :: 0 <= j < TextCount(k) ==> RecordAt(f, k, r).texts[j] == RecordRow(k, rec)[2 + j] == rec.texts[j];
    assert RecordAt(f, k, r).texts == rec.texts;
  }

  lemma {:induction false} StartFields(f: seq<Byte>, k: int, s: int)
    requires |f| >= HEADER_SIZE && IsGroup(k) && SectionFits(f, k + 1) && 0 <= s < Count(f, k + 1)
    ensures Start(f, k, s) == Field(f, k + 1, s, 0) + TWO32 * Field(f, k + 1, s, 1)
  {
    assert Width(k + 1) == 8;
    Words(f, Offset(f, k + 1) + 8 * s);
  }

  lemma {:induction false} StartSection(f: seq<Byte>, k: int, t: Table)
    requires |f| >= HEADER_SIZE && IsGroup(k) && Holds(f, RowsBlob(StartRows(t.starts)), k + 1) && TableFits(k, t)
    ensures SectionFits(f, k + 1) && StartsIn(f, k) == t.starts
    ensures Count(f, k + 1) * Width(k + 1) == |PackRows(StartRows(t.starts))|
  {
    var rows := StartRows(t.starts);
    assert Width(k + 1) == 8;
    RowSection(f, k + 1, rows, 2);
    forall s | 0 <= s < |rows|
      ensures Start(f, k, s) == t.starts[s]
    {
      assert rows[s] == Words64(t.starts[s]);
      assert Field(f, k + 1, s, 0) == rows[s][0] && Field(f, k + 1, s, 1) == rows[s][1];
      StartFields(f, k, s);
    }
  }

  lemma {:induction false} PoolSection(f: seq<Byte>, pool: seq<Byte>)
    requires |f| >= HEADER_SIZE && Holds(f, Blob(pool, |pool|), STRINGS)
    ensures SectionFits(f, STRINGS) && Pool(f) == pool
    ensures Count(f, STRINGS) * Width(STRINGS) == |pool|
  {}

  // ---- The whole file ----

  /** Section `k` fits and is as long as its blob. */
  predicate Matches(f: seq<Byte>, b: Blob, k: int)
    requires |f| >= HEADER_SIZE && IsSection(k)
  {
    SectionFits(f, k) && Count(f, k) * Width(k) == |b.bytes|
  }

  /** Every section of the image is found where its entry says. */
  ghost predicate ImageHeld(f: seq<Byte>, m: Image)
    requires |f| >= HEADER_SIZE
  {
    forall k :: 0 <= k < SECTION_COUNT ==> Holds(f, BlobOf(m, k), k)
  }

  lemma {:induction false} TableSections(f: seq<Byte>, m: Image, k: int)
    requires |f| >= HEADER_SIZE && IsGroup(k) && TableFits(k, TableOf(m, k)) && ImageHeld(f, m)
    ensures SectionFits(f, k) && SectionFits(f, k + 1) && TableIn(f, k) == TableOf(m, k)
    ensures Matches(f, BlobOf(m, k), k) && Matches(f, BlobOf(m, k + 1), k + 1)
  {
    assert Holds(f, BlobOf(m, k), k) && Holds(f, BlobOf(m, k + 1), k + 1);
    RecordSection(f, k, TableOf(m, k));
    StartSection(f, k, TableOf(m, k));
  }

  lemma {:induction false} PlainSections(f: seq<Byte>, m: Image)
    requires |f| >= HEADER_SIZE && ImageFits(m) && ImageHeld(f, m)
    ensures SectionFits(f, SIGNALS) && SectionFits(f, NAME_INDEX) && SectionFits(f, STRINGS)
    ensures SignalsIn(f) == m.signals && NamesIn(f) == m.names && Pool(f) == m.pool
    ensures Matches(f, BlobOf(m, SIGNALS), SIGNALS)
    ensures Matches(f, BlobOf(m, NAME_INDEX), NAME_INDEX) && Matches(f, BlobOf(m, STRINGS), STRINGS)
  {
    assert Holds(f, BlobOf(m, SIGNALS), SIGNALS) && Holds(f, BlobOf(m, NAME_INDEX), NAME_INDEX);
    assert Holds(f, BlobOf(m, STRINGS), STRINGS);
    SignalSection(f, m.signals);
    NameSection(f, m.names);
    PoolSection(f, m.pool);
  }

  /** The contents of all sections read back. */
  ghost predicate ReadsAs(f: seq<Byte>, m: Image)
    requires |f| >= HEADER_SIZE
  {
    && AllFit(f)
    && SignalsIn(f) == m.signals && NamesIn(f) == m.names && Pool(f) == m.pool
    && TableIn(f, DRIVERS) == m.drivers && TableIn(f, LOADS) == m.loads && TableIn(f, PORTS) == m.ports
  }

  lemma {:induction false} SectionMatches(f: seq<Byte>, m: Image, k: int)
    requires |f| >= HEADER_SIZE && ImageFits(m) && ImageHeld(f, m) && IsSection(k)
    ensures Matches(f, BlobOf(m, k), k)
  {
    if k == SIGNALS || k == NAME_INDEX || k == STRINGS {
      PlainSections(f, m);
    } else {
      TableSections(f, m, if IsGroup(k) then k else k - 1);
    }
  }

  lemma {:induction false} AllSections(f: seq<Byte>, m: Image)
    requires |f| >= HEADER_SIZE && ImageFits(m) && ImageHeld(f, m) && AllFit(f)
    ensures ReadsAs(f, m)
  {
    PlainSections(f, m);
    TableSections(f, m, DRIVERS);
    TableSections(f, m, LOADS);
    TableSections(f, m, PORTS);
  }

  /** Sections as long as their blobs are placed as the reader demands. */
  lemma {:induction false} OnePlaced(f: seq<Byte>, blobs: seq<Blob>, k: int)
    requires Packed(f, blobs) && IsSection(k)
    requires k > 0 ==> Matches(f, blobs[k - 1], k - 1)
    ensures PlacedOk(f, k)
  {
    assert Located(f, blobs, k);
    if k > 0 {
      assert Located(f, blobs, k - 1);
      BlobsOrdered(blobs, k - 1, k);
    }
    BlobsOrdered(blobs, k, k + 1);
  }

  /** Counts within the reader's limits. */
  predicate CountsFit(m: Image) {
    var n := |m.signals|;
    && n <= INT32_MAX && |m.drivers.records| <= INT32_MAX
    && |m.loads.records| <= INT32_MAX && |m.ports.records| <= INT32_MAX
    && |m.names| == n && |m.drivers.starts| == |m.loads.starts| == |m.ports.starts| == n + 1
    && m.pool != []
  }

  /** Parsing inverts packing: the section table of a packed image is sound exactly when its
      counts are within limits, and then the file parses to that image. */
  lemma {:induction false} ParsePacked(f: seq<Byte>, m: Image)
    requires Packed(f, BlobsOf(m)) && ImageFits(m)
    ensures Shape(f) <==> CountsFit(m)
    ensures CountsFit(m) ==> Parse(f) == m
  {
    var blobs := BlobsOf(m);
    forall k | 0 <= k < SECTION_COUNT
      ensures Holds(f, BlobOf(m, k), k)
    {
      assert Holds(f, blobs[k], k);
    }
    forall k | 0 <= k < SECTION_COUNT
      ensures Matches(f, blobs[k], k)
    {
      SectionMatches(f, m, k);
    }
    AllPlaced(f, blobs);
    AllSections(f, m);
    ReadsShape(f, m);
  }

  lemma {:induction false} AllPlaced(f: seq<Byte>, blobs: seq<Blob>)
    requires Packed(f, blobs) && forall k :: 0 <= k < SECTION_COUNT ==> Matches(f, blobs[k], k)
    ensures AllFit(f) && forall k :: 0 <= k < SECTION_COUNT ==> PlacedOk(f, k)
  {
    forall k | 0 <= k < SECTION_COUNT
      ensures PlacedOk(f, k) && SectionFits(f, k)
    {
      assert Matches(f, blobs[k], k) && (k > 0 ==> Matches(f, blobs[k - 1], k - 1));
      OnePlaced(f, blobs, k);
    }
  }

  lemma {:induction false} ReadsShape(f: seq<Byte>, m: Image)
    requires |f| >= HEADER_SIZE && HeaderOk(f) && ReadsAs(f, m)
    requires forall k :: 0 <= k < SECTION_COUNT ==> PlacedOk(f, k)
    ensures Shape(f) <==> CountsFit(m)
    ensures CountsFit(m) ==> Parse(f) == m
  {
    assert CountsOk(f) <==> CountsFit(m);
  }
}
