/** The two readers agree: on a file the C++ reader accepts, the parity checker's snapshot
    is the text decoding of the design that reader presents. */
module ParityAgreement {
  import opened Bytes
  import opened Utf8
  import opened DesignModel
  import opened Layout
  import opened Image
  import opened BinaryFile
  import opened Accepted
  import opened ParityReader
  import Backend

  // ---- Decoding a design of byte strings ----

  function DecodeTexts(decode: Codec, ss: seq<Str>): Result<seq<Text>> {
    CollectAll(j => if 0 <= j < |ss| then DecodeAs(decode, ss[j]) else Err(PackRange), |ss|)
  }

  function DecodeFacts(decode: Codec, s: Signal<Str>): Result<SignalFacts> {
    match DecodeTexts(decode, [s.name, s.kind, s.file])
    case Err(e) => Err(e)
    case Ok(ts) =>
      if |ts| == 3 then Ok(SignalFacts(ts[0], ts[1], s.width, ts[2], s.line, s.direction)) else Err(PackRange)
  }

  function DecodeEdge(decode: Codec, e: Edge<Str>): Result<Edge<Text>> {
    match DecodeTexts(decode, e.texts)
    case Err(x) => Err(x)
    case Ok(ts) => Ok(Edge(e.other, ts, e.line))
  }

  function DecodeEdges(decode: Codec, es: seq<Edge<Str>>): Result<seq<Edge<Text>>> {
    CollectAll(j => if 0 <= j < |es| then DecodeEdge(decode, es[j]) else Err(PackRange), |es|)
  }

  lemma {:induction false} SameCollect<T>(g: int -> Result<T>, h: int -> Result<T>, n: nat)
    requires forall j :: 0 <= j < n ==> g(j) == h(j)
    ensures CollectAll(g, n) == CollectAll(h, n)
  {
    if n > 0 {
      SameCollect(g, h, n - 1);
    }
  }

  // ---- Fields and strings ----

  lemma {:induction false} UnpackFields(f: seq<Byte>, k: int, i: int, n: nat)
    requires |f| >= HEADER_SIZE && IsSection(k) && k != STRINGS && SectionFits(f, k) && 0 <= i < Count(f, k) && 4 * n == Width(k)
    ensures Unpack(f, Place(Offset(f, k), k, i), n).Ok?
    ensures var ws := Unpack(f, Place(Offset(f, k), k, i), n).value;
            |ws| == n && forall j :: 0 <= j < n ==> ws[j] == Field(f, k, i, j)
  {
    RecordFits(Width(k), i, Count(f, k));
    assert Place(Offset(f, k), k, i) == Offset(f, k) + Width(k) * i;
  }

  /** The pool the snapshot reads is the section's. */
  ghost predicate At(f: seq<Byte>, at: PoolAt, pool: seq<Byte>) {
    at.base + at.size <= |f| && pool == f[at.base..at.base + at.size]
  }

  lemma {:induction false} TextDecodes(f: seq<Byte>, at: PoolAt, pool: seq<Byte>, w: Word)
    requires At(f, at, pool) && PoolString(pool, w).Some?
    ensures TextIn(f, at, w) == DecodeAs(at.decode, TextAt(pool, w))
  {
    assert f[at.base + w..at.base + at.size] == pool[w..];
  }

  ghost predicate AllPresent(pool: seq<Byte>, ws: seq<Word>) {
    forall j :: 0 <= j < |ws| ==> PoolString(pool, ws[j]).Some?
  }

  function TextsAt(pool: seq<Byte>, ws: seq<Word>): seq<Str> { Map(o => TextAt(pool, o), ws) }

  lemma {:induction false} TextsDecode(f: seq<Byte>, at: PoolAt, pool: seq<Byte>, ws: seq<Word>)
    requires At(f, at, pool) && AllPresent(pool, ws)
    ensures TextsIn(f, at, ws) == DecodeTexts(at.decode, TextsAt(pool, ws))
  {
    var ss := TextsAt(pool, ws);
    var g := j => if 0 <= j < |ws| then TextIn(f, at, ws[j]) else Err(PackRange);
    var h := j => if 0 <= j < |ss| then DecodeAs(at.decode, ss[j]) else Err(PackRange);
    forall j | 0 <= j < |ws|
      ensures g(j) == h(j)
    {
      TextDecodes(f, at, pool, ws[j]);
    }
    SameCollect(g, h, |ws|);
  }

  // ---- Signals ----

  lemma {:induction false} SignalReads(f: seq<Byte>, at: PoolAt, pool: seq<Byte>, o: int, ws: seq<Word>, s: Signal<Str>)
    requires At(f, at, pool) && |ws| == 6 && Unpack(f, o, 6) == Ok(ws)
    requires PoolString(pool, ws[0]) == Some(s.name) && PoolString(pool, ws[1]) == Some(s.kind)
    requires PoolString(pool, ws[2]) == Some(s.file)
    requires s.width == AsI32(ws[3]) && s.line == AsI32(ws[4]) && s.direction == AsI32(ws[5])
    ensures ReadSignal(f, at, o) == DecodeFacts(at.decode, s)
  {
    ThreeTexts(pool, ws[0], ws[1], ws[2], s.name, s.kind, s.file);
    TextsDecode(f, at, pool, [ws[0], ws[1], ws[2]]);
  }

  lemma {:induction false} ThreeTexts(pool: seq<Byte>, a: Word, b: Word, c: Word, x: Str, y: Str, z: Str)
    requires PoolString(pool, a) == Some(x) && PoolString(pool, b) == Some(y) && PoolString(pool, c) == Some(z)
    ensures AllPresent(pool, [a, b, c]) && TextsAt(pool, [a, b, c]) == [x, y, z]
  {
    var refs := [a, b, c];
    assert refs[0] == a && refs[1] == b && refs[2] == c;
    assert TextAt(pool, a) == x && TextAt(pool, b) == y && TextAt(pool, c) == z;
  }

  lemma {:induction false} SignalWords(f: seq<Byte>, i: int) returns (ws: seq<Word>)
    requires Accepts(f) && 0 <= i < N(f)
    ensures |ws| == 6 && Unpack(f, Place(Offset(f, SIGNALS), SIGNALS, i), 6) == Ok(ws)
    ensures RawSignal(ws[0], ws[1], ws[2], AsI32(ws[3]), AsI32(ws[4]), AsI32(ws[5])) == SignalAt(f, i)
  {
    UnpackFields(f, SIGNALS, i, 6);
    ws := Unpack(f, Place(Offset(f, SIGNALS), SIGNALS, i), 6).value;
  }

  lemma {:induction false} SignalAgrees(f: seq<Byte>, at: PoolAt, i: int)
    requires Accepts(f) && 0 <= i < N(f) && At(f, at, Pool(f))
    ensures ReadSignal(f, at, Place(Offset(f, SIGNALS), SIGNALS, i)) == DecodeFacts(at.decode, Denotes(Parse(f))[i])
  {
    StringsPresent(f, i);
    var ws := SignalWords(f, i);
    SignalReads(f, at, Pool(f), Place(Offset(f, SIGNALS), SIGNALS, i), ws, Denotes(Parse(f))[i]);
  }

  // ---- Groups ----

  /** The words of a record of section `k`. */
  predicate Unpacked(k: int, ws: seq<Word>, rec: RawRecord)
    requires IsGroup(k)
  {
    && |ws| == RecordWords(k) && rec.owner == AsI32(ws[0]) && rec.other == AsI32(ws[1])
    && rec.texts == ws[2..2 + TextCount(k)]
    && rec.line == if HasLine(k) then AsI32(ws[2 + TextCount(k)]) else 0
  }

  lemma {:induction false} RecordReads(
    f: seq<Byte>, at: PoolAt, pool: seq<Byte>, o: int, k: int, signal: int, ws: seq<Word>, rec: RawRecord)
    requires IsGroup(k) && At(f, at, pool) && AllPresent(pool, rec.texts) && rec.owner == signal
    requires Unpacked(k, ws, rec) && Unpack(f, o, RecordWords(k)) == Ok(ws)
    ensures ReadRecordAt(f, at, o, k, signal) == DecodeEdge(at.decode, EdgeOf(pool, rec))
  {
    TextsDecode(f, at, pool, rec.texts);
    assert EdgeOf(pool, rec).texts == TextsAt(pool, rec.texts);
  }

  lemma {:induction false} RecordUnpacks(f: seq<Byte>, k: int, r: int) returns (ws: seq<Word>)
    requires |f| >= HEADER_SIZE && IsGroup(k) && SectionFits(f, k) && 0 <= r < Count(f, k)
    ensures Unpack(f, Place(Offset(f, k), k, r), RecordWords(k)) == Ok(ws) && Unpacked(k, ws, RecordAt(f, k, r))
  {
    UnpackFields(f, k, r, RecordWords(k));
    ws := Unpack(f, Place(Offset(f, k), k, r), RecordWords(k)).value;
  }

  lemma {:induction false} RecordInUnpacks(f: seq<Byte>, k: int, records: seq<RawRecord>, r: int) returns (ws: seq<Word>)
    requires |f| >= HEADER_SIZE && IsGroup(k) && SectionFits(f, k) && records == RecordsIn(f, k) && 0 <= r < |records|
    ensures Unpack(f, Place(Offset(f, k), k, r), RecordWords(k)) == Ok(ws) && Unpacked(k, ws, records[r])
  {
    ws := RecordUnpacks(f, k, r);
  }

  /** The `j`-th record from `first`, given its words. */
  lemma {:induction false} RecordAgrees(
    f: seq<Byte>, at: PoolAt, pool: seq<Byte>, offset: int, k: int, signal: int, first: int, j: int, ws: seq<Word>, rec: RawRecord)
    requires IsGroup(k) && At(f, at, pool) && AllPresent(pool, rec.texts) && rec.owner == signal
    requires Unpacked(k, ws, rec) && Unpack(f, Place(offset, k, first + j), RecordWords(k)) == Ok(ws)
    ensures ReadRecord(f, at, offset, k, signal, first, j) == DecodeEdge(at.decode, EdgeOf(pool, rec))
  {
    RecordReads(f, at, pool, Place(offset, k, first + j), k, signal, ws, rec);
  }

  /** Edge `e` is the `j`-th record of signal `i`, whose texts are all present. */
  ghost predicate EdgeBehind(pool: seq<Byte>, t: Table, i: int, j: int, e: Edge<Str>)
    requires 0 <= i < |t.starts|
  {
    var r := t.starts[i] + j;
    0 <= r < |t.records| && t.records[r].owner == i && AllPresent(pool, t.records[r].texts) && e == EdgeOf(pool, t.records[r])
  }

  /** The edges of a signal in an acceptable table, record by record. */
  lemma {:induction false} EdgesBehind(pool: seq<Byte>, n: int, lowest: int, t: Table, i: int)
    requires TableOk(pool, n, lowest, t) && 0 <= i < n
    ensures |t.starts| == n + 1 && t.starts[i] + |EdgesOf(pool, t, i)| == t.starts[i + 1]
    ensures forall j :: 0 <= j < |EdgesOf(pool, t, i)| ==> EdgeBehind(pool, t, i, j, EdgesOf(pool, t, i)[j])
  {
    TableGroup(pool, n, lowest, t, i);
    forall j | 0 <= j < |EdgesOf(pool, t, i)|
      ensures EdgeBehind(pool, t, i, j, EdgesOf(pool, t, i)[j])
    {
      assert RecordOk(pool, n, lowest, t.records[t.starts[i] + j], i);
    }
  }

  lemma {:induction false} GroupCollected(
    f: seq<Byte>, at: PoolAt, offset: int, k: int, starts: seq<int>, i: int, es: seq<Edge<Str>>)
    requires IsGroup(k) && 0 <= i < |starts| - 1 && starts[i] + |es| == starts[i + 1]
    requires forall j :: 0 <= j < |es| ==>
               ReadRecord(f, at, offset, k, i, starts[i], j) == DecodeEdge(at.decode, es[j])
    ensures ReadGroup(f, at, offset, k, starts, i) == DecodeEdges(at.decode, es)
  {
    var first := starts[i];
    var g := j => ReadRecord(f, at, offset, k, i, first, j);
    var h := j => if 0 <= j < |es| then DecodeEdge(at.decode, es[j]) else Err(PackRange);
    forall j | 0 <= j < |es|
      ensures g(j) == h(j)
    {
      assert ReadRecord(f, at, offset, k, i, starts[i], j) == DecodeEdge(at.decode, es[j]);
    }
    SameCollect(g, h, |es|);
  }

  lemma {:induction false} EdgeAgrees(
    f: seq<Byte>, at: PoolAt, pool: seq<Byte>, records: seq<RawRecord>, k: int, i: int, first: int, j: int)
    requires |f| >= HEADER_SIZE && IsGroup(k) && SectionFits(f, k) && records == RecordsIn(f, k) && At(f, at, pool)
    requires 0 <= first + j < |records| && records[first + j].owner == i && AllPresent(pool, records[first + j].texts)
    ensures ReadRecord(f, at, Offset(f, k), k, i, first, j) == DecodeEdge(at.decode, EdgeOf(pool, records[first + j]))
  {
    var ws := RecordInUnpacks(f, k, records, first + j);
    RecordAgrees(f, at, pool, Offset(f, k), k, i, first, j, ws, records[first + j]);
  }

  /** A group read with the table of the file at hand. */
  lemma {:induction false} GroupReads(f: seq<Byte>, at: PoolAt, pool: seq<Byte>, t: Table, k: int, i: int, es: seq<Edge<Str>>)
    requires |f| >= HEADER_SIZE && IsGroup(k) && SectionFits(f, k) && t.records == RecordsIn(f, k) && At(f, at, pool)
    requires 0 <= i < |t.starts| - 1 && t.starts[i] + |es| == t.starts[i + 1]
    requires forall j :: 0 <= j < |es| ==> EdgeBehind(pool, t, i, j, es[j])
    ensures ReadGroup(f, at, Offset(f, k), k, t.starts, i) == DecodeEdges(at.decode, es)
  {
    forall j | 0 <= j < |es|
      ensures ReadRecord(f, at, Offset(f, k), k, i, t.starts[i], j) == DecodeEdge(at.decode, es[j])
    {
      assert EdgeBehind(pool, t, i, j, es[j]);
      EdgeAgrees(f, at, pool, t.records, k, i, t.starts[i], j);
    }
    GroupCollected(f, at, Offset(f, k), k, t.starts, i, es);
  }

  lemma {:induction false} GroupAgrees(f: seq<Byte>, at: PoolAt, k: int, i: int)
    requires Accepts(f) && IsGroup(k) && 0 <= i < N(f) && At(f, at, Pool(f))
    ensures ReadGroup(f, at, Offset(f, k), k, StartsIn(f, k), i) == DecodeEdges(at.decode, Backend.EdgesIn(f, k, i))
  {
    FileTable(f, k);
    EdgesBehind(Pool(f), N(f), LowestOther(k), TableIn(f, k), i);
    GroupReads(f, at, Pool(f), TableIn(f, k), k, i, Backend.EdgesIn(f, k, i));
  }
}
