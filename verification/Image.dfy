/** The contents of a DesignDB as tables of raw records over a string pool, what
    makes them acceptable, and the design they denote. The byte layer is in
    `Layout`; nothing here mentions offsets into the file. */
module Image {
  import opened Bytes
  import opened DesignModel
  import opened Groups

  type Str = seq<Byte>

  datatype RawSignal = RawSignal(name: Word, kind: Word, file: Word, width: int, line: int, direction: int)
  datatype RawName = RawName(name: Word, signal: int)

  /** A driver, load or port record: `owner` is its target, source or signal. */
  datatype RawRecord = RawRecord(owner: int, other: int, texts: seq<Word>, line: int)
  datatype Table = Table(starts: seq<int>, records: seq<RawRecord>)
  datatype Image = Image(
    signals: seq<RawSignal>, names: seq<RawName>,
    drivers: Table, loads: Table, ports: Table, pool: seq<Byte>)

  /** The string a 32-bit offset denotes in a pool, as `string_at` reads it. */
  function PoolString(pool: seq<Byte>, o: Word): (s: Option<Str>)
  {
    if o < |pool| then CString(pool[o..]) else None
  }

  predicate SignalOk(pool: seq<Byte>, r: RawSignal) {
    && PoolString(pool, r.name).Some? && PoolString(pool, r.kind).Some?
    && PoolString(pool, r.file).Some? && 0 <= r.direction <= 3
  }

  /** A name index entry with its string looked up. */
  datatype Entry = Entry(name: Option<Str>, signal: int)

  function Entries(pool: seq<Byte>, names: seq<RawName>): (es: seq<Entry>)
    ensures |es| == |names|
    ensures forall p :: 0 <= p < |es| ==> es[p] == Entry(PoolString(pool, names[p].name), names[p].signal)
  {
    seq(|names|, p requires 0 <= p < |names| => Entry(PoolString(pool, names[p].name), names[p].signal))
  }

  /** An entry names a signal by a readable string that follows `prior`. */
  predicate EntryOk(n: int, e: Entry, prior: Option<Str>) {
    && e.name.Some?
    && 0 <= e.signal < n
    && (prior.Some? ==> LexLess(prior.value, e.name.value))
  }

  function Prior(es: seq<Entry>, p: int): Option<Str>
    requires 0 <= p <= |es|
  {
    if p == 0 then None else es[p - 1].name
  }

  ghost predicate NamesOk(n: int, es: seq<Entry>) {
    && |es| == n
    && (forall p :: 0 <= p < n ==> EntryOk(n, es[p], Prior(es, p)))
    && (forall p, q :: 0 <= p < q < n ==> es[p].signal != es[q].signal)
  }

  /** `lowest` is -1 where a record may have no other end, as a driver may. */
  predicate RecordOk(pool: seq<Byte>, n: int, lowest: int, r: RawRecord, owner: int) {
    && r.owner == owner
    && lowest <= r.other < n
    && forall j :: 0 <= j < |r.texts| ==> PoolString(pool, r.texts[j]).Some?
  }

  ghost predicate TableOk(pool: seq<Byte>, n: int, lowest: int, t: Table) {
    && StartsOk(t.starts, n, |t.records|)
    && forall s, r :: 0 <= s < n && 0 <= r < |t.records| && InGroup(t.starts, s, r) ==>
         RecordOk(pool, n, lowest, t.records[r], s)
  }

  ghost predicate ImageOk(m: Image) {
    var n := |m.signals|;
    && (forall i :: 0 <= i < n ==> SignalOk(m.pool, m.signals[i]))
    && NamesOk(n, Entries(m.pool, m.names))
    && TableOk(m.pool, n, -1, m.drivers)
    && TableOk(m.pool, n, 0, m.loads)
    && TableOk(m.pool, n, 0, m.ports)
  }

  // ---- What an acceptable image denotes ----

  function TextAt(pool: seq<Byte>, o: Word): Str {
    match PoolString(pool, o)
    case Some(s) => s
    case None => []
  }

  function EdgeOf(pool: seq<Byte>, r: RawRecord): Edge<Str> {
    Edge(r.other, Map(o => TextAt(pool, o), r.texts), r.line)
  }

  /** The records of signal `s` in table order. */
  function EdgesOf(pool: seq<Byte>, t: Table, s: int): seq<Edge<Str>> {
    Map(r => EdgeOf(pool, r), GroupOf(t.starts, t.records, s))
  }

  function SignalOf(m: Image, i: int): Signal<Str>
    requires 0 <= i < |m.signals|
  {
    var r := m.signals[i];
    Signal(TextAt(m.pool, r.name), TextAt(m.pool, r.kind), TextAt(m.pool, r.file),
           r.width, r.line, r.direction,
           EdgesOf(m.pool, m.drivers, i), EdgesOf(m.pool, m.loads, i), EdgesOf(m.pool, m.ports, i))
  }

  function Denotes(m: Image): (d: seq<Signal<Str>>)
    ensures |d| == |m.signals|
    ensures forall i :: 0 <= i < |d| ==> d[i] == SignalOf(m, i)
  {
    seq(|m.signals|, i requires 0 <= i < |m.signals| => SignalOf(m, i))
  }
}
