/** `binary_snapshot`: the parity checker's own reader, which decodes text and trusts no
    earlier validation. Out-of-range unpacking, bad strings and misplaced records are errors. */
module ParityReader {
  import opened Bytes
  import opened Utf8
  import opened DesignModel
  import opened Layout

  datatype SignalFacts = SignalFacts(name: Text, kind: Text, width: int, file: Text, line: int, direction: int)
  datatype Snapshot = Snapshot(
    signals: seq<SignalFacts>, nameIndex: seq<(Text, int)>, resolveResults: seq<(Text, int)>,
    drivers: seq<seq<Edge<Text>>>, loads: seq<seq<Edge<Text>>>, ports: seq<seq<Edge<Text>>>)

  /** Runs `g` on 0, 1, ... n - 1 and stops at the first error. */
  function CollectAll<T>(g: int -> Result<T>, n: nat): Result<seq<T>> {
    if n == 0 then Ok([])
    else match CollectAll(g, n - 1)
      case Err(e) => Err(e)
      case Ok(xs) =>
        match g(n - 1)
        case Err(e) => Err(e)
        case Ok(x) => Ok(xs + [x])
  }

  lemma {:induction false} CollectAllMeans<T>(g: int -> Result<T>, n: nat)
    ensures CollectAll(g, n).Ok? <==> forall i :: 0 <= i < n ==> g(i).Ok?
    ensures CollectAll(g, n).Ok? ==>
              |CollectAll(g, n).value| == n && forall i :: 0 <= i < n ==> g(i) == Ok(CollectAll(g, n).value[i])
  {
    if n > 0 {
      CollectAllMeans(g, n - 1);
    }
  }

  lemma {:induction false} CollectAllStops<T>(g: int -> Result<T>, n: nat, m: nat)
    requires n <= m && CollectAll(g, n).Err?
    ensures CollectAll(g, m) == CollectAll(g, n)
  {
    if n < m {
      CollectAllStops(g, n, m - 1);
    }
  }

  /** A list-building loop. */
  method Collect<T>(g: int -> Result<T>, n: nat) returns (r: Result<seq<T>>)
    ensures r == CollectAll(g, n)
  {
    var out: seq<T> := [];
    for i := 0 to n
      invariant CollectAll(g, i) == Ok(out)
    {
      var x := g(i);
      if x.Err? {
        CollectAllStops(g, i + 1, n);
        return Err(x.error);
      }
      out := out + [x.value];
    }
    return Ok(out);
  }

  // ---- Reading ----

  /** `struct.unpack_from` of `n` 32-bit fields. */
  function Unpack(f: seq<Byte>, o: int, n: nat): Result<seq<Word>> {
    if 0 <= o && o + 4 * n <= |f| then
      Ok(seq(n, j requires 0 <= j < n => GetU32(f, o + 4 * j)))
    else Err(Malformed("unpack"))
  }

  /** `bytes.decode("utf-8")`. */
  type Codec = seq<Byte> -> Option<Text>

  /** Where the string pool lies, as the section table gives it, and how texts are decoded. */
  datatype PoolAt = PoolAt(base: nat, size: nat, decode: Codec)

  function DecodeAs(decode: Codec, s: seq<Byte>): Result<Text> {
    match decode(s)
    case Some(t) => Ok(t)
    case None => Err(NotUtf8)
  }

  /** `text(offset)`: a pool string, decoded. */
  function TextIn(f: seq<Byte>, at: PoolAt, w: Word): Result<Text> {
    if w >= at.size then Err(Malformed("string offset outside pool"))
    else
      var begin := at.base + w;
      var end := if at.base + at.size <= |f| then at.base + at.size else |f|;
      match if begin <= end then CString(f[begin..end]) else None
      case None => Err(Malformed("unterminated string"))
      case Some(s) => DecodeAs(at.decode, s)
  }

  function TextsIn(f: seq<Byte>, at: PoolAt, ws: seq<Word>): Result<seq<Text>> {
    CollectAll(j => if 0 <= j < |ws| then TextIn(f, at, ws[j]) else Err(PackRange), |ws|)
  }

  /** Where record `i` of section `k`, which starts at `offset`, lies. */
  function Place(offset: int, k: int, i: int): int {
    offset + if k == SIGNALS then i * 24
             else if k == DRIVERS then i * 28
             else if k == LOADS then i * 20
             else if k == PORTS then i * 12
             else i * 8
  }

  function ReadSignal(f: seq<Byte>, at: PoolAt, o: int): Result<SignalFacts> {
    match Unpack(f, o, 6)
    case Err(e) => Err(e)
    case Ok(ws) =>
      match TextsIn(f, at, [ws[0], ws[1], ws[2]])
      case Err(e) => Err(e)
      case Ok(ts) =>
        if |ts| == 3 then Ok(SignalFacts(ts[0], ts[1], AsI32(ws[3]), ts[2], AsI32(ws[4]), AsI32(ws[5])))
        else Err(PackRange)
  }

  function ReadName(f: seq<Byte>, at: PoolAt, o: int): Result<(Text, int)> {
    match Unpack(f, o, 2)
    case Err(e) => Err(e)
    case Ok(ws) =>
      match TextIn(f, at, ws[0])
      case Err(e) => Err(e)
      case Ok(t) => Ok((t, AsI32(ws[1])))
  }

  function ReadStart(f: seq<Byte>, o: int): Result<int> {
    match Unpack(f, o, 2)
    case Err(e) => Err(e)
    case Ok(ws) => Ok(ws[0] + TWO32 * ws[1])
  }

  function RecordWords(k: int): nat { if k == DRIVERS then 7 else if k == LOADS then 5 else 3 }

  /** One driver, load or port record: the `j`-th from `first`. It must belong to `signal`. */
  function ReadRecord(f: seq<Byte>, at: PoolAt, offset: int, k: int, signal: int, first: int, j: int): Result<Edge<Text>>
    requires IsGroup(k)
  {
    ReadRecordAt(f, at, Place(offset, k, first + j), k, signal)
  }

  function ReadRecordAt(f: seq<Byte>, at: PoolAt, o: int, k: int, signal: int): Result<Edge<Text>>
    requires IsGroup(k)
  {
    match Unpack(f, o, RecordWords(k))
    case Err(e) => Err(e)
    case Ok(ws) =>
      if AsI32(ws[0]) != signal then Err(Malformed("grouping mismatch"))
      else match TextsIn(f, at, ws[2..2 + TextCount(k)])
        case Err(e) => Err(e)
        case Ok(ts) => Ok(Edge(AsI32(ws[1]), ts, if HasLine(k) then AsI32(ws[2 + TextCount(k)]) else 0))
  }

  /** The records of one signal; `range(a, b)` is empty when `a >= b`. */
  function ReadGroup(f: seq<Byte>, at: PoolAt, offset: int, k: int, starts: seq<int>, signal: int): Result<seq<Edge<Text>>>
    requires IsGroup(k)
  {
    if !(0 <= signal < |starts| - 1) then Err(Malformed("starts index"))
    else
      var first, count := starts[signal], if starts[signal] <= starts[signal + 1] then starts[signal + 1] - starts[signal] else 0;
      CollectAll(j => ReadRecord(f, at, offset, k, signal, first, j), count)
  }

  // ---- The snapshot ----

  /** The inner `resolve`: a binary search by code point order. */
  function Bisect(names: seq<(Text, int)>, name: Text, low: nat, high: nat): int
    requires low <= high <= |names|
    decreases high - low
  {
    if low == high then -1
    else
      var middle := low + (high - low) / 2;
      if names[middle].0 == name then names[middle].1
      else if LexLess(name, names[middle].0) then Bisect(names, name, low, middle)
      else Bisect(names, name, middle + 1, high)
  }

  method Resolve(names: seq<(Text, int)>, name: Text) returns (signal: int)
    ensures signal == Bisect(names, name, 0, |names|)
  {
    var low, high := 0, |names|;
    while low < high
      invariant 0 <= low <= high <= |names|
      invariant Bisect(names, name, low, high) == Bisect(names, name, 0, |names|)
    {
      var middle := low + (high - low) / 2;
      if names[middle].0 == name {
        return names[middle].1;
      }
      if LexLess(name, names[middle].0) {
        high := middle;
      } else {
        low := middle + 1;
      }
    }
    return -1;
  }

  /** "__xdebug_missing_signal__" as code points. */
  const MISSING: Text := [95, 95, 120, 100, 101, 98, 117, 103, 95, 109, 105, 115, 115, 105, 110, 103,
                          95, 115, 105, 103, 110, 97, 108, 95, 95]

  method ResolveAll(names: seq<(Text, int)>) returns (out: seq<(Text, int)>)
    ensures |out| == |names| + 1 && out[|names|] == (MISSING, Bisect(names, MISSING, 0, |names|))
    ensures forall p :: 0 <= p < |names| ==> out[p] == (names[p].0, Bisect(names, names[p].0, 0, |names|))
  {
    out := [];
    for p := 0 to |names|
      invariant |out| == p
      invariant forall q :: 0 <= q < p ==> out[q] == (names[q].0, Bisect(names, names[q].0, 0, |names|))
    {
      var s := Resolve(names, names[p].0);
      out := out + [(names[p].0, s)];
    }
    var s := Resolve(names, MISSING);
    out := out + [(MISSING, s)];
  }

  /** A parsed section table. */
  datatype Table9 = Table9(offsets: seq<nat>, counts: seq<nat>)

  function SectionTable(f: seq<Byte>): (t: Table9)
    requires |f| >= HEADER_SIZE
    ensures |t.offsets| == |t.counts| == SECTION_COUNT
    ensures forall k :: 0 <= k < SECTION_COUNT ==> t.offsets[k] == Offset(f, k) && t.counts[k] == Count(f, k)
  {
    Table9(seq(SECTION_COUNT, k requires 0 <= k < SECTION_COUNT => Offset(f, k)),
           seq(SECTION_COUNT, k requires 0 <= k < SECTION_COUNT => Count(f, k)))
  }

  function PoolOf(t: Table9): PoolAt
    requires |t.offsets| == |t.counts| == SECTION_COUNT
  {
    PoolAt(t.offsets[STRINGS], t.counts[STRINGS], b => Decode(b))
  }

  /** All groups of one kind, signal by signal. */
  function GroupsOf(f: seq<Byte>, at: PoolAt, t: Table9, k: int): Result<seq<seq<Edge<Text>>>>
    requires IsGroup(k) && |t.offsets| == |t.counts| == SECTION_COUNT
  {
    match CollectAll(i => ReadStart(f, Place(t.offsets[k + 1], k + 1, i)), t.counts[k + 1])
    case Err(e) => Err(e)
    case Ok(starts) => CollectAll(s => ReadGroup(f, at, t.offsets[k], k, starts, s), t.counts[SIGNALS])
  }

  /** The nested loop over signals and their records. */
  method ReadGroups(f: seq<Byte>, at: PoolAt, t: Table9, k: int) returns (r: Result<seq<seq<Edge<Text>>>>)
    requires IsGroup(k) && |t.offsets| == |t.counts| == SECTION_COUNT
    ensures r == GroupsOf(f, at, t, k)
  {
    var starts := Collect(i => ReadStart(f, Place(t.offsets[k + 1], k + 1, i)), t.counts[k + 1]);
    if starts.Err? {
      return Err(starts.error);
    }
    var offset, n := t.offsets[k], t.counts[SIGNALS];
    ghost var g := s => ReadGroup(f, at, offset, k, starts.value, s);
    var out: seq<seq<Edge<Text>>> := [];
    for signal := 0 to n
      invariant CollectAll(g, signal) == Ok(out)
    {
      var group := CollectGroup(f, at, offset, k, starts.value, signal);
      if group.Err? {
        CollectAllStops(g, signal + 1, n);
        return Err(group.error);
      }
      out := out + [group.value];
    }
    return Ok(out);
  }

  /** The inner loop over one signal's records. */
  method CollectGroup(f: seq<Byte>, at: PoolAt, offset: int, k: int, starts: seq<int>, signal: int) returns (r: Result<seq<Edge<Text>>>)
    requires IsGroup(k)
    ensures r == ReadGroup(f, at, offset, k, starts, signal)
  {
    if !(0 <= signal < |starts| - 1) {
      return Err(Malformed("starts index"));
    }
    var first, last := starts[signal], starts[signal + 1];
    r := Collect(j => ReadRecord(f, at, offset, k, signal, first, j), if first <= last then last - first else 0);
  }

  /** What the snapshot consists of, or the first error met. */
  datatype Parts = Parts(
    signals: Result<seq<SignalFacts>>, names: Result<seq<(Text, int)>>,
    drivers: Result<seq<seq<Edge<Text>>>>, loads: Result<seq<seq<Edge<Text>>>>, ports: Result<seq<seq<Edge<Text>>>>)
  {
    predicate AllOk() { signals.Ok? && names.Ok? && drivers.Ok? && loads.Ok? && ports.Ok? }
  }

  function PartsOf(f: seq<Byte>): Parts
    requires |f| >= HEADER_SIZE
  {
    var t := SectionTable(f);
    var at := PoolOf(t);
    Parts(CollectAll(i => ReadSignal(f, at, Place(t.offsets[SIGNALS], SIGNALS, i)), t.counts[SIGNALS]),
          CollectAll(i => ReadName(f, at, Place(t.offsets[NAME_INDEX], NAME_INDEX, i)), t.counts[NAME_INDEX]),
          GroupsOf(f, at, t, DRIVERS), GroupsOf(f, at, t, LOADS), GroupsOf(f, at, t, PORTS))
  }

  method BinarySnapshot(f: seq<Byte>) returns (r: Result<Snapshot>)
    ensures r.Ok? <==> |f| >= HEADER_SIZE && HeaderOk(f) && PartsOf(f).AllOk()
    ensures r.Ok? ==>
              var p, s := PartsOf(f), r.value;
              && Ok(s.signals) == p.signals && Ok(s.nameIndex) == p.names
              && Ok(s.drivers) == p.drivers && Ok(s.loads) == p.loads && Ok(s.ports) == p.ports
    ensures r.Ok? ==>
              var names, out := r.value.nameIndex, r.value.resolveResults;
              && |out| == |names| + 1 && out[|names|] == (MISSING, Bisect(names, MISSING, 0, |names|))
              && forall p :: 0 <= p < |names| ==> out[p] == (names[p].0, Bisect(names, names[p].0, 0, |names|))
  {
    if |f| < HEADER_SIZE || !HeaderOk(f) {
      return Err(Malformed("binary header mismatch"));
    }
    var t := SectionTable(f);
    var at := PoolOf(t);
    var signals := Collect(i => ReadSignal(f, at, Place(t.offsets[SIGNALS], SIGNALS, i)), t.counts[SIGNALS]);
    if signals.Err? { return Err(signals.error); }
    var names := Collect(i => ReadName(f, at, Place(t.offsets[NAME_INDEX], NAME_INDEX, i)), t.counts[NAME_INDEX]);
    if names.Err? { return Err(names.error); }
    var resolved := ResolveAll(names.value);
    var drivers := ReadGroups(f, at, t, DRIVERS);
    if drivers.Err? { return Err(drivers.error); }
    var loads := ReadGroups(f, at, t, LOADS);
    if loads.Err? { return Err(loads.error); }
    var ports := ReadGroups(f, at, t, PORTS);
    if ports.Err? { return Err(ports.error); }
    return Ok(Snapshot(signals.value, names.value, resolved, drivers.value, loads.value, ports.value));
  }
}
