/** The reader's `validate()`: its loops, in 64-bit arithmetic over the mapped bytes,
    decide exactly `Accepts`. Every read below is bounds-checked and every uint64
    operation range-checked, for arbitrary file contents. */
module Validator {
  import opened Bytes
  import opened Groups
  import opened Image
  import opened Layout
  import opened BinaryFile
  import opened Folding

  lemma {:induction false} DivisionBound(c: int, w: int, m: int)
    requires 0 <= c && w > 0 && 0 <= m
    ensures c <= m / w <==> c * w <= m
  {
    assert m == m / w * w + m % w;
    if c <= m / w {
      assert c * w <= m / w * w;
    } else {
      assert c * w >= (m / w + 1) * w;
    }
  }

  /** `valid_section`: division first, so that the product cannot wrap. */
  function ValidSection(f: seq<Byte>, k: int): (ok: bool)
    requires HEADER_SIZE <= |f| < TWO63 && IsSection(k)
    ensures ok == SectionFits(f, k)
  {
    var offset, count := Offset(f, k) as uint64, Count(f, k) as uint64;
    var size, width := |f| as uint64, Width(k) as uint64;
    DivisionBound(count as int, width as int, TWO64 - 1);
    if offset < 176 || offset > size then false
    else if count > 0xFFFF_FFFF_FFFF_FFFF / width then false
    else count * width <= size - offset
  }

  /** The section placement loop. */
  method ValidatePlacement(f: seq<Byte>) returns (ok: bool)
    requires HEADER_SIZE <= |f| < TWO63 && AllFit(f)
    ensures ok == forall k :: 0 <= k < SECTION_COUNT ==> PlacedOk(f, k)
  {
    var previous: uint64 := 176;
    for k := 0 to SECTION_COUNT
      invariant previous as int == if k == 0 then HEADER_SIZE else SectionEnd(f, k - 1)
      invariant forall j :: 0 <= j < k ==> PlacedOk(f, j)
    {
      assert SectionFits(f, k);
      var offset := Offset(f, k) as uint64;
      if offset < previous || offset % 8 != 0 {
        assert !PlacedOk(f, k);
        return false;
      }
      previous := offset + Count(f, k) as uint64 * Width(k) as uint64;
    }
    return true;
  }

  /** The tests on the fixed part of the header. */
  function HeaderRejected(f: seq<Byte>): (b: bool)
    requires HEADER_SIZE <= |f|
    ensures b == !HeaderOk(f)
  {
    || f[..8] != [88, 68, 68, 66, 73, 78, 49, 0] || GetU32(f, 8) != 1 || GetU32(f, 12) != 0
    || GetU32(f, 16) != 0x0102_0304 || GetU32(f, 20) != 176 || GetU64(f, 24) != |f|
  }

  /** The tests on the section counts. */
  function CountsRejected(f: seq<Byte>): (b: bool)
    requires HEADER_SIZE <= |f|
    ensures b == !CountsOk(f)
  {
    || Count(f, SIGNALS) > 0x7FFF_FFFF || Count(f, DRIVERS) > 0x7FFF_FFFF
    || Count(f, LOADS) > 0x7FFF_FFFF || Count(f, PORTS) > 0x7FFF_FFFF
    || Count(f, NAME_INDEX) != Count(f, SIGNALS) || Count(f, DRIVERS + 1) != Count(f, SIGNALS) + 1
    || Count(f, LOADS + 1) != Count(f, SIGNALS) + 1 || Count(f, PORTS + 1) != Count(f, SIGNALS) + 1
    || Count(f, STRINGS) == 0
  }

  /** Header, section and placement checks together. */
  method ValidateShape(f: seq<Byte>) returns (ok: bool)
    requires HEADER_SIZE <= |f| < TWO63
    ensures ok == Shape(f)
  {
    if HeaderRejected(f) {
      return false;
    }
    var fits := true;
    for k := 0 to SECTION_COUNT
      invariant fits == forall j :: 0 <= j < k ==> SectionFits(f, j)
    {
      fits := fits && ValidSection(f, k);
    }
    if !fits || CountsRejected(f) {
      return false;
    }
    ok := ValidatePlacement(f);
  }

  // ---- Record arrays, read through 64-bit addresses ----

  function ReadSignal(f: seq<Byte>, i: uint64): (r: RawSignal)
    requires HEADER_SIZE <= |f| < TWO63 && SectionFits(f, SIGNALS) && i as int < Count(f, SIGNALS)
    ensures r == SignalAt(f, i as int)
  {
    RawSignal(Load32(f, SIGNALS, i, 0), Load32(f, SIGNALS, i, 1), Load32(f, SIGNALS, i, 2),
              AsI32(Load32(f, SIGNALS, i, 3)), AsI32(Load32(f, SIGNALS, i, 4)), AsI32(Load32(f, SIGNALS, i, 5)))
  }

  function ReadName(f: seq<Byte>, p: uint64): (r: RawName)
    requires HEADER_SIZE <= |f| < TWO63 && SectionFits(f, NAME_INDEX) && p as int < Count(f, NAME_INDEX)
    ensures r == NameAt(f, p as int)
  {
    RawName(Load32(f, NAME_INDEX, p, 0), AsI32(Load32(f, NAME_INDEX, p, 1)))
  }

  function ReadRecord(f: seq<Byte>, k: int, r: uint64): (rec: RawRecord)
    requires HEADER_SIZE <= |f| < TWO63 && IsGroup(k) && SectionFits(f, k) && r as int < Count(f, k)
    ensures rec == RecordAt(f, k, r as int)
  {
    var texts := seq(TextCount(k), j requires 0 <= j < TextCount(k) => Load32(f, k, r, 2 + j));
    assert texts == RecordAt(f, k, r as int).texts;
    RawRecord(AsI32(Load32(f, k, r, 0)), AsI32(Load32(f, k, r, 1)), texts,
              if HasLine(k) then AsI32(Load32(f, k, r, 2 + TextCount(k))) else 0)
  }

  /** `section<SignalRecord>(Signals)` as an array. */
  function ReadSignals(f: seq<Byte>): (rs: seq<RawSignal>)
    requires HEADER_SIZE <= |f| < TWO63 && SectionFits(f, SIGNALS)
    ensures rs == SignalsIn(f)
  {
    seq(Count(f, SIGNALS), i requires 0 <= i < Count(f, SIGNALS) => ReadSignal(f, i as uint64))
  }

  function ReadNames(f: seq<Byte>): (rs: seq<RawName>)
    requires HEADER_SIZE <= |f| < TWO63 && SectionFits(f, NAME_INDEX)
    ensures rs == NamesIn(f)
  {
    seq(Count(f, NAME_INDEX), p requires 0 <= p < Count(f, NAME_INDEX) => ReadName(f, p as uint64))
  }

  function ReadStarts(f: seq<Byte>, k: int): (ss: seq<int>)
    requires HEADER_SIZE <= |f| < TWO63 && IsGroup(k) && SectionFits(f, k + 1)
    ensures ss == StartsIn(f, k)
  {
    seq(Count(f, k + 1), s requires 0 <= s < Count(f, k + 1) => LoadStart(f, k, s as uint64) as int)
  }

  function ReadRecords(f: seq<Byte>, k: int): (rs: seq<RawRecord>)
    requires HEADER_SIZE <= |f| < TWO63 && IsGroup(k) && SectionFits(f, k)
    ensures rs == RecordsIn(f, k)
  {
    seq(Count(f, k), r requires 0 <= r < Count(f, k) => ReadRecord(f, k, r as uint64))
  }

  // ---- Strings, read through 64-bit addresses ----

  /** The mapped bytes with the string section inside them. */
  predicate Mapped(f: seq<Byte>) { HEADER_SIZE <= |f| < TWO63 && SectionFits(f, STRINGS) }

  /** `string_at`: an address in the mapping and the bytes from there to the end of the pool, in which
      `memchr` looks for a NUL. Neither the address nor the range wraps or leaves the file. */
  function StringAt(f: seq<Byte>, offset: Word): (r: Option<Str>)
    requires Mapped(f)
    ensures r == PoolString(Pool(f), offset)
  {
    var start, count := Offset(f, STRINGS) as uint64, Count(f, STRINGS) as uint64;
    if offset as uint64 >= count then None
    else
      var value, available := start + offset as uint64, count - offset as uint64;
      assert value as int + available as int <= |f|;
      assert f[value as int..(value + available) as int] == Pool(f)[offset..];
      CString(f[value as int..(value + available) as int])
  }

  /** The name index with its strings looked up. */
  function ReadEntries(f: seq<Byte>): (es: seq<Entry>)
    requires Mapped(f) && SectionFits(f, NAME_INDEX)
    ensures es == Entries(Pool(f), NamesIn(f))
  {
    var names := ReadNames(f);
    seq(|names|, p requires 0 <= p < |names| => Entry(StringAt(f, names[p].name), names[p].signal))
  }

  // ---- Record loops ----

  /** The tests on one signal record. */
  function SignalRejected(f: seq<Byte>, r: RawSignal): (b: bool)
    requires Mapped(f)
    ensures b == !SignalOk(Pool(f), r)
  {
    || StringAt(f, r.name).None? || StringAt(f, r.kind).None? || StringAt(f, r.file).None?
    || r.direction < 0 || r.direction > 3
  }

  method ValidateSignals(f: seq<Byte>, signals: seq<RawSignal>) returns (ok: bool)
    requires Mapped(f)
    ensures ok == forall i :: 0 <= i < |signals| ==> SignalOk(Pool(f), signals[i])
  {
    ghost var pool := Pool(f);
    for i := 0 to |signals|
      invariant forall j :: 0 <= j < i ==> SignalOk(pool, signals[j])
    {
      var rejected := CheckSignal(f, signals[i]);
      if rejected {
        return false;
      }
    }
    return true;
  }

  method CheckSignal(f: seq<Byte>, r: RawSignal) returns (rejected: bool)
    requires Mapped(f)
    ensures rejected == !SignalOk(Pool(f), r)
  {
    rejected := SignalRejected(f, r);
  }

  /** The per-entry tests of the name index loop other than the bitmap. */
  function EntryRejected(n: int, e: Entry, prior: Option<Str>): (b: bool)
    ensures b == !EntryOk(n, e, prior)
  {
    e.name.None? || e.signal < 0 || e.signal >= n || (prior.Some? && StrCmp(prior.value, e.name.value) >= 0)
  }

  /** Some entry before `i` names signal `s`. */
  ghost predicate Seen(es: seq<Entry>, i: int, s: int)
    requires 0 <= i <= |es|
  {
    exists p :: 0 <= p < i && es[p].signal == s
  }

  /** The first `i` entries pass their own tests. */
  ghost predicate EntriesOk(n: int, es: seq<Entry>, i: int) {
    forall x {:trigger Unfold(x)} :: Unfold(x) ==>
      0 <= i <= |es| && forall p :: 0 <= p < i ==> EntryOk(n, es[p], Prior(es, p))
  }

  lemma {:induction false} EntriesStep(n: int, es: seq<Entry>, i: int)
    requires EntriesOk(n, es, i) && 0 <= i < |es| && EntryOk(n, es[i], Prior(es, i))
    ensures EntriesOk(n, es, i + 1)
  {
    assert Unfold(0);
  }

  /** The first `i` entries name different signals, and the bitmap marks those signals. */
  ghost predicate Marked(indexed: seq<bool>, es: seq<Entry>, i: int) {
    && 0 <= i <= |es|
    && (forall p, q :: 0 <= p < q < i ==> es[p].signal != es[q].signal)
    && forall s :: 0 <= s < |indexed| ==> (indexed[s] <==> Seen(es, i, s))
  }

  lemma {:induction false} MarkedStep(indexed: seq<bool>, es: seq<Entry>, i: int)
    requires Marked(indexed, es, i) && i < |es| && 0 <= es[i].signal < |indexed| && !indexed[es[i].signal]
    ensures Marked(indexed[es[i].signal := true], es, i + 1)
  {
    var signal := es[i].signal;
    assert !Seen(es, i, signal);
    forall s | 0 <= s < |indexed|
      ensures Seen(es, i + 1, s) <==> s == signal || Seen(es, i, s)
    {
      if Seen(es, i, s) {
        var p :| 0 <= p < i && es[p].signal == s;
      }
    }
  }

  lemma {:induction false} SeenTwice(n: int, indexed: seq<bool>, es: seq<Entry>, i: int)
    requires Marked(indexed, es, i) && i < |es| && 0 <= es[i].signal < |indexed| && indexed[es[i].signal]
    ensures !NamesOk(n, es)
  {
    var p :| 0 <= p < i && es[p].signal == es[i].signal;
  }

  lemma {:induction false} AllEntriesOk(n: int, indexed: seq<bool>, es: seq<Entry>)
    requires |es| == n && EntriesOk(n, es, n) && Marked(indexed, es, n)
    ensures NamesOk(n, es)
  {
    assert Unfold(0);
  }

  /** The name index loop, with its `prior` name and its bitmap of seen signals. */
  method ValidateNames(n: int, es: seq<Entry>) returns (ok: bool)
    requires |es| == n
    ensures ok == NamesOk(n, es)
  {
    var prior: Option<Str> := None;
    var indexed: seq<bool> := seq(n, _ => false);
    for i := 0 to n
      invariant |indexed| == n && prior == Prior(es, i)
      invariant EntriesOk(n, es, i) && Marked(indexed, es, i)
    {
      if EntryRejected(n, es[i], prior) {
        return false;
      }
      if indexed[es[i].signal] {
        SeenTwice(n, indexed, es, i);
        return false;
      }
      EntriesStep(n, es, i);
      MarkedStep(indexed, es, i);
      indexed := indexed[es[i].signal := true];
      prior := es[i].name;
    }
    AllEntriesOk(n, indexed, es);
    return true;
  }

  /** `validate_starts`. */
  method ValidateStarts(n: int, starts: seq<int>, records: int) returns (ok: bool)
    requires 0 <= n && |starts| == n + 1
    ensures ok == StartsOk(starts, n, records)
  {
    if starts[0] != 0 || starts[n] != records {
      return false;
    }
    for i := 1 to n + 1
      invariant forall s :: 0 <= s < i ==> 0 <= starts[s]
      invariant forall s :: 0 <= s < n && s + 1 < i ==> StepOk(starts, s, records)
    {
      if starts[i] < starts[i - 1] || starts[i] > records {
        assert !StepOk(starts, i - 1, records);
        return false;
      }
    }
    return true;
  }

  /** The tests on one driver, load or port record. */
  function RecordRejected(f: seq<Byte>, n: int, lowest: int, r: RawRecord, owner: int): (b: bool)
    requires Mapped(f)
    ensures b == !RecordOk(Pool(f), n, lowest, r, owner)
  {
    || r.owner != owner || r.other < lowest || r.other >= n
    || exists j :: 0 <= j < |r.texts| && StringAt(f, r.texts[j]).None?
  }

  /** The owner-counting loop over one record section. */
  method ValidateGroups(f: seq<Byte>, n: int, lowest: int, t: Table) returns (ok: bool)
    requires Mapped(f) && StartsOk(t.starts, n, |t.records|)
    ensures ok == TableOk(Pool(f), n, lowest, t)
  {
    ghost var pool := Pool(f);
    var owner := 0;
    for i := 0 to |t.records|
      invariant 0 <= owner <= n && t.starts[owner] <= i
      invariant forall s, r :: 0 <= s < n && 0 <= r < i && InGroup(t.starts, s, r) ==>
                  RecordOk(pool, n, lowest, t.records[r], s)
    {
      while owner < n && i >= t.starts[owner + 1]
        invariant 0 <= owner <= n && t.starts[owner] <= i
      {
        owner := owner + 1;
      }
      assert owner < n && InGroup(t.starts, owner, i);
      if owner >= n || RecordRejected(f, n, lowest, t.records[i], owner) {
        return false;
      }
      forall s, r | 0 <= s < n && r == i && InGroup(t.starts, s, r)
        ensures s == owner
      {
        GroupUnique(t.starts, n, |t.records|, r, s, owner);
      }
    }
    return true;
  }

  /** `validate()`: accepts exactly the files `Accepts` describes. */
  method Validate(f: seq<Byte>) returns (ok: bool)
    requires HEADER_SIZE <= |f| < TWO63
    ensures ok == Accepts(f)
  {
    ok := ValidateShape(f);
    if !ok { return; }
    var n := N(f);
    ok := ValidateSignals(f, ReadSignals(f));
    if !ok { return; }
    ok := ValidateNames(n, ReadEntries(f));
    if !ok { return; }
    var drivers := Table(ReadStarts(f, DRIVERS), ReadRecords(f, DRIVERS));
    var loads := Table(ReadStarts(f, LOADS), ReadRecords(f, LOADS));
    var ports := Table(ReadStarts(f, PORTS), ReadRecords(f, PORTS));
    ok := ValidateTables(f, n, drivers, loads, ports);
  }

  /** All three starts arrays are checked before any record. */
  method ValidateTables(f: seq<Byte>, n: int, drivers: Table, loads: Table, ports: Table) returns (ok: bool)
    requires Mapped(f) && 0 <= n && |drivers.starts| == |loads.starts| == |ports.starts| == n + 1
    ensures ok == (&& TableOk(Pool(f), n, -1, drivers)
                   && TableOk(Pool(f), n, 0, loads)
                   && TableOk(Pool(f), n, 0, ports))
  {
    ok := ValidateStarts(n, drivers.starts, |drivers.records|);
    if !ok { return; }
    ok := ValidateStarts(n, loads.starts, |loads.records|);
    if !ok { return; }
    ok := ValidateStarts(n, ports.starts, |ports.records|);
    if !ok { return; }
    ok := ValidateGroups(f, n, -1, drivers);
    if !ok { return; }
    ok := ValidateGroups(f, n, 0, loads);
    if !ok { return; }
    ok := ValidateGroups(f, n, 0, ports);
  }
}
