/** `BinaryDesignBackend`: a mapped file that has passed validation, queried by raw
    address arithmetic. A backend that is not open answers nothing. */
module Backend {
  import opened Bytes
  import opened DesignModel
  import opened Image
  import opened Layout
  import opened BinaryFile
  import opened Accepted
  import Validator
  import Resolver

  datatype DriverRecord = DriverRecord(
    srcSignal: int, kind: Str, dependencyRole: Str, activationPredicate: Str, file: Str, line: int)
  datatype LoadRecord = LoadRecord(consumer: int, kind: Str, file: Str, line: int)
  datatype PortConnection = PortConnection(portSignal: int, connectedSignal: int, kind: Str)

  predicate HaveTexts(es: seq<Edge<Str>>, n: int) {
    forall i :: 0 <= i < |es| ==> |es[i].texts| == n
  }

  function DriversOf(es: seq<Edge<Str>>): seq<DriverRecord>
    requires HaveTexts(es, TextCount(DRIVERS))
  {
    seq(|es|, i requires 0 <= i < |es| =>
      var e := es[i]; DriverRecord(e.other, e.texts[0], e.texts[1], e.texts[2], e.texts[3], e.line))
  }

  function LoadsOf(es: seq<Edge<Str>>): seq<LoadRecord>
    requires HaveTexts(es, TextCount(LOADS))
  {
    seq(|es|, i requires 0 <= i < |es| =>
      var e := es[i]; LoadRecord(e.other, e.texts[0], e.texts[1], e.line))
  }

  function PortsOf(owners: seq<int>, es: seq<Edge<Str>>): seq<PortConnection>
    requires |owners| == |es| && HaveTexts(es, TextCount(PORTS))
  {
    seq(|es|, i requires 0 <= i < |es| =>
      var e := es[i]; PortConnection(owners[i], e.other, e.texts[0]))
  }

  /** The reported drivers are the denoted ones, field by field. */
  predicate AreDrivers(out: seq<DriverRecord>, es: seq<Edge<Str>>) {
    && |out| == |es|
    && forall j :: 0 <= j < |es| ==>
         && |es[j].texts| == 4 && out[j].srcSignal == es[j].other && out[j].kind == es[j].texts[0]
         && out[j].dependencyRole == es[j].texts[1] && out[j].activationPredicate == es[j].texts[2]
         && out[j].file == es[j].texts[3] && out[j].line == es[j].line
  }

  predicate AreLoads(out: seq<LoadRecord>, es: seq<Edge<Str>>) {
    && |out| == |es|
    && forall j :: 0 <= j < |es| ==>
         && |es[j].texts| == 2 && out[j].consumer == es[j].other && out[j].kind == es[j].texts[0]
         && out[j].file == es[j].texts[1] && out[j].line == es[j].line
  }

  /** The same for ports, which all belong to `signal`. */
  predicate ArePorts(out: seq<PortConnection>, signal: int, es: seq<Edge<Str>>) {
    && |out| == |es|
    && forall j :: 0 <= j < |es| ==>
         && |es[j].texts| == 1 && out[j].portSignal == signal && out[j].connectedSignal == es[j].other
         && out[j].kind == es[j].texts[0]
  }

  /** The records of group `k` of signal `i` that the file denotes. */
  ghost function EdgesIn(f: seq<Byte>, k: int, i: int): seq<Edge<Str>>
    requires Accepts(f) && IsGroup(k) && 0 <= i < N(f)
  {
    EdgesOf(Pool(f), TableIn(f, k), i)
  }

  lemma {:induction false} DenotedEdges(f: seq<Byte>, i: int)
    requires Accepts(f) && 0 <= i < N(f)
    ensures Denotes(Parse(f))[i].drivers == EdgesIn(f, DRIVERS, i)
    ensures Denotes(Parse(f))[i].loads == EdgesIn(f, LOADS, i)
    ensures Denotes(Parse(f))[i].ports == EdgesIn(f, PORTS, i)
  {
    assert Denotes(Parse(f))[i] == SignalOf(Parse(f), i);
  }

  lemma {:induction false} GroupSize(f: seq<Byte>, k: int, i: int)
    requires Accepts(f) && IsGroup(k) && 0 <= i < N(f)
    ensures 0 <= StartsIn(f, k)[i] <= StartsIn(f, k)[i + 1] <= Count(f, k) <= INT32_MAX
    ensures EdgesIn(f, k, i) ==
            Map(r => EdgeOf(Pool(f), r), RecordsIn(f, k)[StartsIn(f, k)[i]..StartsIn(f, k)[i + 1]])
    ensures |EdgesIn(f, k, i)| == StartsIn(f, k)[i + 1] - StartsIn(f, k)[i]
    ensures HaveTexts(EdgesIn(f, k, i), TextCount(k))
    ensures forall r :: StartsIn(f, k)[i] <= r < StartsIn(f, k)[i + 1] ==> RecordsIn(f, k)[r].owner == i
  {
    FileTable(f, k);
    TableGroup(Pool(f), N(f), LowestOther(k), TableIn(f, k), i);
  }

  /** An entry of a starts array, read through its 64-bit address. */
  function RangeBound(f: seq<Byte>, k: int, s: int): (n: int)
    requires |f| < TWO63 && Accepts(f) && IsGroup(k) && 0 <= s <= N(f)
    ensures n == StartsIn(f, k)[s]
  {
    LoadStart(f, k, s as uint64) as int
  }

  /** One record for the caller, its strings read in the mapping. */
  function ReadEdge(f: seq<Byte>, r: RawRecord): (e: Edge<Str>)
    requires Validator.Mapped(f)
    ensures e == EdgeOf(Pool(f), r)
  {
    Edge(r.other,
         Map(o => if Validator.StringAt(f, o).Some? then Validator.StringAt(f, o).value else [], r.texts),
         r.line)
  }

  /** The fill loop shared by `trace_driver`, `trace_load` and `port_connections`;
      only the last also reports each record's owner. */
  method ReadGroup(f: seq<Byte>, records: seq<RawRecord>, begin: int, end: int)
    returns (owners: seq<int>, out: seq<Edge<Str>>)
    requires Validator.Mapped(f) && 0 <= begin <= end <= |records|
    ensures |owners| == end - begin && forall i :: 0 <= i < |owners| ==> owners[i] == records[begin + i].owner
    ensures out == Map(r => EdgeOf(Pool(f), r), records[begin..end])
  {
    owners, out := [], [];
    ghost var pool := Pool(f);
    for r := begin to end
      invariant |owners| == |out| == r - begin
      invariant forall i :: 0 <= i < |out| ==> out[i] == EdgeOf(pool, records[begin + i])
      invariant forall i :: 0 <= i < |out| ==> owners[i] == records[begin + i].owner
    {
      owners := owners + [records[r].owner];
      out := out + [ReadEdge(f, records[r])];
    }
  }

  class BinaryDesignBackend {
    var mapping: Option<seq<Byte>>

    /** An open backend holds an accepted file. */
    ghost predicate Valid()
      reads this
    {
      mapping.Some? ==> |mapping.value| < TWO63 && Accepts(mapping.value)
    }

    /** The design this backend presents: none when closed. */
    ghost function Contents(): seq<Signal<Str>>
      reads this
      requires Valid()
    {
      if mapping.None? then [] else Denotes(Parse(mapping.value))
    }

    constructor ()
      ensures Valid() && mapping == None
    {
      mapping := None;
    }

    /** Maps a file with the given contents; a rejected file leaves the backend closed. */
    method Open(contents: seq<Byte>) returns (ok: bool)
      requires |contents| < TWO63
      modifies this
      ensures Valid()
      ensures ok == Accepts(contents)
      ensures mapping == if ok then Some(contents) else None
    {
      Close();
      if |contents| < HEADER_SIZE {
        return false;
      }
      ok := Validator.Validate(contents);
      if ok {
        mapping := Some(contents);
      }
    }

    method Close()
      modifies this
      ensures Valid() && mapping == None
    {
      mapping := None;
    }

    function SignalCount(): (n: int)
      reads this
      requires Valid()
      ensures n == |Contents()| && n <= INT32_MAX
    {
      if mapping.None? then 0 else Count(mapping.value, SIGNALS)
    }

    predicate ValidSignal(index: int)
      reads this
      requires Valid()
      ensures ValidSignal(index) <==> 0 <= index < |Contents()|
    {
      mapping.Some? && index >= 0 && index < Count(mapping.value, SIGNALS)
    }

    function SignalName(index: int): (r: Option<Str>)
      reads this
      requires Valid()
      ensures r == if 0 <= index < |Contents()| then Some(Contents()[index].name) else None
    {
      if ValidSignal(index) then
        StringsPresent(mapping.value, index);
        Validator.StringAt(mapping.value, Validator.ReadSignal(mapping.value, index as uint64).name)
      else None
    }

    function SignalType(index: int): (r: Option<Str>)
      reads this
      requires Valid()
      ensures r == if 0 <= index < |Contents()| then Some(Contents()[index].kind) else None
    {
      if ValidSignal(index) then
        StringsPresent(mapping.value, index);
        Validator.StringAt(mapping.value, Validator.ReadSignal(mapping.value, index as uint64).kind)
      else None
    }

    function SignalFile(index: int): (r: Option<Str>)
      reads this
      requires Valid()
      ensures r == if 0 <= index < |Contents()| then Some(Contents()[index].file) else None
    {
      if ValidSignal(index) then
        StringsPresent(mapping.value, index);
        Validator.StringAt(mapping.value, Validator.ReadSignal(mapping.value, index as uint64).file)
      else None
    }

    function SignalWidth(index: int): (r: int)
      reads this
      requires Valid()
      ensures r == if 0 <= index < |Contents()| then Contents()[index].width else 0
    {
      if ValidSignal(index) then
        StringsPresent(mapping.value, index);
        Validator.ReadSignal(mapping.value, index as uint64).width
      else 0
    }

    function SignalLine(index: int): (r: int)
      reads this
      requires Valid()
      ensures r == if 0 <= index < |Contents()| then Contents()[index].line else 0
    {
      if ValidSignal(index) then
        StringsPresent(mapping.value, index);
        Validator.ReadSignal(mapping.value, index as uint64).line
      else 0
    }

    function SignalDirection(index: int): (r: int)
      reads this
      requires Valid()
      ensures r == if 0 <= index < |Contents()| then Contents()[index].direction else 0
      ensures 0 <= r <= 3
    {
      if ValidSignal(index) then
        StringsPresent(mapping.value, index);
        Validator.ReadSignal(mapping.value, index as uint64).direction
      else 0
    }

    /** `resolve`: the first spelling of the query that the name index holds. */
    method Resolve(name: Option<Str>) returns (signal: int)
      requires Valid()
      ensures mapping.None? || name.None? ==> signal == -1
      ensures mapping.Some? && name.Some? ==> signal == Resolver.Resolved(IndexIn(mapping.value), name.value)
      ensures name.Some? && name.value == [] ==> signal == -1
      ensures mapping.Some? && name.Some? && name.value != [] ==>
                Resolver.FirstBorne(IndexIn(mapping.value), Resolver.Spellings(name.value), signal)
    {
      if mapping.None? {
        return -1;
      }
      AcceptedIndex(mapping.value);
      signal := Resolver.Resolve(N(mapping.value), Validator.ReadEntries(mapping.value), name);
    }

    /** `grouped_range`: on success the records `begin .. end` are those of `signal`. */
    method GroupedRange(k: int, signal: int) returns (found: bool, begin: int, end: int)
      requires Valid() && IsGroup(k)
      ensures found == (0 <= signal < |Contents()|)
      ensures found ==> begin == StartsIn(mapping.value, k)[signal] && end == StartsIn(mapping.value, k)[signal + 1]
      ensures found ==> 0 <= begin <= end <= Count(mapping.value, k) <= INT32_MAX
    {
      if !ValidSignal(signal) {
        return false, 0, 0;
      }
      var f := mapping.value;
      begin, end := RangeBound(f, k, signal), RangeBound(f, k, signal + 1);
      GroupSize(f, k, signal);
      found := end <= Count(f, k);
    }

    /** `trace_driver_count`, `trace_load_count` and `port_conn_count`. */
    method RecordCount(k: int, signal: int) returns (count: int)
      requires Valid() && IsGroup(k)
      ensures count == if 0 <= signal < |Contents()| then |EdgesIn(mapping.value, k, signal)| else 0
    {
      var found, begin, end := GroupedRange(k, signal);
      if !found {
        return 0;
      }
      GroupSize(mapping.value, k, signal);
      count := end - begin;
    }

    method TraceDriver(signal: int) returns (count: int, out: seq<DriverRecord>)
      requires Valid()
      ensures count == |out|
      ensures !(0 <= signal < |Contents()|) ==> out == []
      ensures 0 <= signal < |Contents()| ==> AreDrivers(out, Contents()[signal].drivers)
    {
      var found, begin, end := GroupedRange(DRIVERS, signal);
      if !found {
        return 0, [];
      }
      DenotedEdges(mapping.value, signal);
      GroupSize(mapping.value, DRIVERS, signal);
      var owners, edges := ReadGroup(mapping.value, Validator.ReadRecords(mapping.value, DRIVERS), begin, end);
      out := DriversOf(edges);
      count := |out|;
    }

    method TraceLoad(signal: int) returns (count: int, out: seq<LoadRecord>)
      requires Valid()
      ensures count == |out|
      ensures !(0 <= signal < |Contents()|) ==> out == []
      ensures 0 <= signal < |Contents()| ==> AreLoads(out, Contents()[signal].loads)
    {
      var found, begin, end := GroupedRange(LOADS, signal);
      if !found {
        return 0, [];
      }
      DenotedEdges(mapping.value, signal);
      GroupSize(mapping.value, LOADS, signal);
      var owners, edges := ReadGroup(mapping.value, Validator.ReadRecords(mapping.value, LOADS), begin, end);
      out := LoadsOf(edges);
      count := |out|;
    }

    method PortConnections(signal: int) returns (count: int, out: seq<PortConnection>)
      requires Valid()
      ensures count == |out|
      ensures !(0 <= signal < |Contents()|) ==> out == []
      ensures 0 <= signal < |Contents()| ==> ArePorts(out, signal, Contents()[signal].ports)
    {
      var found, begin, end := GroupedRange(PORTS, signal);
      if !found {
        return 0, [];
      }
      DenotedEdges(mapping.value, signal);
      GroupSize(mapping.value, PORTS, signal);
      var owners, edges := ReadGroup(mapping.value, Validator.ReadRecords(mapping.value, PORTS), begin, end);
      out := PortsOf(owners, edges);
      count := |out|;
    }

  }
}
