/** From the bytes of a DesignDB file to its image, and which files are accepted. */
module BinaryFile {
  import opened Bytes
  import opened Layout
  import opened Image

  predicate CountsOk(f: seq<Byte>)
    requires |f| >= HEADER_SIZE
  {
    var n := Count(f, SIGNALS);
    && n <= INT32_MAX && Count(f, DRIVERS) <= INT32_MAX
    && Count(f, LOADS) <= INT32_MAX && Count(f, PORTS) <= INT32_MAX
    && Count(f, NAME_INDEX) == n && Count(f, DRIVERS + 1) == n + 1
    && Count(f, LOADS + 1) == n + 1 && Count(f, PORTS + 1) == n + 1
    && Count(f, STRINGS) != 0
  }

  function SectionEnd(f: seq<Byte>, k: int): int
    requires |f| >= HEADER_SIZE && IsSection(k)
  {
    Offset(f, k) + Count(f, k) * Width(k)
  }

  /** Section `k` is aligned and starts after the one before it. */
  predicate PlacedOk(f: seq<Byte>, k: int)
    requires |f| >= HEADER_SIZE && IsSection(k)
  {
    (if k == 0 then HEADER_SIZE else SectionEnd(f, k - 1)) <= Offset(f, k) && Offset(f, k) % 8 == 0
  }

  ghost predicate AllFit(f: seq<Byte>)
    requires |f| >= HEADER_SIZE
  {
    forall k :: 0 <= k < SECTION_COUNT ==> SectionFits(f, k)
  }

  /** The header and section table are sound: raw access stays inside the file. */
  ghost predicate Shape(f: seq<Byte>) {
    && |f| >= HEADER_SIZE
    && HeaderOk(f) && AllFit(f) && CountsOk(f)
    && forall k :: 0 <= k < SECTION_COUNT ==> PlacedOk(f, k)
  }

  function N(f: seq<Byte>): (n: nat)
    requires |f| >= HEADER_SIZE
  {
    Count(f, SIGNALS)
  }

  // ---- Records ----

  function SignalAt(f: seq<Byte>, i: int): RawSignal
    requires |f| >= HEADER_SIZE && SectionFits(f, SIGNALS) && 0 <= i < Count(f, SIGNALS)
  {
    RawSignal(Field(f, SIGNALS, i, 0), Field(f, SIGNALS, i, 1), Field(f, SIGNALS, i, 2),
              AsI32(Field(f, SIGNALS, i, 3)), AsI32(Field(f, SIGNALS, i, 4)), AsI32(Field(f, SIGNALS, i, 5)))
  }

  function NameAt(f: seq<Byte>, p: int): RawName
    requires |f| >= HEADER_SIZE && SectionFits(f, NAME_INDEX) && 0 <= p < Count(f, NAME_INDEX)
  {
    RawName(Field(f, NAME_INDEX, p, 0), AsI32(Field(f, NAME_INDEX, p, 1)))
  }

  function RecordAt(f: seq<Byte>, k: int, r: int): RawRecord
    requires |f| >= HEADER_SIZE && IsGroup(k) && SectionFits(f, k) && 0 <= r < Count(f, k)
  {
    RawRecord(AsI32(Field(f, k, r, 0)), AsI32(Field(f, k, r, 1)),
              seq(TextCount(k), j requires 0 <= j < TextCount(k) => Field(f, k, r, 2 + j)),
              if HasLine(k) then AsI32(Field(f, k, r, 2 + TextCount(k))) else 0)
  }

  function SignalsIn(f: seq<Byte>): (rs: seq<RawSignal>)
    requires |f| >= HEADER_SIZE && SectionFits(f, SIGNALS)
    ensures |rs| == Count(f, SIGNALS) && forall i :: 0 <= i < |rs| ==> rs[i] == SignalAt(f, i)
  {
    seq(Count(f, SIGNALS), i requires 0 <= i < Count(f, SIGNALS) => SignalAt(f, i))
  }

  function NamesIn(f: seq<Byte>): (rs: seq<RawName>)
    requires |f| >= HEADER_SIZE && SectionFits(f, NAME_INDEX)
    ensures |rs| == Count(f, NAME_INDEX) && forall p :: 0 <= p < |rs| ==> rs[p] == NameAt(f, p)
  {
    seq(Count(f, NAME_INDEX), p requires 0 <= p < Count(f, NAME_INDEX) => NameAt(f, p))
  }

  function StartsIn(f: seq<Byte>, k: int): (ss: seq<int>)
    requires |f| >= HEADER_SIZE && IsGroup(k) && SectionFits(f, k + 1)
    ensures |ss| == Count(f, k + 1) && forall s :: 0 <= s < |ss| ==> ss[s] == Start(f, k, s)
  {
    seq(Count(f, k + 1), s requires 0 <= s < Count(f, k + 1) => Start(f, k, s))
  }

  function RecordsIn(f: seq<Byte>, k: int): (rs: seq<RawRecord>)
    requires |f| >= HEADER_SIZE && IsGroup(k) && SectionFits(f, k)
    ensures |rs| == Count(f, k) && forall r :: 0 <= r < |rs| ==> rs[r] == RecordAt(f, k, r)
  {
    seq(Count(f, k), r requires 0 <= r < Count(f, k) => RecordAt(f, k, r))
  }

  function TableIn(f: seq<Byte>, k: int): Table
    requires |f| >= HEADER_SIZE && IsGroup(k) && SectionFits(f, k) && SectionFits(f, k + 1)
  {
    Table(StartsIn(f, k), RecordsIn(f, k))
  }

  /** The image a file with a sound section table holds. */
  ghost function Parse(f: seq<Byte>): (m: Image)
    requires Shape(f)
    ensures |m.signals| == N(f)
  {
    Image(SignalsIn(f), NamesIn(f), TableIn(f, DRIVERS), TableIn(f, LOADS), TableIn(f, PORTS), Pool(f))
  }

  ghost predicate Accepts(f: seq<Byte>) {
    Shape(f) && ImageOk(Parse(f))
  }

  /** The table of a record section. */
  function TableOf(m: Image, k: int): Table
    requires IsGroup(k)
  {
    if k == DRIVERS then m.drivers else if k == LOADS then m.loads else m.ports
  }
}
