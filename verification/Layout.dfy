/** The on-disk layout of binary DesignDB v1: header, section table, record widths,
    and raw field access. */
module Layout {
  import opened Bytes

  const MAGIC: seq<Byte> := [88, 68, 68, 66, 73, 78, 49, 0]
  const MAJOR := 1
  const MINOR := 0
  const ENDIAN_TAG := 0x0102_0304
  const HEADER_SIZE := 176
  const SECTION_COUNT := 9

  const SIGNALS := 0
  const NAME_INDEX := 1
  const DRIVERS := 2
  const LOADS := 4
  const PORTS := 6
  const STRINGS := 8

  /** The record sections; the starts array of section `k` is section `k + 1`. */
  predicate IsGroup(k: int) { k == DRIVERS || k == LOADS || k == PORTS }

  predicate IsSection(k: int) { 0 <= k < SECTION_COUNT }

  /** sizeof the records of a section. */
  function Width(k: int): (w: int)
    requires IsSection(k)
    ensures 1 <= w <= 28
  {
    if k == SIGNALS then 24
    else if k == DRIVERS then 28
    else if k == LOADS then 20
    else if k == PORTS then 12
    else if k == STRINGS then 1
    else 8
  }

  /** Number of string-pool references in a driver, load or port record; they
      start at the third field. */
  function TextCount(k: int): int
    requires IsGroup(k)
  {
    if k == DRIVERS then 4 else if k == LOADS then 2 else 1
  }

  predicate HasLine(k: int) { k == DRIVERS || k == LOADS }

  /** Smallest signal index a record may refer to: only a driver may have no source. */
  function LowestOther(k: int): int { if k == DRIVERS then -1 else 0 }

  function Offset(f: seq<Byte>, k: int): (o: int)
    requires |f| >= HEADER_SIZE && IsSection(k)
    ensures 0 <= o < TWO64
  {
    GetU64(f, 32 + 16 * k)
  }

  function Count(f: seq<Byte>, k: int): (c: int)
    requires |f| >= HEADER_SIZE && IsSection(k)
    ensures 0 <= c < TWO64
  {
    GetU64(f, 40 + 16 * k)
  }

  /** The fixed part of the header. */
  predicate HeaderOk(f: seq<Byte>)
    requires |f| >= HEADER_SIZE
  {
    && f[..8] == MAGIC
    && GetU32(f, 8) == MAJOR && GetU32(f, 12) == MINOR
    && GetU32(f, 16) == ENDIAN_TAG && GetU32(f, 20) == HEADER_SIZE
    && GetU64(f, 24) == |f|
  }

  /** Section `k` lies between the header and the end of the file. */
  predicate SectionFits(f: seq<Byte>, k: int)
    requires |f| >= HEADER_SIZE && IsSection(k)
  {
    && HEADER_SIZE <= Offset(f, k) <= |f|
    && Count(f, k) * Width(k) <= |f| - Offset(f, k)
  }

  lemma {:induction false} RecordFits(w: int, i: int, c: int)
    requires w > 0 && 0 <= i < c
    ensures 0 <= w * i && w * i + w <= c * w
  {
    assert (i + 1) * w <= c * w;
  }

  /** The `j`-th 32-bit field of the `i`-th record of section `k`. */
  function Field(f: seq<Byte>, k: int, i: int, j: int): (w: Word)
    requires |f| >= HEADER_SIZE && IsSection(k) && SectionFits(f, k)
    requires 0 <= i < Count(f, k) && 0 <= j && 4 * j + 4 <= Width(k)
  {
    RecordFits(Width(k), i, Count(f, k));
    GetU32(f, Offset(f, k) + Width(k) * i + 4 * j)
  }

  /** Entry `s` of the starts array that belongs to record section `k`. */
  function Start(f: seq<Byte>, k: int, s: int): (n: int)
    requires |f| >= HEADER_SIZE && IsGroup(k) && SectionFits(f, k + 1)
    requires 0 <= s < Count(f, k + 1)
    ensures 0 <= n < TWO64
  {
    GetU64(f, Offset(f, k + 1) + 8 * s)
  }

  function Pool(f: seq<Byte>): (p: seq<Byte>)
    requires |f| >= HEADER_SIZE && SectionFits(f, STRINGS)
    ensures |p| == Count(f, STRINGS)
  {
    f[Offset(f, STRINGS)..Offset(f, STRINGS) + Count(f, STRINGS)]
  }

  // ---- 64-bit address arithmetic as the reader performs it ----

  newtype uint64 = n: int | 0 <= n < 0x1_0000_0000_0000_0000

  /** Address of a record, computed in uint64: no sum or product here wraps. */
  function Address(f: seq<Byte>, k: int, i: uint64): (o: uint64)
    requires HEADER_SIZE <= |f| < TWO63 && IsSection(k) && SectionFits(f, k)
    requires i as int < Count(f, k)
    ensures o as int == Offset(f, k) + Width(k) * i as int
    ensures o as int + Width(k) <= |f|
  {
    RecordFits(Width(k), i as int, Count(f, k));
    Offset(f, k) as uint64 + Width(k) as uint64 * i
  }

  function Load32(f: seq<Byte>, k: int, i: uint64, j: int): (w: Word)
    requires HEADER_SIZE <= |f| < TWO63 && IsSection(k) && SectionFits(f, k)
    requires i as int < Count(f, k) && 0 <= j && 4 * j + 4 <= Width(k)
    ensures w == Field(f, k, i as int, j)
  {
    GetU32(f, (Address(f, k, i) + (4 * j) as uint64) as int)
  }

  function LoadStart(f: seq<Byte>, k: int, s: uint64): (n: uint64)
    requires HEADER_SIZE <= |f| < TWO63 && IsGroup(k) && SectionFits(f, k + 1)
    requires s as int < Count(f, k + 1)
    ensures n as int == Start(f, k, s as int)
  {
    GetU64(f, Address(f, k + 1, s) as int) as uint64
  }
}
