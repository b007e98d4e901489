/** The converter's byte layout: rows of 32-bit fields, and `_pack_sections`. */
module Packing {
  import opened Bytes
  import opened Layout

  /** Records packed one after another. */
  function PackRows(rows: seq<seq<Word>>): (b: seq<Byte>) {
    if rows == [] then [] else PackRows(rows[..|rows| - 1]) + PackWords(rows[|rows| - 1])
  }

  ghost predicate RowsOf(rows: seq<seq<Word>>, w: nat) {
    forall i :: 0 <= i < |rows| ==> |rows[i]| == w
  }

  lemma {:induction false} PackRowsLength(rows: seq<seq<Word>>, w: nat)
    requires RowsOf(rows, w)
    ensures |PackRows(rows)| == 4 * w * |rows|
  {
    if rows != [] {
      PackRowsLength(rows[..|rows| - 1], w);
      assert 4 * w * |rows| == 4 * w * (|rows| - 1) + 4 * w;
    }
  }

  lemma {:induction false} RowAt(rows: seq<seq<Word>>, w: nat, i: int)
    requires RowsOf(rows, w) && 0 <= i < |rows|
    ensures 0 <= 4 * w * i && 4 * w * i + 4 * w <= |PackRows(rows)|
    ensures PackRows(rows)[4 * w * i..4 * w * i + 4 * w] == PackWords(rows[i])
  {
    var init := rows[..|rows| - 1];
    PackRowsLength(init, w);
    if i < |rows| - 1 {
      RowAt(init, w, i);
    }
  }

  lemma {:induction false} RowInFile(f: seq<Byte>, o: int, b: seq<Byte>, p: int, row: seq<Word>, j: int)
    requires 0 <= o && o + |b| <= |f| && f[o..o + |b|] == b
    requires 0 <= p && p + 4 * |row| <= |b| && b[p..p + 4 * |row|] == PackWords(row) && 0 <= j < |row|
    ensures GetU32(f, o + p + 4 * j) == row[j]
  {
    SubSlice(f, o, b, p, p + 4 * |row|);
    PackedAt(f, o + p, row, j);
  }

  /** Field `j` of row `i`, read from a file that holds the packed rows at offset `o`. */
  lemma {:induction false} RowFieldAt(f: seq<Byte>, o: int, rows: seq<seq<Word>>, w: nat, i: int, j: int)
    requires RowsOf(rows, w) && 0 <= i < |rows| && 0 <= j < w
    requires 0 <= o && o + |PackRows(rows)| <= |f| && f[o..o + |PackRows(rows)|] == PackRows(rows)
    ensures 0 <= 4 * w * i && o + 4 * w * i + 4 * w <= |f|
    ensures GetU32(f, o + 4 * w * i + 4 * j) == rows[i][j]
  {
    RowAt(rows, w, i);
    RowInFile(f, o, PackRows(rows), 4 * w * i, rows[i], j);
  }

  // ---- _pack_sections ----

  /** A section's bytes and the number of records it declares. */
  datatype Blob = Blob(bytes: seq<Byte>, count: int)

  /** The next multiple of 8. */
  function AlignUp(o: int): int { o + (-o) % 8 }

  lemma {:induction false} AlignUpBounds(o: int)
    ensures AlignUp(o) % 8 == 0 && o <= AlignUp(o) < o + 8
  {}

  /** Where the first `k` blobs end. */
  function EndOf(blobs: seq<Blob>, k: int): int
    requires 0 <= k <= |blobs|
  {
    if k == 0 then HEADER_SIZE else AlignUp(EndOf(blobs, k - 1)) + |blobs[k - 1].bytes|
  }

  /** Where blob `k` starts. */
  function OffsetOf(blobs: seq<Blob>, k: int): int
    requires 0 <= k < |blobs|
  {
    AlignUp(EndOf(blobs, k))
  }

  lemma {:induction false} EndsAscend(blobs: seq<Blob>, j: int, k: int)
    requires 0 <= j <= k <= |blobs|
    ensures HEADER_SIZE <= EndOf(blobs, j) <= EndOf(blobs, k)
    decreases k
  {
    if j < k {
      AlignUpBounds(EndOf(blobs, k - 1));
      EndsAscend(blobs, j, k - 1);
    } else if k > 0 {
      AlignUpBounds(EndOf(blobs, k - 1));
      EndsAscend(blobs, k - 1, k - 1);
    }
  }

  /** Blobs are 8-aligned and in order, with less than 8 bytes between neighbours. */
  lemma {:induction false} BlobsOrdered(blobs: seq<Blob>, j: int, k: int)
    requires 0 <= j < k <= |blobs|
    ensures OffsetOf(blobs, j) % 8 == 0
    ensures HEADER_SIZE <= OffsetOf(blobs, j) && OffsetOf(blobs, j) + |blobs[j].bytes| <= EndOf(blobs, k)
    ensures k < |blobs| ==> EndOf(blobs, k) <= OffsetOf(blobs, k) < EndOf(blobs, k) + 8
    ensures EndOf(blobs, j + 1) == OffsetOf(blobs, j) + |blobs[j].bytes|
  {
    EndsAscend(blobs, j, k);
    EndsAscend(blobs, j + 1, k);
    AlignUpBounds(EndOf(blobs, j));
    AlignUpBounds(EndOf(blobs, k));
  }

  predicate Packable(blobs: seq<Blob>) {
    && EndOf(blobs, |blobs|) < TWO64
    && forall k :: 0 <= k < |blobs| ==> 0 <= blobs[k].count < TWO64
  }

  /** Section entry `k` describes `b`, whose bytes are found where it points. */
  predicate Holds(f: seq<Byte>, b: Blob, k: int)
    requires |f| >= HEADER_SIZE && IsSection(k)
  {
    && HEADER_SIZE <= Offset(f, k) && Offset(f, k) + |b.bytes| <= |f|
    && f[Offset(f, k)..Offset(f, k) + |b.bytes|] == b.bytes
    && Count(f, k) == b.count
  }

  predicate Located(f: seq<Byte>, blobs: seq<Blob>, k: int)
    requires |f| >= HEADER_SIZE && 0 <= k < SECTION_COUNT == |blobs|
  {
    Offset(f, k) == OffsetOf(blobs, k)
  }

  /** File `f` is the packed form of `blobs`. */
  ghost predicate Packed(f: seq<Byte>, blobs: seq<Blob>) {
    && |blobs| == SECTION_COUNT
    && |f| == EndOf(blobs, SECTION_COUNT) && |f| >= HEADER_SIZE
    && HeaderOk(f)
    && (forall k :: 0 <= k < SECTION_COUNT ==> Holds(f, blobs[k], k))
    && (forall k :: 0 <= k < SECTION_COUNT ==> Located(f, blobs, k))
  }

  /** The four words of a section table row: two 64-bit numbers. */
  predicate RowIs(row: seq<Word>, offset: int, count: int) {
    |row| == 4 && row[0] + TWO32 * row[1] == offset && row[2] + TWO32 * row[3] == count
  }

  function SectionRow(offset: int, count: int): (row: seq<Word>)
    requires 0 <= offset < TWO64 && 0 <= count < TWO64
    ensures RowIs(row, offset, count)
  {
    Words64(offset) + Words64(count)
  }

  function PackHeader(size: int, rows: seq<seq<Word>>): seq<Byte>
    requires 0 <= size < TWO64
  {
    MAGIC + PackWords([MAJOR, MINOR, ENDIAN_TAG, HEADER_SIZE] + Words64(size)) + PackRows(rows)
  }

  lemma {:induction false} HeaderFields(f: seq<Byte>, size: int, rows: seq<seq<Word>>)
    requires 0 <= size < TWO64 && RowsOf(rows, 4) && |rows| == SECTION_COUNT
    requires PackHeader(size, rows) <= f
    ensures |PackHeader(size, rows)| == HEADER_SIZE <= |f|
    ensures f[..8] == MAGIC
    ensures GetU32(f, 8) == MAJOR && GetU32(f, 12) == MINOR
    ensures GetU32(f, 16) == ENDIAN_TAG && GetU32(f, 20) == HEADER_SIZE
    ensures GetU64(f, 24) == size
    ensures f[32..HEADER_SIZE] == PackRows(rows)
  {
    PackRowsLength(rows, 4);
    var ws := [MAJOR, MINOR, ENDIAN_TAG, HEADER_SIZE] + Words64(size);
    assert f[..HEADER_SIZE] == PackHeader(size, rows);
    assert f[8..8 + 4 * |ws|] == PackWords(ws);
    PackedAt(f, 8, ws, 0);
    PackedAt(f, 8, ws, 1);
    PackedAt(f, 8, ws, 2);
    PackedAt(f, 8, ws, 3);
    PackedAt(f, 8, ws, 4);
    PackedAt(f, 8, ws, 5);
    Words(f, 24);
  }

  lemma {:induction false} SectionFields(f: seq<Byte>, rows: seq<seq<Word>>, k: int, offset: int, count: int)
    requires RowsOf(rows, 4) && |rows| == SECTION_COUNT && 0 <= k < SECTION_COUNT
    requires RowIs(rows[k], offset, count)
    requires |f| >= HEADER_SIZE && f[32..HEADER_SIZE] == PackRows(rows)
    ensures Offset(f, k) == offset && Count(f, k) == count
  {
    RowFieldAt(f, 32, rows, 4, k, 0);
    RowFieldAt(f, 32, rows, 4, k, 1);
    RowFieldAt(f, 32, rows, 4, k, 2);
    RowFieldAt(f, 32, rows, 4, k, 3);
    Words(f, 32 + 16 * k);
    Words(f, 40 + 16 * k);
  }

  predicate InBody(body: seq<Byte>, o: int, bytes: seq<Byte>) {
    0 <= o && o + |bytes| <= |body| && body[o..o + |bytes|] == bytes
  }

  lemma {:induction false} InBodyExtend(body: seq<Byte>, longer: seq<Byte>, o: int, bytes: seq<Byte>)
    requires body <= longer && InBody(body, o, bytes)
    ensures InBody(longer, o, bytes)
  {
    assert longer[..|body|] == body;
    assert longer[o..o + |bytes|] == longer[..|body|][o..o + |bytes|];
  }

  function Locations(blobs: seq<Blob>, k: int): (ls: seq<(int, int)>)
    requires 0 <= k <= |blobs|
    ensures |ls| == k
  {
    if k == 0 then [] else Locations(blobs, k - 1) + [(OffsetOf(blobs, k - 1), blobs[k - 1].count)]
  }

  lemma {:induction false} LocationAt(blobs: seq<Blob>, k: int, j: int)
    requires 0 <= j < k <= |blobs|
    ensures Locations(blobs, k)[j] == (OffsetOf(blobs, j), blobs[j].count)
  {
    if j < k - 1 {
      LocationAt(blobs, k - 1, j);
    }
  }

  /** The body after the first `k` blobs: each is padded to a multiple of 8 and appended. */
  function BodyOf(blobs: seq<Blob>, k: int): seq<Byte>
    requires 0 <= k <= |blobs|
  {
    if k == 0 then []
    else BodyOf(blobs, k - 1) + Zeros(AlignUp(EndOf(blobs, k - 1)) - EndOf(blobs, k - 1)) + blobs[k - 1].bytes
  }

  lemma {:induction false} BodyLength(blobs: seq<Blob>, k: int)
    requires 0 <= k <= |blobs|
    ensures |BodyOf(blobs, k)| == EndOf(blobs, k) - HEADER_SIZE
  {
    if k > 0 {
      BodyLength(blobs, k - 1);
      AlignUpBounds(EndOf(blobs, k - 1));
    }
  }

  /** The body holds every blob at its offset. */
  lemma {:induction false} BodyHolds(blobs: seq<Blob>, k: int, j: int)
    requires 0 <= j < k <= |blobs|
    ensures InBody(BodyOf(blobs, k), OffsetOf(blobs, j) - HEADER_SIZE, blobs[j].bytes)
  {
    LastBlobHeld(blobs, j + 1);
    BodyKeeps(blobs, j + 1, k, OffsetOf(blobs, j) - HEADER_SIZE, blobs[j].bytes);
  }

  lemma {:induction false} BodyKeeps(blobs: seq<Blob>, m: int, k: int, o: int, bytes: seq<Byte>)
    requires 0 <= m <= k <= |blobs| && InBody(BodyOf(blobs, m), o, bytes)
    ensures InBody(BodyOf(blobs, k), o, bytes)
    decreases k
  {
    if m < k {
      BodyKeeps(blobs, m, k - 1, o, bytes);
      BodyGrows(blobs, k);
      InBodyExtend(BodyOf(blobs, k - 1), BodyOf(blobs, k), o, bytes);
    }
  }

  lemma {:induction false} LastBlobHeld(blobs: seq<Blob>, k: int)
    requires 0 < k <= |blobs|
    ensures InBody(BodyOf(blobs, k), OffsetOf(blobs, k - 1) - HEADER_SIZE, blobs[k - 1].bytes)
  {
    BodyLength(blobs, k - 1);
    AlignUpBounds(EndOf(blobs, k - 1));
    BodyAppended(BodyOf(blobs, k - 1), EndOf(blobs, k - 1), AlignUp(EndOf(blobs, k - 1)), blobs[k - 1].bytes);
  }

  lemma {:induction false} BodyGrows(blobs: seq<Blob>, k: int)
    requires 0 < k <= |blobs|
    ensures BodyOf(blobs, k - 1) <= BodyOf(blobs, k)
  {}

  /** What the placement loop has built: the end of the file, the section table and the body. */
  datatype Placement = Placement(size: int, locations: seq<(int, int)>, body: seq<Byte>)

  /** The placement loop of `_pack_sections`. */
  method PlaceBlobs(blobs: seq<Blob>) returns (r: Placement)
    ensures r == Placement(EndOf(blobs, |blobs|), Locations(blobs, |blobs|), BodyOf(blobs, |blobs|))
  {
    var offset, locations, body := HEADER_SIZE, [], [];
    for k := 0 to |blobs|
      invariant offset == EndOf(blobs, k)
      invariant locations == Locations(blobs, k)
      invariant body == BodyOf(blobs, k)
    {
      var padding := (-offset) % 8;
      body := body + Zeros(padding);
      offset := offset + padding;
      locations := locations + [(offset, blobs[k].count)];
      body := body + blobs[k].bytes;
      offset := offset + |blobs[k].bytes|;
    }
    return Placement(offset, locations, body);
  }

  lemma {:induction false} BodyAppended(before: seq<Byte>, end: int, at: int, bytes: seq<Byte>)
    requires |before| == end - HEADER_SIZE && end <= at
    ensures InBody(before + Zeros(at - end) + bytes, at - HEADER_SIZE, bytes)
  {}

  function Zeros(n: int): (z: seq<Byte>)
    ensures n >= 0 ==> |z| == n
  {
    if n < 0 then [] else seq(n, _ => 0)
  }

  /** `_pack_sections`: padding, blobs and header. It fails exactly when a size or
      count does not fit its 64-bit field, or the number of blobs is wrong. */
  method PackSections(blobs: seq<Blob>) returns (r: Result<seq<Byte>>)
    ensures r.Ok? <==> |blobs| == SECTION_COUNT && Packable(blobs)
    ensures r.Ok? ==> Packed(r.value, blobs)
    ensures r.Err? ==> r.error != PoolLimit
  {
    var placed := PlaceBlobs(blobs);
    var offset, locations, body := placed.size, placed.locations, placed.body;
    if !Packable(blobs) {
      return Err(PackRange);
    }
    if |locations| != SECTION_COUNT {
      return Err(Malformed("header size"));
    }
    var rows := SectionRows(blobs, locations);
    EndsAscend(blobs, 0, |blobs|);
    BodyPlaced(blobs, locations);
    Assembled(blobs, locations, rows, offset, body);
    return Ok(PackHeader(offset, rows) + body);
  }

  ghost predicate AllInBody(body: seq<Byte>, blobs: seq<Blob>, locations: seq<(int, int)>) {
    |locations| == |blobs| && forall j :: 0 <= j < |blobs| ==> InBody(body, locations[j].0 - HEADER_SIZE, blobs[j].bytes)
  }

  lemma {:induction false} BodyPlaced(blobs: seq<Blob>, locations: seq<(int, int)>)
    requires locations == Locations(blobs, |blobs|)
    ensures |BodyOf(blobs, |blobs|)| == EndOf(blobs, |blobs|) - HEADER_SIZE
    ensures AllInBody(BodyOf(blobs, |blobs|), blobs, locations)
  {
    BodyLength(blobs, |blobs|);
    forall j | 0 <= j < |blobs|
      ensures InBody(BodyOf(blobs, |blobs|), locations[j].0 - HEADER_SIZE, blobs[j].bytes)
    {
      BodyHolds(blobs, |blobs|, j);
      LocationAt(blobs, |blobs|, j);
    }
  }

  lemma {:induction false} Assembled(
    blobs: seq<Blob>, locations: seq<(int, int)>, rows: seq<seq<Word>>, size: int, body: seq<Byte>)
    requires |blobs| == SECTION_COUNT && locations == Locations(blobs, |blobs|) && 0 <= size < TWO64
    requires size == EndOf(blobs, |blobs|) && |body| == size - HEADER_SIZE && AllInBody(body, blobs, locations)
    requires |rows| == SECTION_COUNT && RowsOf(rows, 4)
    requires forall k :: 0 <= k < SECTION_COUNT ==> RowIs(rows[k], locations[k].0, locations[k].1)
    ensures Packed(PackHeader(size, rows) + body, blobs)
  {
    HeaderFields(PackHeader(size, rows) + body, size, rows);
    forall k | 0 <= k < SECTION_COUNT
      ensures Holds(PackHeader(size, rows) + body, blobs[k], k) && Located(PackHeader(size, rows) + body, blobs, k)
    {
      LocationAt(blobs, |blobs|, k);
      SectionHeld(PackHeader(size, rows), body, rows, k, locations[k].0, blobs[k]);
    }
  }

  lemma {:induction false} SectionHeld(header: seq<Byte>, body: seq<Byte>, rows: seq<seq<Word>>, k: int, offset: int, b: Blob)
    requires |header| == HEADER_SIZE && 0 <= k < SECTION_COUNT == |rows| && RowsOf(rows, 4)
    requires (header + body)[32..HEADER_SIZE] == PackRows(rows) && RowIs(rows[k], offset, b.count)
    requires InBody(body, offset - HEADER_SIZE, b.bytes)
    ensures Offset(header + body, k) == offset && Holds(header + body, b, k)
  {
    SectionFields(header + body, rows, k, offset, b.count);
    InFile(header, body, offset, b.bytes);
  }

  function SectionRows(blobs: seq<Blob>, locations: seq<(int, int)>): (rows: seq<seq<Word>>)
    requires Packable(blobs) && locations == Locations(blobs, |blobs|)
    ensures |rows| == |blobs| && RowsOf(rows, 4)
    ensures forall k :: 0 <= k < |rows| ==>
              && 0 <= locations[k].0 < TWO64 && 0 <= locations[k].1 < TWO64
              && RowIs(rows[k], locations[k].0, locations[k].1)
  {
    assert forall k :: 0 <= k < |blobs| ==> 0 <= locations[k].0 < TWO64 && 0 <= locations[k].1 < TWO64 by {
      forall k | 0 <= k < |blobs|
        ensures 0 <= locations[k].0 < TWO64 && 0 <= locations[k].1 < TWO64
      {
        LocationAt(blobs, |blobs|, k);
        BlobsOrdered(blobs, k, |blobs|);
      }
    }
    seq(|blobs|, k requires 0 <= k < |blobs| => SectionRow(locations[k].0, locations[k].1))
  }

  lemma {:induction false} InFile(header: seq<Byte>, body: seq<Byte>, o: int, bytes: seq<Byte>)
    requires |header| == HEADER_SIZE && InBody(body, o - HEADER_SIZE, bytes)
    ensures o + |bytes| <= |header + body| && (header + body)[o..o + |bytes|] == bytes
  {
    assert (header + body)[o..o + |bytes|] == body[o - HEADER_SIZE..o - HEADER_SIZE + |bytes|];
  }
}
