/** Bytes, little-endian words, C strings and lexicographic order: the vocabulary
    shared by the DesignDB writer and both of its readers. */
module Bytes {

  type Byte = b: int | 0 <= b < 256
  const TWO31 := 0x8000_0000
  const TWO32 := 0x1_0000_0000
  const TWO63 := 0x8000_0000_0000_0000
  const TWO64 := 0x1_0000_0000_0000_0000
  const INT32_MAX := 0x7FFF_FFFF
  type Word = w: int | 0 <= w < TWO32

  datatype Option<+T> = None | Some(value: T)

  datatype Error = PoolLimit | PackRange | Malformed(reason: string) | NotUtf8
  datatype Result<+T> = Ok(value: T) | Err(error: Error)

  /** The number a little-endian byte string stands for. */
  function LE(b: seq<Byte>): nat {
    if b == [] then 0 else b[0] as int + 256 * LE(b[1..])
  }

  /** The little-endian form of `n` in `k` bytes. */
  function ToLE(n: nat, k: nat): (b: seq<Byte>)
    ensures |b| == k
  {
    if k == 0 then [] else [n % 256] + ToLE(n / 256, k - 1)
  }

  lemma {:induction false} LE4(b: seq<Byte>, rest: seq<Byte>)
    requires |b| == 4
    ensures LE(b) < TWO32
    ensures LE(b + rest) == LE(b) + TWO32 * LE(rest)
  {
    var b1, b2, b3 := b[1..], b[2..], b[3..];
    assert b1[1..] == b2 && b2[1..] == b3 && b3[1..] == [];
    assert LE(b) == b[0] as int + 256 * LE(b1);
    assert LE(b1) == b[1] as int + 256 * LE(b2);
    assert LE(b2) == b[2] as int + 256 * LE(b3);
    assert LE(b3) == b[3] as int;
    var c := b + rest;
    assert c[1..] == b1 + rest && (b1 + rest)[1..] == b2 + rest;
    assert (b2 + rest)[1..] == b3 + rest && (b3 + rest)[1..] == rest;
    assert LE(c) == b[0] as int + 256 * LE(b1 + rest);
    assert LE(b1 + rest) == b[1] as int + 256 * LE(b2 + rest);
    assert LE(b2 + rest) == b[2] as int + 256 * LE(b3 + rest);
    assert LE(b3 + rest) == b[3] as int + 256 * LE(rest);
  }

  function GetU32(f: seq<Byte>, o: int): (w: Word)
    requires 0 <= o && o + 4 <= |f|
  {
    LE4(f[o..o + 4], []);
    LE(f[o..o + 4])
  }

  function GetU64(f: seq<Byte>, o: int): (n: int)
    requires 0 <= o && o + 8 <= |f|
    ensures 0 <= n < TWO64
  {
    Words(f, o);
    LE(f[o..o + 8])
  }

  /** A uint64 is two words, low word first. */
  lemma {:induction false} Words(f: seq<Byte>, o: int)
    requires 0 <= o && o + 8 <= |f|
    ensures LE(f[o..o + 8]) == GetU32(f, o) + TWO32 * GetU32(f, o + 4)
  {
    assert f[o..o + 8] == f[o..o + 4] + f[o + 4..o + 8];
    LE4(f[o..o + 4], f[o + 4..o + 8]);
  }

  predicate IsInt32(x: int) { -TWO31 <= x < TWO31 }

  /** Two's complement, both ways. */
  function AsI32(w: Word): (x: int)
    ensures IsInt32(x) && (x == w || x == w - 4294967296)
  {
    if w < TWO31 then w else w - TWO32
  }

  function FromI32(x: int): (w: Word)
    ensures IsInt32(x) ==> AsI32(w) == x
  {
    x % TWO32
  }

  /** What `struct.pack` lays down for a row of 32-bit fields. */
  function PackWords(ws: seq<Word>): (b: seq<Byte>)
    ensures |b| == 4 * |ws|
  {
    if ws == [] then [] else PackWords(ws[..|ws| - 1]) + ToLE(ws[|ws| - 1], 4)
  }

  /** The two words of a packed uint64. */
  function Words64(n: int): (ws: seq<Word>)
    ensures |ws| == 2
    ensures 0 <= n < TWO64 ==> ws[0] + TWO32 * ws[1] == n
  {
    [n % TWO32, n / TWO32 % TWO32]
  }

  lemma {:induction false} ToLERoundTrip(w: Word)
    ensures LE(ToLE(w, 4)) == w
  {
    var a, b, c := w / 256, w / 256 / 256, w / 256 / 256 / 256;
    assert ToLE(c, 1) == [c];
    assert ToLE(b, 2) == [b % 256] + ToLE(c, 1);
    assert ToLE(a, 3) == [a % 256] + ToLE(b, 2);
    assert LE(ToLE(c, 1)) == c;
    assert LE(ToLE(b, 2)) == b by { assert ToLE(b, 2)[1..] == ToLE(c, 1); }
    assert LE(ToLE(a, 3)) == a by { assert ToLE(a, 3)[1..] == ToLE(b, 2); }
    assert ToLE(w, 4)[1..] == ToLE(a, 3);
  }

  /** Where word `j` of packed words lies. */
  lemma {:induction false} PackWordsAt(ws: seq<Word>, j: int)
    requires 0 <= j < |ws|
    ensures PackWords(ws)[4 * j..4 * j + 4] == ToLE(ws[j], 4)
  {
    var init := ws[..|ws| - 1];
    if j < |ws| - 1 {
      PackWordsAt(init, j);
      assert PackWords(ws)[4 * j..4 * j + 4] == PackWords(init)[4 * j..4 * j + 4];
    }
  }

  /** The part `p .. e` of a block that lies in `f` at `o`. */
  lemma {:induction false} SubSlice(f: seq<Byte>, o: int, b: seq<Byte>, p: int, e: int)
    requires 0 <= o && o + |b| <= |f| && f[o..o + |b|] == b && 0 <= p <= e <= |b|
    ensures f[o + p..o + e] == b[p..e]
  {
    forall i | 0 <= i < e - p
      ensures f[o + p..o + e][i] == b[p..e][i]
    {
      assert b[p + i] == f[o..o + |b|][p + i] == f[o + (p + i)];
    }
  }

  /** A word read from a file that holds packed words at offset `o`. */
  lemma {:induction false} PackedAt(f: seq<Byte>, o: int, ws: seq<Word>, j: int)
    requires 0 <= o && o + 4 * |ws| <= |f|
    requires f[o..o + 4 * |ws|] == PackWords(ws)
    requires 0 <= j < |ws|
    ensures GetU32(f, o + 4 * j) == ws[j]
  {
    PackWordsAt(ws, j);
    BlockWord(f, o, PackWords(ws), 4 * j, ws[j]);
  }

  lemma {:induction false} BlockWord(f: seq<Byte>, o: int, b: seq<Byte>, q: int, w: Word)
    requires 0 <= o && o + |b| <= |f| && f[o..o + |b|] == b
    requires 0 <= q && q + 4 <= |b| && b[q..q + 4] == ToLE(w, 4)
    ensures GetU32(f, o + q) == w
  {
    SubSlice(f, o, b, q, q + 4);
    ToLERoundTrip(w);
  }

  // ---- C strings ----

  /** The bytes before the first NUL. */
  function UpToNul(b: seq<Byte>): (s: seq<Byte>) {
    if b == [] || b[0] == 0 then [] else [b[0]] + UpToNul(b[1..])
  }

  lemma {:induction false} UpToNulMeans(b: seq<Byte>)
    ensures UpToNul(b) <= b && 0 !in UpToNul(b)
    ensures if 0 in b then |UpToNul(b)| < |b| && b[|UpToNul(b)|] == 0 else UpToNul(b) == b
  {
    if b != [] && b[0] != 0 {
      UpToNulMeans(b[1..]);
      assert b == [b[0]] + b[1..];
    }
  }

  /** What a `char*` into `b` denotes: nothing unless a NUL follows. */
  function CString(b: seq<Byte>): (s: Option<seq<Byte>>) {
    if 0 in b then Some(UpToNul(b)) else None
  }

  lemma {:induction false} UpToNulTerminated(b: seq<Byte>, rest: seq<Byte>)
    ensures UpToNul(b + [0] + rest) == UpToNul(b)
  {
    if b != [] && b[0] != 0 {
      assert (b + [0] + rest)[1..] == b[1..] + [0] + rest;
      UpToNulTerminated(b[1..], rest);
    }
  }

  // ---- Lexicographic order: `strcmp` on contents, and code point order ----

  predicate LexLess(a: seq<int>, b: seq<int>) {
    b != [] && (a == [] || a[0] < b[0] || (a[0] == b[0] && LexLess(a[1..], b[1..])))
  }

  lemma {:induction false} LexTrichotomy(a: seq<int>, b: seq<int>)
    ensures a == b ==> !LexLess(a, b)
    ensures a != b ==> LexLess(a, b) != LexLess(b, a)
  {
    if a != [] && b != [] && a[0] == b[0] {
      assert a == b <==> a[1..] == b[1..] by {
        assert a == [a[0]] + a[1..] && b == [b[0]] + b[1..];
      }
      LexTrichotomy(a[1..], b[1..]);
    }
  }

  lemma {:induction false} LexTransitive(a: seq<int>, b: seq<int>, c: seq<int>)
    requires LexLess(a, b) && LexLess(b, c)
    ensures LexLess(a, c)
  {
    if a != [] && a[0] == b[0] == c[0] {
      LexTransitive(a[1..], b[1..], c[1..]);
    }
  }

  /** The two part at `k`: there `a` ends or holds the smaller number. */
  predicate PartAt(a: seq<int>, b: seq<int>, k: nat) {
    && k <= |a| && k < |b| && a[..k] == b[..k]
    && (k == |a| || a[k] < b[k])
  }

  ghost predicate Precedes(a: seq<int>, b: seq<int>) { exists k: nat :: PartAt(a, b, k) }

  /** The order is decided where the two first part. */
  lemma {:induction false} LexMeans(a: seq<int>, b: seq<int>)
    ensures LexLess(a, b) <==> Precedes(a, b)
    decreases |b|
  {
    if b != [] && (a == [] || a[0] < b[0]) {
      assert PartAt(a, b, 0);
    } else if b != [] {
      var x, y := a[1..], b[1..];
      assert a == [a[0]] + x && b == [b[0]] + y;
      LexMeans(x, y);
      if k: nat :| PartAt(x, y, k) && a[0] == b[0] {
        assert a[..k + 1] == [a[0]] + x[..k] && b[..k + 1] == [b[0]] + y[..k];
        assert PartAt(a, b, k + 1);
      }
      if k: nat :| PartAt(a, b, k) {
        assert k > 0 && a[..k][0] == b[..k][0];
        assert a[..k][1..] == x[..k - 1] && b[..k][1..] == y[..k - 1];
        assert PartAt(x, y, k - 1);
      }
    }
  }

  predicate LexFollows(names: seq<seq<int>>, p: int)
    requires 0 < p < |names|
  {
    LexLess(names[p - 1], names[p])
  }

  /** Each name follows the one before it. */
  ghost predicate Increasing(names: seq<seq<int>>) {
    forall p :: 0 < p < |names| ==> LexFollows(names, p)
  }

  lemma {:induction false} LexAscends(names: seq<seq<int>>, p: int, q: int)
    requires Increasing(names) && 0 <= p < q < |names|
    ensures LexLess(names[p], names[q])
    decreases q
  {
    assert LexFollows(names, q);
    if p < q - 1 {
      LexAscends(names, p, q - 1);
      LexTransitive(names[p], names[q - 1], names[q]);
    }
  }

  lemma {:induction false} LexCommonPrefix(p: seq<int>, a: seq<int>, b: seq<int>)
    ensures LexLess(p + a, p + b) == LexLess(a, b)
  {
    if p == [] {
      assert p + a == a && p + b == b;
    } else {
      assert (p + a)[1..] == p[1..] + a && (p + b)[1..] == p[1..] + b;
      LexCommonPrefix(p[1..], a, b);
    }
  }

  /** The sign of `std::strcmp` on two C strings. */
  function StrCmp(a: seq<Byte>, b: seq<Byte>): (order: int)
    ensures order == 0 <==> a == b
    ensures order < 0 <==> LexLess(a, b)
  {
    LexTrichotomy(a, b);
    if a == b then 0 else if LexLess(a, b) then -1 else 1
  }
}
