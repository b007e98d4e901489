/** UTF-8 (RFC 3629) as Python's `str.encode` and strict `bytes.decode` apply it. */
module Utf8 {
  import opened Bytes

  /** A Unicode scalar value; surrogates are excluded. */
  type Scalar = c: int | 0 <= c < 0xD800 || 0xE000 <= c < 0x11_0000
  type Text = seq<Scalar>

  predicate IsScalar(c: int) { 0 <= c < 0xD800 || 0xE000 <= c < 0x11_0000 }

  /** `n` continuation bytes suffice to bring `q` into the lead byte. */
  predicate Fits(q: int, lead: Byte, n: nat) {
    0 <= q && if n == 0 then lead as int + q < 256 else Fits(q / 64, lead, n - 1)
  }

  /** A lead byte followed by `n` continuation bytes of six payload bits each. */
  function Multi(q: int, lead: Byte, n: nat): (b: seq<Byte>)
    requires Fits(q, lead, n)
    ensures |b| == n + 1
    ensures lead != 0 ==> 0 !in b
    ensures b[0] >= lead
  {
    if n == 0 then [lead as int + q] else Multi(q / 64, lead, n - 1) + [0x80 + q % 64]
  }

  /** Number of continuation bytes, and the lead byte that announces it. */
  function Extra(c: Scalar): nat {
    if c < 0x80 then 0 else if c < 0x800 then 1 else if c < 0x1_0000 then 2 else 3
  }

  function Lead(n: nat): Byte
    requires n <= 3
  {
    if n == 0 then 0 else if n == 1 then 0xC0 else if n == 2 then 0xE0 else 0xF0
  }

  lemma {:induction false} ScalarFits(c: Scalar)
    ensures Fits(c, Lead(Extra(c)), Extra(c))
  {
    assert c < 0x800 ==> c / 64 < 32;
    assert c < 0x1_0000 ==> c / 64 / 64 < 16;
    assert c / 64 / 64 / 64 < 16;
    assert Extra(c) == 2 ==> Fits(c / 64, 0xE0, 1);
    assert Extra(c) == 3 ==> Fits(c / 64 / 64, 0xF0, 1) && Fits(c / 64, 0xF0, 2);
  }

  function EncodeScalar(c: Scalar): (b: seq<Byte>)
    ensures |b| == Extra(c) + 1
  {
    ScalarFits(c);
    Multi(c, Lead(Extra(c)), Extra(c))
  }

  function Encode(t: Text): (b: seq<Byte>) {
    if t == [] then [] else EncodeScalar(t[0]) + Encode(t[1..])
  }

  predicate NulFree(t: Text) { 0 !in t }

  lemma {:induction false} EncodeNulFree(t: Text)
    requires NulFree(t)
    ensures 0 !in Encode(t)
  {
    if t != [] {
      assert t[0] in t;
      assert 0 !in EncodeScalar(t[0]);
      EncodeNulFree(t[1..]);
    }
  }

  // ---- Order (section 1 of RFC 3629) ----

  /** Equally long sequences with the same lead are ordered by payload, whatever follows. */
  lemma {:induction false} MultiOrder(c: int, d: int, lead: Byte, n: nat, x: seq<Byte>, y: seq<Byte>)
    requires Fits(c, lead, n) && Fits(d, lead, n) && c < d
    ensures LexLess(Multi(c, lead, n) + x, Multi(d, lead, n) + y)
  {
    if n > 0 {
      var x', y' := [0x80 + c % 64], [0x80 + d % 64];
      assert Multi(c, lead, n) + x == Multi(c / 64, lead, n - 1) + (x' + x);
      assert Multi(d, lead, n) + y == Multi(d / 64, lead, n - 1) + (y' + y);
      if c / 64 == d / 64 {
        LexCommonPrefix(Multi(c / 64, lead, n - 1), x' + x, y' + y);
      } else {
        MultiOrder(c / 64, d / 64, lead, n - 1, x' + x, y' + y);
      }
    }
  }

  /** The lead byte of a shorter sequence is below the next lead. */
  lemma {:induction false} LeadBelow(q: int, lead: Byte, n: nat, top: int)
    requires Fits(q, lead, n)
    requires n == 0 ==> lead as int + q < top
    requires n == 1 ==> lead as int + q / 64 < top
    requires n == 2 ==> lead as int + q / 64 / 64 < top
    requires n <= 2
    ensures Multi(q, lead, n)[0] < top
  {
    if n > 0 {
      LeadBelow(q / 64, lead, n - 1, top);
    }
  }

  lemma {:induction false} ScalarOrder(c: Scalar, d: Scalar, x: seq<Byte>, y: seq<Byte>)
    requires c < d
    ensures LexLess(EncodeScalar(c) + x, EncodeScalar(d) + y)
  {
    ScalarFits(c);
    ScalarFits(d);
    var n := Extra(c);
    if n == Extra(d) {
      MultiOrder(c, d, Lead(n), n, x, y);
    } else {
      LeadBelow(c, Lead(n), n, Lead(n + 1));
      assert EncodeScalar(d)[0] >= Lead(n + 1);
    }
  }

  /** Byte order of encodings is code point order of texts. */
  lemma {:induction false} OrderPreserved(a: Text, b: Text)
    ensures LexLess(Encode(a), Encode(b)) <==> LexLess(a, b)
  {
    if a == [] || b == [] {
    } else if a[0] == b[0] {
      OrderPreserved(a[1..], b[1..]);
      LexCommonPrefix(EncodeScalar(a[0]), Encode(a[1..]), Encode(b[1..]));
    } else if a[0] < b[0] {
      ScalarOrder(a[0], b[0], Encode(a[1..]), Encode(b[1..]));
    } else {
      ScalarOrder(b[0], a[0], Encode(b[1..]), Encode(a[1..]));
      LexTrichotomy(Encode(a), Encode(b));
    }
  }

  lemma {:induction false} EncodeInjective(a: Text, b: Text)
    requires Encode(a) == Encode(b)
    ensures a == b
  {
    LexTrichotomy(a, b);
    LexTrichotomy(Encode(a), Encode(b));
    OrderPreserved(a, b);
    OrderPreserved(b, a);
  }

  // ---- Decoding ----

  /** Gathers the payload bits of a lead byte and `n` continuation bytes. */
  function Payload(b: seq<Byte>, lead: Byte, n: nat): int
    requires |b| > n
  {
    if n == 0 then b[0] as int - lead
    else Payload(b[..n], lead, n - 1) * 64 + (b[n] as int - 0x80)
  }

  lemma {:induction false} PayloadOfMulti(q: int, lead: Byte, n: nat, rest: seq<Byte>)
    requires Fits(q, lead, n)
    ensures Payload(Multi(q, lead, n) + rest, lead, n) == q
  {
    if n > 0 {
      var b := Multi(q, lead, n) + rest;
      assert b[..n] == Multi(q / 64, lead, n - 1) + [];
      PayloadOfMulti(q / 64, lead, n - 1, []);
    }
  }

  /** The scalar whose encoding starts `b`, if any: the payload is accepted only
      when it encodes back to the same bytes, which rules out overlong forms,
      surrogates and values past U+10FFFF. */
  function LeadingScalar(b: seq<Byte>): (r: Option<Scalar>)
    ensures r.Some? ==> EncodeScalar(r.value) <= b
  {
    if b == [] then None
    else
      var n := if b[0] < 0xC0 then 0 else if b[0] < 0xE0 then 1 else if b[0] < 0xF0 then 2 else 3;
      if |b| <= n then None
      else
        var c := Payload(b, Lead(n), n);
        if IsScalar(c) && EncodeScalar(c) <= b then Some(c) else None
  }

  function Decode(b: seq<Byte>): (r: Option<Text>) {
    if b == [] then Some([])
    else match LeadingScalar(b)
      case None => None
      case Some(c) =>
        match Decode(b[|EncodeScalar(c)|..])
        case None => None
        case Some(t) => Some([c] + t)
  }

  lemma {:induction false} LeadingScalarComplete(c: Scalar, rest: seq<Byte>)
    ensures LeadingScalar(EncodeScalar(c) + rest) == Some(c)
  {
    var n := Extra(c);
    ScalarFits(c);
    assert EncodeScalar(c)[0] >= Lead(n);
    if n < 3 {
      LeadBelow(c, Lead(n), n, if n == 0 then 0xC0 else Lead(n + 1));
    }
    PayloadOfMulti(c, Lead(n), n, rest);
    assert EncodeScalar(c) <= EncodeScalar(c) + rest;
  }

  lemma {:induction false} DecodeStep(c: Scalar, rest: seq<Byte>)
    ensures Decode(EncodeScalar(c) + rest) == if Decode(rest).Some? then Some([c] + Decode(rest).value) else None
  {
    LeadingScalarComplete(c, rest);
    assert (EncodeScalar(c) + rest)[|EncodeScalar(c)|..] == rest;
  }

  lemma {:induction false} DecodeEncode(t: Text)
    ensures Decode(Encode(t)) == Some(t)
  {
    if t != [] {
      DecodeStep(t[0], Encode(t[1..]));
      DecodeEncode(t[1..]);
      assert t == [t[0]] + t[1..];
    }
  }

  lemma {:induction false} EncodeDecode(b: seq<Byte>)
    requires Decode(b).Some?
    ensures Encode(Decode(b).value) == b
    decreases |b|
  {
    if b != [] {
      var c := LeadingScalar(b).value;
      var rest := b[|EncodeScalar(c)|..];
      EncodeDecode(rest);
      assert b == EncodeScalar(c) + rest;
      var t := Decode(rest).value;
      assert ([c] + t)[1..] == t;
    }
  }

  /** Decoding succeeds exactly on encodings, and inverts encoding. */
  lemma {:induction false} DecodeIffEncoded(b: seq<Byte>, t: Text)
    ensures Decode(b) == Some(t) <==> b == Encode(t)
  {
    DecodeEncode(t);
    if Decode(b) == Some(t) {
      EncodeDecode(b);
    }
  }

  /** The encoding of a scalar value, octet by octet (section 3 of RFC 3629). */
  lemma {:induction false} EncodeTable(c: Scalar)
    ensures EncodeScalar(c) ==
            if c <= 0x7F then [c]
            else if c <= 0x7FF then [0xC0 + c / 64, 0x80 + c % 64]
            else if c <= 0xFFFF then [0xE0 + c / 4096, 0x80 + c / 64 % 64, 0x80 + c % 64]
            else [0xF0 + c / 262144, 0x80 + c / 4096 % 64, 0x80 + c / 64 % 64, 0x80 + c % 64]
  {
    ScalarFits(c);
    assert c / 64 / 64 == c / 4096 && c / 64 / 64 / 64 == c / 262144;
    if c <= 0x7F {
    } else if c <= 0x7FF {
      TwoBytes(c, 0xC0);
    } else if c <= 0xFFFF {
      TwoBytes(c / 64, 0xE0);
    } else {
      TwoBytes(c / 64 / 64, 0xF0);
      assert Multi(c / 64, 0xF0, 2) == Multi(c / 64 / 64, 0xF0, 1) + [0x80 + c / 64 % 64];
    }
  }

  lemma {:induction false} TwoBytes(q: int, lead: Byte)
    requires Fits(q, lead, 1)
    ensures Multi(q, lead, 1) == [lead as int + q / 64, 0x80 + q % 64]
  {
    assert Multi(q / 64, lead, 0) == [lead as int + q / 64];
  }
}
