/** The converter's interning string pool. */
module StringPool {
  import opened Bytes
  import opened Utf8
  import opened Image

  const POOL_LIMIT := TWO32

  type Offsets = map<Text, int>

  /** `t` lies in the pool at `o`, NUL-terminated. */
  predicate StoredAt(data: seq<Byte>, o: int, t: Text) {
    && 0 <= o && o + |Encode(t)| + 1 <= |data|
    && data[o..o + |Encode(t)| + 1] == Encode(t) + [0]
  }

  /** Total pool bytes needed for a set of texts. */
  ghost function PoolSize(ts: set<Text>): nat {
    if ts == {} then 0
    else var t :| t in ts; |Encode(t)| + 1 + PoolSize(ts - {t})
  }

  lemma {:induction false} PoolSizeAdd(ts: set<Text>, t: Text)
    requires t !in ts
    ensures PoolSize(ts + {t}) == PoolSize(ts) + |Encode(t)| + 1
    decreases ts
  {
    var u :| u in ts + {t} && PoolSize(ts + {t}) == |Encode(u)| + 1 + PoolSize(ts + {t} - {u});
    if u == t {
      assert ts + {t} - {u} == ts;
    } else {
      var less := ts - {u};
      assert ts + {t} - {u} == less + {t};
      PoolSizeAdd(less, t);
      PoolSizeAdd(less, u);
      assert less + {u} == ts;
    }
  }

  lemma {:induction false} PoolSizeMonotone(a: set<Text>, b: set<Text>)
    requires a <= b
    ensures PoolSize(a) <= PoolSize(b)
    decreases b - a
  {
    if t :| t in b - a {
      PoolSizeAdd(a, t);
      PoolSizeMonotone(a + {t}, b);
    } else {
      assert forall t :: t in b ==> t in a || t in b - a;
      assert a == b;
    }
  }

  predicate SameOffset(offsets: Offsets, t: Text, u: Text) {
    t in offsets && u in offsets && offsets[t] == offsets[u]
  }

  /** The pool invariant: every known text is stored where its offset says, no two
      share an offset, and nothing else takes space. */
  ghost predicate PoolOk(data: seq<Byte>, offsets: Offsets) {
    && (forall t {:trigger StoredAt(data, offsets[t], t)} :: t in offsets ==> StoredAt(data, offsets[t], t))
    && (forall t, u {:trigger SameOffset(offsets, t, u)} :: SameOffset(offsets, t, u) ==> t == u)
    && [] in offsets
    && |data| == PoolSize(offsets.Keys) <= POOL_LIMIT
  }

  lemma {:induction false} InitialPool()
    ensures PoolOk([0], map[[] := 0])
  {
    var offsets: Offsets := map[[] := 0];
    PoolSizeAdd({}, []);
    assert {} + {[]} == offsets.Keys;
    assert StoredAt([0], 0, []);
  }

  lemma {:induction false} StoredExtends(data: seq<Byte>, more: seq<Byte>, o: int, t: Text)
    requires StoredAt(data, o, t)
    ensures StoredAt(data + more, o, t)
  {
    var e := o + |Encode(t)| + 1;
    assert (data + more)[o..e] == data[o..e];
  }

  /** Appending a new text keeps the invariant. */
  lemma {:induction false} InternKeeps(data: seq<Byte>, offsets: Offsets, value: Text)
    requires PoolOk(data, offsets) && value !in offsets
    requires |data| + |Encode(value)| + 1 <= POOL_LIMIT
    ensures PoolOk(data + (Encode(value) + [0]), offsets[value := |data|])
  {
    var encoded := Encode(value) + [0];
    var data', offsets' := data + encoded, offsets[value := |data|];
    PoolSizeAdd(offsets.Keys, value);
    assert offsets'.Keys == offsets.Keys + {value};
    assert data'[|data|..|data| + |encoded|] == encoded;
    forall t | t in offsets
      ensures StoredAt(data', offsets[t], t) && offsets[t] < |data|
    {
      assert StoredAt(data, offsets[t], t);
      StoredExtends(data, encoded, offsets[t], t);
    }
    forall t, u | SameOffset(offsets', t, u)
      ensures t == u
    {
      assert t in offsets && u in offsets ==> SameOffset(offsets, t, u);
    }
  }

  /** A stored text reads back up to its first NUL, and its offset fits in 32 bits. */
  lemma {:induction false} PoolReads(data: seq<Byte>, offsets: Offsets, t: Text)
    requires PoolOk(data, offsets) && t in offsets
    ensures 0 <= offsets[t] < TWO32
    ensures PoolString(data, offsets[t]) == Some(UpToNul(Encode(t)))
    ensures NulFree(t) ==> PoolString(data, offsets[t]) == Some(Encode(t))
  {
    var o := offsets[t];
    assert StoredAt(data, o, t);
    var e := o + |Encode(t)| + 1;
    assert data[o..] == data[o..e] + data[e..];
    UpToNulTerminated(Encode(t), data[e..]);
    assert data[o..] == Encode(t) + [0] + data[e..];
    assert data[o..][|Encode(t)|] == 0;
    if NulFree(t) {
      EncodeNulFree(t);
      UpToNulMeans(Encode(t));
    }
  }

  class Strings {
    var data: seq<Byte>
    var offsets: Offsets

    ghost predicate Valid()
      reads this
    {
      PoolOk(data, offsets)
    }

    constructor ()
      ensures Valid() && data == [0] && offsets == map[[] := 0]
    {
      data, offsets := [0], map[[] := 0];
      new;
      InitialPool();
    }

    /** Returns the offset of `value`, storing it first if it is new. Fails exactly when
        the pool would outgrow 32-bit offsets, and then changes nothing. */
    method Intern(value: Text) returns (r: Result<int>)
      requires Valid()
      modifies this
      ensures Valid()
      ensures old(data) <= data && Extends(old(offsets), offsets)
      ensures r.Err? <==> PoolSize(old(offsets).Keys + {value}) > POOL_LIMIT
      ensures r.Err? ==> r.error == PoolLimit && data == old(data) && offsets == old(offsets)
      ensures r.Ok? && value in old(offsets) ==> data == old(data) && offsets == old(offsets)
      ensures r.Ok? && value !in old(offsets) ==>
                data == old(data) + (Encode(value) + [0]) && offsets == old(offsets)[value := |old(data)|]
      ensures r.Ok? ==> r.value == offsets[value] && offsets.Keys == old(offsets).Keys + {value}
    {
      if value in offsets {
        assert offsets.Keys + {value} == offsets.Keys;
        return Ok(offsets[value]);
      }
      PoolSizeAdd(offsets.Keys, value);
      var encoded := Encode(value) + [0];
      var offset := |data|;
      if offset > 0xFFFF_FFFF || |data| + |encoded| > 0x1_0000_0000 {
        return Err(PoolLimit);
      }
      InternKeeps(data, offsets, value);
      data := data + encoded;
      offsets := offsets[value := offset];
      return Ok(offset);
    }

    /** Interns texts left to right, as the arguments of one `pack` call are evaluated. */
    method InternAll(values: seq<Text>) returns (r: Result<seq<int>>)
      requires Valid()
      modifies this
      ensures Valid()
      ensures Extends(old(offsets), offsets)
      ensures r.Err? ==> r.error == PoolLimit && PoolSize(old(offsets).Keys + Members(values)) > POOL_LIMIT
      ensures r.Ok? ==> offsets.Keys == old(offsets).Keys + Members(values)
      ensures r.Ok? ==> OffsetsOf(r.value, values, offsets)
    {
      var out: seq<int> := [];
      ghost var before := offsets;
      for i := 0 to |values|
        invariant Valid()
        invariant Extends(before, offsets)
        invariant offsets.Keys == before.Keys + Members(values[..i])
        invariant OffsetsOf(out, values[..i], offsets)
      {
        MembersNext(values, i);
        ghost var mid := offsets;
        var o := Intern(values[i]);
        if o.Err? {
          PoolSizeMonotone(mid.Keys + {values[i]}, before.Keys + Members(values));
          return Err(o.error);
        }
        out := out + [o.value];
        OffsetsNext(out, values, i, mid, offsets);
      }
      assert values[..|values|] == values;
      return Ok(out);
    }
  }

  function Members(values: seq<Text>): set<Text> {
    set t | t in values
  }

  lemma {:induction false} MembersNext(values: seq<Text>, i: int)
    requires 0 <= i < |values|
    ensures Members(values[..i + 1]) == Members(values[..i]) + {values[i]} <= Members(values)
  {
    assert values[..i + 1] == values[..i] + [values[i]];
  }

  ghost predicate OffsetsOf(out: seq<int>, values: seq<Text>, offsets: Offsets) {
    |out| == |values| && forall j :: 0 <= j < |values| ==> values[j] in offsets && out[j] == offsets[values[j]]
  }

  lemma {:induction false} OffsetsNext(out: seq<int>, values: seq<Text>, i: int, a: Offsets, b: Offsets)
    requires 0 <= i < |values| && |out| == i + 1 && Extends(a, b)
    requires OffsetsOf(out[..i], values[..i], a) && values[i] in b && out[i] == b[values[i]]
    ensures OffsetsOf(out, values[..i + 1], b)
  {
    forall j | 0 <= j < i
      ensures values[j] in b && out[j] == b[values[j]]
    {
      assert values[..i][j] in a && out[..i][j] == a[values[..i][j]];
    }
  }

  /** `b` keeps every offset of `a`. */
  predicate Extends(a: Offsets, b: Offsets) {
    forall t :: t in a ==> t in b && b[t] == a[t]
  }
}
