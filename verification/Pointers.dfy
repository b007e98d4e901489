/** Reading and editing documents through JSON Pointers. */
module Pointers {
  import opened Bytes
  import opened Json
  import opened Numerals
  import opened PointerText

  const NO_SLASH := Malformed("JSON pointer must start with '/'")
  const ROOT := Malformed("normalization cannot replace or ignore the document root")

  /** The value a path of tokens leads to, or the first error on the way. */
  function Locate(doc: Json, path: seq<string>): Result<Json>
    decreases |path|
  {
    if path == [] then Ok(doc)
    else
      match Index(doc, path[0])
      case Err(e) => Err(e)
      case Ok(key) => Locate(Child(doc, key), path[1..])
  }

  method PointerGet(document: Json, pointer: string) returns (r: Result<Json>)
    ensures r == if Tokens(pointer).None? then Err(NO_SLASH) else Locate(document, Tokens(pointer).value)
  {
    var tokens := Tokens(pointer);
    if tokens.None? {
      return Err(NO_SLASH);
    }
    r := Descend(document, tokens.value);
  }

  /** The loop shared by `pointer_get` and `pointer_parent`. */
  method Descend(document: Json, tokens: seq<string>) returns (r: Result<Json>)
    ensures r == Locate(document, tokens)
  {
    var value := document;
    for i := 0 to |tokens|
      invariant Locate(value, tokens[i..]) == Locate(document, tokens)
    {
      assert tokens[i..][1..] == tokens[i + 1..];
      var key := Index(value, tokens[i]);
      if key.Err? {
        return Err(key.error);
      }
      value := Child(value, key.value);
    }
    return Ok(value);
  }

  /** A path leads through every prefix of it. */
  lemma {:induction false} LocateAppend(doc: Json, p: seq<string>, q: seq<string>)
    ensures Locate(doc, p + q) ==
            match Locate(doc, p)
            case Err(e) => Err(e)
            case Ok(x) => Locate(x, q)
  {
    if p == [] {
      assert p + q == q;
    } else {
      assert (p + q)[1..] == p[1..] + q;
      var key := Index(doc, p[0]);
      if key.Ok? {
        LocateAppend(Child(doc, key.value), p[1..], q);
      }
    }
  }

  /** Why a token leads nowhere in a value. */
  predicate Blocks(x: Json, token: string, e: Error) {
    match x
    case Obj(fields) => token !in fields && e == Malformed("JSON pointer does not exist")
    case Arr(items) =>
      if IsIndex(token) then IndexValue(token) >= |items| && e == Malformed("JSON pointer does not exist")
      else e == Malformed("invalid array index in JSON pointer")
    case _ => e == Malformed("JSON pointer crosses a scalar")
  }

  /** The tokens before `k` lead to a value where token `k` leads nowhere. */
  predicate StopsAt(doc: Json, path: seq<string>, k: nat, e: Error) {
    k < |path| && Locate(doc, path[..k]).Ok? && Blocks(Locate(doc, path[..k]).value, path[k], e)
  }

  /** A read fails exactly where the first token leads nowhere, with the error for that value. */
  lemma {:induction false} LocateFails(doc: Json, path: seq<string>, e: Error)
    ensures Locate(doc, path) == Err(e) <==> exists k: nat :: StopsAt(doc, path, k, e)
    decreases |path|
  {
    if path != [] {
      assert path[..0] == [];
      var key := Index(doc, path[0]);
      if key.Ok? {
        var child, rest := Child(doc, key.value), path[1..];
        LocateFails(child, rest, e);
        forall k: nat | k < |rest|
          ensures StopsAt(doc, path, k + 1, e) == StopsAt(child, rest, k, e)
        {
          assert path[..k + 1][1..] == rest[..k];
        }
        if k: nat :| StopsAt(child, rest, k, e) {
          assert StopsAt(doc, path, k + 1, e);
        }
        if k: nat :| StopsAt(doc, path, k, e) {
          assert k > 0;
          assert StopsAt(child, rest, k - 1, e);
        }
      } else {
        assert Locate(doc, path) == Err(e) ==> StopsAt(doc, path, 0, e);
        forall k | 0 < k < |path|
          ensures Locate(doc, path[..k]).Err?
        {
          assert path[..k][0] == path[0];
        }
      }
    }
  }

  /** The container that holds the last token of a path, and the key the token selects in it. */
  function Parent(doc: Json, path: seq<string>): (r: Result<(Json, Key)>)
    ensures r.Ok? ==> Has(r.value.0, r.value.1)
  {
    if path == [] then Err(ROOT)
    else
      match Locate(doc, path[..|path| - 1])
      case Err(e) => Err(e)
      case Ok(parent) =>
        match Index(parent, path[|path| - 1])
        case Err(e) => Err(e)
        case Ok(key) => Ok((parent, key))
  }

  method PointerParent(document: Json, pointer: string) returns (r: Result<(Json, Key)>)
    ensures r == if Tokens(pointer).None? then Err(NO_SLASH) else Parent(document, Tokens(pointer).value)
  {
    var tokens := Tokens(pointer);
    if tokens.None? {
      return Err(NO_SLASH);
    }
    if tokens.value == [] {
      return Err(ROOT);
    }
    var parent := Descend(document, tokens.value[..|tokens.value| - 1]);
    if parent.Err? {
      return Err(parent.error);
    }
    var key := Index(parent.value, tokens.value[|tokens.value| - 1]);
    return if key.Ok? then Ok((parent.value, key.value)) else Err(key.error);
  }

  /** There is a parent exactly when a path that is not the root leads somewhere. */
  lemma {:induction false} ParentLocates(doc: Json, path: seq<string>)
    requires path != []
    ensures Parent(doc, path).Ok? <==> Locate(doc, path).Ok?
    ensures Parent(doc, path).Ok? ==>
              Locate(doc, path) == Ok(Child(Parent(doc, path).value.0, Parent(doc, path).value.1))
    ensures Parent(doc, path).Err? ==> Parent(doc, path) == Err(Locate(doc, path).error)
  {
    var init, last := path[..|path| - 1], path[|path| - 1];
    assert path == init + [last];
    LocateAppend(doc, init, [last]);
    if Locate(doc, init).Ok? {
      var x := Locate(doc, init).value;
      assert [last][1..] == [];
      assert Index(x, last).Ok? ==> Locate(Child(x, Index(x, last).value), []).Ok?;
    }
  }

  // ---- Editing ----

  /** The document with the value at `path` replaced. */
  function Replaced(doc: Json, path: seq<string>, value: Json): Json
    requires Locate(doc, path).Ok?
    decreases |path|
  {
    if path == [] then value
    else
      var key := Index(doc, path[0]).value;
      WithChild(doc, key, Replaced(Child(doc, key), path[1..], value))
  }

  /** `parent[key] = value`: the parent is edited where it stands. */
  function Set(doc: Json, path: seq<string>, value: Json): Result<Json> {
    match Parent(doc, path)
    case Err(e) => Err(e)
    case Ok((parent, key)) => Ok(Replaced(doc, path[..|path| - 1], WithChild(parent, key, value)))
  }

  function Delete(doc: Json, path: seq<string>): Result<Json> {
    match Parent(doc, path)
    case Err(e) => Err(e)
    case Ok((parent, key)) => Ok(Replaced(doc, path[..|path| - 1], Without(parent, key)))
  }

  method PointerSet(document: Json, pointer: string, value: Json) returns (r: Result<Json>)
    ensures r == if Tokens(pointer).None? then Err(NO_SLASH) else Set(document, Tokens(pointer).value, value)
  {
    var found := PointerParent(document, pointer);
    if found.Err? {
      return Err(found.error);
    }
    var (parent, key) := found.value;
    var tokens := Tokens(pointer).value;
    return Ok(Replaced(document, tokens[..|tokens| - 1], WithChild(parent, key, value)));
  }

  method PointerDelete(document: Json, pointer: string) returns (r: Result<Json>)
    ensures r == if Tokens(pointer).None? then Err(NO_SLASH) else Delete(document, Tokens(pointer).value)
  {
    var found := PointerParent(document, pointer);
    if found.Err? {
      return Err(found.error);
    }
    var (parent, key) := found.value;
    var tokens := Tokens(pointer).value;
    return Ok(Replaced(document, tokens[..|tokens| - 1], Without(parent, key)));
  }

  predicate Apart(p: seq<string>, q: seq<string>) { !(p <= q) && !(q <= p) }

  lemma {:induction false} WithChildIndex(doc: Json, token: string, value: Json, other: string)
    requires Index(doc, token).Ok?
    ensures var key := Index(doc, token).value;
            && Index(WithChild(doc, key, value), other) == Index(doc, other)
            && (other == token ==> Child(WithChild(doc, key, value), key) == value)
            && (other != token && Index(doc, other).Ok? ==>
                  Child(WithChild(doc, key, value), Index(doc, other).value) == Child(doc, Index(doc, other).value))
  {
    if other != token && Index(doc, other).Ok? {
      KeysDiffer(doc, token, other);
    }
  }

  /** Below the replaced value one reads the new value. */
  lemma {:induction false} ReadBelow(doc: Json, p: seq<string>, value: Json, q: seq<string>)
    requires Locate(doc, p).Ok?
    ensures Locate(Replaced(doc, p, value), p + q) == Locate(value, q)
    decreases |p|
  {
    if p == [] {
      assert p + q == q;
    } else {
      var key := Index(doc, p[0]).value;
      var inner := Replaced(Child(doc, key), p[1..], value);
      WithChildIndex(doc, p[0], inner, p[0]);
      ReadBelow(Child(doc, key), p[1..], value, q);
      assert (p + q)[1..] == p[1..] + q;
    }
  }

  /** Elsewhere nothing changes, errors included. */
  lemma {:induction false} ReadApart(doc: Json, p: seq<string>, value: Json, q: seq<string>)
    requires Locate(doc, p).Ok? && Apart(p, q)
    ensures Locate(Replaced(doc, p, value), q) == Locate(doc, q)
    decreases |p|
  {
    var key := Index(doc, p[0]).value;
    var inner := Replaced(Child(doc, key), p[1..], value);
    WithChildIndex(doc, p[0], inner, q[0]);
    if p[0] == q[0] {
      assert p == [p[0]] + p[1..] && q == [q[0]] + q[1..];
      ReadApart(Child(doc, key), p[1..], value, q[1..]);
    }
  }

  /** Above it one reads the container with the replacement made. */
  lemma {:induction false} ReadAbove(doc: Json, q: seq<string>, rest: seq<string>, value: Json)
    requires Locate(doc, q + rest).Ok?
    ensures Locate(doc, q).Ok? && Locate(Locate(doc, q).value, rest).Ok?
    ensures Locate(Replaced(doc, q + rest, value), q) == Ok(Replaced(Locate(doc, q).value, rest, value))
    decreases |q|
  {
    if q == [] {
      assert q + rest == rest;
    } else {
      assert (q + rest)[1..] == q[1..] + rest;
      var key := Index(doc, q[0]).value;
      var inner := Replaced(Child(doc, key), q[1..] + rest, value);
      WithChildIndex(doc, q[0], inner, q[0]);
      ReadAbove(Child(doc, key), q[1..], rest, value);
    }
  }

  /** Editing the parent replaces the value at the path itself. */
  lemma {:induction false} SetReplaces(doc: Json, path: seq<string>, value: Json)
    requires path != [] && Locate(doc, path).Ok?
    ensures Set(doc, path, value) == Ok(Replaced(doc, path, value))
    decreases |path|
  {
    ParentLocates(doc, path);
    var key := Index(doc, path[0]).value;
    if |path| == 1 {
      assert path[..0] == [];
    } else {
      SetReplaces(Child(doc, key), path[1..], value);
      var init := path[..|path| - 1];
      assert init[0] == path[0] && init[1..] == path[1..][..|path| - 2];
      ParentLocates(Child(doc, key), path[1..]);
    }
  }

  /** `pointer_set` then `pointer_get`: the new value is read at the pointer and below it, an edited
      container above it, and nothing else changes. Setting fails exactly at the root and where
      the pointer leads nowhere. */
  lemma {:induction false} SetThenGet(doc: Json, p: seq<string>, value: Json, q: seq<string>)
    ensures Set(doc, p, value).Ok? <==> p != [] && Locate(doc, p).Ok?
    ensures Set(doc, p, value).Ok? ==>
              var new' := Set(doc, p, value).value;
              && (p <= q ==> Locate(new', q) == Locate(value, q[|p|..]))
              && (Apart(p, q) ==> Locate(new', q) == Locate(doc, q))
              && (q <= p ==>
                    && Locate(doc, q).Ok? && Locate(Locate(doc, q).value, p[|q|..]).Ok?
                    && Locate(new', q) == Ok(Replaced(Locate(doc, q).value, p[|q|..], value)))
  {
    if p != [] {
      ParentLocates(doc, p);
    }
    if p != [] && Locate(doc, p).Ok? {
      SetReplaces(doc, p, value);
      if p <= q {
        assert q == p + q[|p|..];
        ReadBelow(doc, p, value, q[|p|..]);
      }
      if q <= p {
        assert p == q + p[|q|..];
        ReadAbove(doc, q, p[|q|..], value);
      }
      if Apart(p, q) {
        ReadApart(doc, p, value, q);
      }
    }
  }

  /** Where the child now at `token` was before `key` was taken out: an array closes up. */
  function Before(key: Key, token: string): Option<string> {
    match key
    case Field(name) => if token == name then None else Some(token)
    case At(index) =>
      if IsIndex(token) && IndexValue(token) >= index then Some(Show(IndexValue(token) + 1)) else Some(token)
  }

  lemma {:induction false} WithoutReads(doc: Json, key: Key, token: string, rest: seq<string>)
    requires Has(doc, key)
    ensures Locate(Without(doc, key), [token] + rest) ==
            if Before(key, token).None? then Err(MISSING) else Locate(doc, [Before(key, token).value] + rest)
  {
    assert ([token] + rest)[1..] == rest;
    var new' := Without(doc, key);
    if key.At? && IsIndex(token) && IndexValue(token) >= key.index {
      var i := IndexValue(token);
      IndexShows(i + 1);
      assert ([Show(i + 1)] + rest)[1..] == rest;
      assert i < |new'.items| ==> new'.items[i] == doc.items[i + 1];
    } else if Before(key, token).Some? {
      assert ([Before(key, token).value] + rest)[1..] == rest;
    }
  }

  /** `pointer_delete` then `pointer_get`: the value is gone from an object, and the later elements of
      an array move down by one; a path that does not pass through the parent reads as before. */
  lemma {:induction false} DeleteThenGet(doc: Json, p: seq<string>, q: seq<string>, token: string, rest: seq<string>)
    ensures Delete(doc, p).Ok? <==> p != [] && Locate(doc, p).Ok?
    ensures Delete(doc, p).Ok? ==>
              var new', init, key := Delete(doc, p).value, p[..|p| - 1], Parent(doc, p).value.1;
              && (Apart(init, q) ==> Locate(new', q) == Locate(doc, q))
              && (q <= init ==>
                    && Locate(doc, q).Ok? && Locate(Locate(doc, q).value, init[|q|..]).Ok?
                    && Locate(new', q) ==
                       Ok(Replaced(Locate(doc, q).value, init[|q|..], Without(Parent(doc, p).value.0, key))))
              && Locate(new', init + ([token] + rest)) ==
                 if Before(key, token).None? then Err(MISSING)
                 else Locate(doc, init + ([Before(key, token).value] + rest))
  {
    if p != [] {
      ParentLocates(doc, p);
    }
    if Delete(doc, p).Ok? {
      var init := p[..|p| - 1];
      var (parent, key) := Parent(doc, p).value;
      ReadBelow(doc, init, Without(parent, key), [token] + rest);
      WithoutReads(parent, key, token, rest);
      if Before(key, token).Some? {
        LocateAppend(doc, init, [Before(key, token).value] + rest);
      }
      if Apart(init, q) {
        ReadApart(doc, init, Without(parent, key), q);
      }
      if q <= init {
        assert init == q + init[|q|..];
        ReadAbove(doc, q, init[|q|..], Without(parent, key));
      }
    }
  }
}
