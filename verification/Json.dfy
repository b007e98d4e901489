/** JSON documents without floating-point numbers, and navigation by token. */
module Json {
  import opened Bytes
  import opened Numerals
  import Radix

  datatype Json =
    | Null
    | Bool(b: bool)
    | Num(n: int)
    | Str(s: string)
    | Arr(items: seq<Json>)
    | Obj(fields: map<string, Json>)

  /** What a token selects in a container. */
  datatype Key = Field(name: string) | At(index: nat)

  // ---- Array indices ----

  /** The pattern `0|[1-9][0-9]*`. */
  predicate IsIndex(token: string) {
    && token != "" && AllDigits(token)
    && (token[0] == '0' ==> |token| == 1)
  }

  function IndexValue(token: string): nat
    requires IsIndex(token)
  {
    NumberOf(token)
  }

  /** An index and its numeral determine each other. */
  lemma {:induction false} IndexShows(n: nat)
    ensures IsIndex(Show(n)) && IndexValue(Show(n)) == n
  {
    ShowDigits(n);
    Radix.PrintDigits(n, 10);
    assert DigitsOf(Show(n))[0] == Radix.Print(n, 10)[0];
    if n == 0 {
      assert Radix.Print(0, 10) == [0];
    }
  }

  lemma {:induction false} ShowIndex(token: string)
    requires IsIndex(token)
    ensures Show(IndexValue(token)) == token
  {
    var ds := DigitsOf(token);
    Radix.ValuePrint(ds, 10);
    ShowDigits(IndexValue(token));
    DigitsInjective(Show(IndexValue(token)), token);
  }

  /** Different indices never select the same element. */
  lemma {:induction false} IndexInjective(a: string, b: string)
    requires IsIndex(a) && IsIndex(b) && IndexValue(a) == IndexValue(b)
    ensures a == b
  {
    ShowIndex(a);
    ShowIndex(b);
  }

  // ---- Containers ----

  predicate Has(doc: Json, key: Key) {
    match key
    case Field(name) => doc.Obj? && name in doc.fields
    case At(index) => doc.Arr? && index < |doc.items|
  }

  function Child(doc: Json, key: Key): (c: Json)
    requires Has(doc, key)
  {
    match key
    case Field(name) => doc.fields[name]
    case At(index) => doc.items[index]
  }

  /** `container[key] = value`. */
  function WithChild(doc: Json, key: Key, value: Json): Json
    requires Has(doc, key)
  {
    match key
    case Field(name) => Obj(doc.fields[name := value])
    case At(index) => Arr(doc.items[index := value])
  }

  /** `del container[key]` and `container.pop(key)`. */
  function Without(doc: Json, key: Key): Json
    requires Has(doc, key)
  {
    match key
    case Field(name) => Obj(doc.fields - {name})
    case At(index) => Arr(doc.items[..index] + doc.items[index + 1..])
  }

  const MISSING := Malformed("JSON pointer does not exist")
  const BAD_INDEX := Malformed("invalid array index in JSON pointer")
  const SCALAR := Malformed("JSON pointer crosses a scalar")

  /** `_index`. */
  function Index(doc: Json, token: string): (r: Result<Key>)
    ensures r.Ok? ==> Has(doc, r.value)
  {
    match doc
    case Obj(fields) => if token in fields then Ok(Field(token)) else Err(MISSING)
    case Arr(items) =>
      if !IsIndex(token) then Err(BAD_INDEX)
      else if IndexValue(token) >= |items| then Err(MISSING)
      else Ok(At(IndexValue(token)))
    case _ => Err(SCALAR)
  }

  /** Distinct tokens select distinct children. */
  lemma {:induction false} KeysDiffer(doc: Json, a: string, b: string)
    requires Index(doc, a).Ok? && Index(doc, b).Ok? && a != b
    ensures Index(doc, a) != Index(doc, b)
  {
    if doc.Arr? && IndexValue(a) == IndexValue(b) {
      IndexInjective(a, b);
      assert false;
    }
  }
}
