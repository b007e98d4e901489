/** Name resolution: binary search over the sorted name index agrees with a linear
    scan, and `resolve` tries a fixed list of spellings in order. */
module Resolver {
  import opened Bytes
  import opened Image
  import opened Accepted

  /** Linear scan of the index for a name; -1 when absent. */
  function Lookup(es: seq<Entry>, query: Str): int {
    if es == [] then -1
    else if es[0].name == Some(query) then es[0].signal
    else Lookup(es[1..], query)
  }

  lemma {:induction false} LookupMiss(es: seq<Entry>, query: Str)
    requires forall p :: 0 <= p < |es| ==> es[p].name != Some(query)
    ensures Lookup(es, query) == -1
  {
    if es != [] {
      LookupMiss(es[1..], query);
    }
  }

  lemma {:induction false} LookupHit(es: seq<Entry>, query: Str, p: int)
    requires 0 <= p < |es| && es[p].name == Some(query)
    requires forall q :: 0 <= q < p ==> es[q].name != Some(query)
    ensures Lookup(es, query) == es[p].signal
  {
    if p > 0 {
      LookupHit(es[1..], query, p - 1);
    }
  }

  /** A found name is at exactly one place of an acceptable index. */
  lemma {:induction false} LookupUnique(n: int, es: seq<Entry>, query: Str, p: int)
    requires NamesOk(n, es) && 0 <= p < n && es[p].name == Some(query)
    ensures Lookup(es, query) == es[p].signal && 0 <= es[p].signal < n
    ensures forall q :: 0 <= q < n && es[q].name == Some(query) ==> q == p
  {
    IndexPermutation(n, es);
    var names := IndexNames(n, es);
    forall q | 0 <= q < n && es[q].name == Some(query)
      ensures q == p
    {
      LexTrichotomy(names[p], names[q]);
    }
    LookupHit(es, query, p);
    assert EntryOk(n, es[p], Prior(es, p));
  }

  /** `exact`: the binary search. */
  method Exact(n: int, es: seq<Entry>, query: Str) returns (signal: int)
    requires NamesOk(n, es)
    ensures signal == Lookup(es, query)
  {
    ghost var names := IndexNames(n, es);
    IndexPermutation(n, es);
    var low, high := 0, n;
    while low < high
      invariant 0 <= low <= high <= n
      invariant forall p :: 0 <= p < low ==> LexLess(names[p], query)
      invariant forall p :: high <= p < n ==> LexLess(query, names[p])
    {
      var mid := low + (high - low) / 2;
      assert es[mid].name == Some(names[mid]);
      var order := StrCmp(query, es[mid].name.value);
      if order == 0 {
        LookupUnique(n, es, query, mid);
        return es[mid].signal;
      }
      BisectStep(names, query, mid);
      if order < 0 {
        high := mid;
      } else {
        low := mid + 1;
      }
    }
    forall p | 0 <= p < n
      ensures es[p].name != Some(query)
    {
      LexTrichotomy(names[p], query);
    }
    LookupMiss(es, query);
    return -1;
  }

  lemma {:induction false} BisectStep(names: seq<Str>, query: Str, mid: int)
    requires 0 <= mid < |names|
    requires forall p, q :: 0 <= p < q < |names| ==> LexLess(names[p], names[q])
    ensures LexLess(query, names[mid]) ==> forall p :: mid <= p < |names| ==> LexLess(query, names[p])
    ensures query != names[mid] && !LexLess(query, names[mid]) ==>
              forall p :: 0 <= p <= mid ==> LexLess(names[p], query)
  {
    LexTrichotomy(query, names[mid]);
    forall p | mid < p < |names| && LexLess(query, names[mid])
      ensures LexLess(query, names[p])
    {
      LexTransitive(query, names[mid], names[p]);
    }
    forall p | 0 <= p < mid && LexLess(names[mid], query)
      ensures LexLess(names[p], query)
    {
      LexTransitive(names[p], names[mid], query);
    }
  }

  // ---- Candidate spellings ----

  const UPPER_ROOT: Str := [84, 79, 80, 46]  // "TOP."
  const LOWER_ROOT: Str := [116, 111, 112, 46]  // "top."

  /** The spelling with an upper-case root rewritten. */
  function Lowered(query: Str): Str {
    if UPPER_ROOT <= query then LOWER_ROOT + query[4..] else query
  }

  /** The spellings tried for a query, in order. */
  function Candidates(query: Str): seq<Str> {
    var lowered := Lowered(query);
    [query]
    + (if UPPER_ROOT <= query then [lowered] else [])
    + (if LOWER_ROOT <= lowered then [lowered[4..], LOWER_ROOT + lowered] else [LOWER_ROOT + lowered])
  }

  /** The first candidate the index holds; -1 when it holds none. */
  function FirstHit(es: seq<Entry>, cs: seq<Str>): int {
    if cs == [] then -1
    else if Lookup(es, cs[0]) >= 0 then Lookup(es, cs[0])
    else FirstHit(es, cs[1..])
  }

  // ---- What resolving means, entry by entry ----

  /** Some entry bears the name `s` and stands for signal `r`. */
  ghost predicate Bears(es: seq<Entry>, s: Str, r: int) {
    exists p :: 0 <= p < |es| && es[p].name == Some(s) && es[p].signal == r
  }

  ghost predicate Absent(es: seq<Entry>, s: Str) {
    forall p :: 0 <= p < |es| ==> es[p].name != Some(s)
  }

  /** `r` is the signal of the first of the spellings that some entry bears; -1 if none does. */
  ghost predicate FirstBorne(es: seq<Entry>, spellings: seq<Str>, r: int)
    decreases |spellings|
  {
    if spellings == [] then r == -1
    else if Absent(es, spellings[0]) then FirstBorne(es, spellings[1..], r)
    else Bears(es, spellings[0], r)
  }

  /** The spellings of a query, in order: "TOP.r" is also tried as "top.r", as "r" and as "top.top.r";
      "top.r" as "r" and as "top.top.r"; any other query with "top." before it. */
  function Spellings(q: Str): seq<Str> {
    if |q| >= 4 && q[..4] == [84, 79, 80, 46] then
      [q, [116, 111, 112, 46] + q[4..], q[4..], [116, 111, 112, 46, 116, 111, 112, 46] + q[4..]]
    else if |q| >= 4 && q[..4] == [116, 111, 112, 46] then
      [q, q[4..], [116, 111, 112, 46] + q]
    else [q, [116, 111, 112, 46] + q]
  }

  lemma {:induction false} CandidatesAreSpellings(q: Str)
    ensures Candidates(q) == Spellings(q)
  {
    assert |q| >= 4 ==> (UPPER_ROOT <= q <==> q[..4] == UPPER_ROOT) && (LOWER_ROOT <= q <==> q[..4] == LOWER_ROOT);
    if UPPER_ROOT <= q {
      var lowered := LOWER_ROOT + q[4..];
      assert lowered[4..] == q[4..];
      assert LOWER_ROOT + lowered == [116, 111, 112, 46, 116, 111, 112, 46] + q[4..];
    }
  }

  lemma {:induction false} FirstHitBorne(n: int, es: seq<Entry>, cs: seq<Str>)
    requires NamesOk(n, es)
    ensures FirstBorne(es, cs, FirstHit(es, cs))
  {
    if cs != [] {
      LookupRange(n, es, cs[0]);
      FirstHitBorne(n, es, cs[1..]);
      if p :| 0 <= p < n && es[p].name == Some(cs[0]) {
        LookupUnique(n, es, cs[0], p);
      }
    }
  }

  /** `resolve` answers with the entry of the first spelling of the query that the index holds. */
  lemma {:induction false} ResolvedMeans(n: int, es: seq<Entry>, q: Str)
    requires NamesOk(n, es) && q != []
    ensures FirstBorne(es, Spellings(q), Resolved(es, q))
  {
    CandidatesAreSpellings(q);
    FirstHitBorne(n, es, Candidates(q));
  }

  /** An unrooted query: the entry named so if there is one, else the one with "top." before it, else
      nothing. */
  lemma {:induction false} ResolvedUnrooted(n: int, es: seq<Entry>, q: Str)
    requires NamesOk(n, es) && q != [] && !([84, 79, 80, 46] <= q) && !([116, 111, 112, 46] <= q)
    ensures forall p :: 0 <= p < n && es[p].name == Some(q) ==> Resolved(es, q) == es[p].signal
    ensures Absent(es, q) ==>
              forall p :: 0 <= p < n && es[p].name == Some([116, 111, 112, 46] + q) ==> Resolved(es, q) == es[p].signal
    ensures Absent(es, q) && Absent(es, [116, 111, 112, 46] + q) ==> Resolved(es, q) == -1
  {
    var top := [116, 111, 112, 46] + q;
    CandidatesAreSpellings(q);
    assert Spellings(q) == [q, top] && [q, top][1..] == [top];
    LastCandidate(n, es, top);
    LookupRange(n, es, q);
    LookupRange(n, es, top);
    if p :| 0 <= p < n && es[p].name == Some(q) {
      LookupUnique(n, es, q, p);
    } else if p :| 0 <= p < n && es[p].name == Some(top) {
      LookupUnique(n, es, top, p);
    }
  }

  /** What `resolve` promises for a non-null query. */
  function Resolved(es: seq<Entry>, query: Str): int {
    if query == [] then -1 else FirstHit(es, Candidates(query))
  }

  /** `resolve` on an index: a null or empty query resolves to nothing. */
  method Resolve(n: int, es: seq<Entry>, name: Option<Str>) returns (signal: int)
    requires NamesOk(n, es)
    ensures signal == if name.None? then -1 else Resolved(es, name.value)
    ensures if name.None? || name.value == [] then signal == -1 else FirstBorne(es, Spellings(name.value), signal)
  {
    if name.Some? && name.value != [] {
      ResolvedMeans(n, es, name.value);
    }
    if name.None? || name.value == [] {
      return -1;
    }
    var query := name.value;
    ghost var cs := Candidates(query);
    signal := Exact(n, es, query);
    if signal >= 0 {
      return;
    }
    LookupRange(n, es, query);
    assert Resolved(es, name.value) == FirstHit(es, cs[1..]);
    if UPPER_ROOT <= query {
      query := LOWER_ROOT + query[4..];
      signal := Exact(n, es, query);
      assert cs[1..] == [query, query[4..], LOWER_ROOT + query];
      if signal >= 0 {
        return;
      }
      assert cs[1..][1..] == [query[4..], LOWER_ROOT + query];
    }
    if !(LOWER_ROOT <= query) {
      signal := Exact(n, es, LOWER_ROOT + query);
      LastCandidate(n, es, LOWER_ROOT + query);
      assert cs[1..] == [LOWER_ROOT + query];
      return;
    }
    ghost var rest := [query[4..], LOWER_ROOT + query];
    assert Resolved(es, name.value) == FirstHit(es, rest);
    signal := Exact(n, es, query[4..]);
    if signal >= 0 {
      return;
    }
    assert rest[1..] == [LOWER_ROOT + query];
    signal := Exact(n, es, LOWER_ROOT + query);
    LastCandidate(n, es, LOWER_ROOT + query);
  }

  lemma {:induction false} LastCandidate(n: int, es: seq<Entry>, c: Str)
    requires NamesOk(n, es)
    ensures FirstHit(es, [c]) == Lookup(es, c)
  {
    LookupRange(n, es, c);
    assert [c][1..] == [];
  }

  /** A lookup in an acceptable index yields a signal, or -1. */
  lemma {:induction false} LookupRange(n: int, es: seq<Entry>, query: Str)
    requires NamesOk(n, es)
    ensures -1 <= Lookup(es, query) && (Lookup(es, query) >= 0 ==> Lookup(es, query) < n)
    ensures Lookup(es, query) >= 0 <==> exists p :: 0 <= p < n && es[p].name == Some(query)
  {
    if p :| 0 <= p < n && es[p].name == Some(query) {
      LookupUnique(n, es, query, p);
    } else {
      LookupMiss(es, query);
    }
  }
}
