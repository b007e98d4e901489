/** `DesignQueryIndex`: reverse indexes of a design built in one pass. Each lookup equals
    a scan of everything the backend reports. */
module QueryIndex {
  import opened Bytes
  import opened Image
  import opened Selectors
  import opened Ascending
  import opened Folding
  import opened Picking
  import Backend

  type Connection = Backend.PortConnection

  /** What a backend reports about one signal; it may have no name. */
  datatype View = View(name: Option<Str>, direction: int, connections: seq<Connection>)

  function NameOf(v: View): Str { if v.name.Some? then v.name.value else [] }

  /** The test of the scan: an input, output or inout. */
  predicate Directional(direction: int) { direction > 0 && direction < 4 }

  /** The end of a connection that is not `index`. */
  function OtherEnd(c: Connection, index: int): int {
    if c.portSignal == index then c.connectedSignal else c.portSignal
  }

  // ---- What each lookup means ----

  predicate Reaches(cs: seq<Connection>, index: int, s: int) {
    s >= 0 && exists j :: 0 <= j < |cs| && OtherEnd(cs[j], index) == s
  }

  predicate PortTo(vs: seq<View>, s: int, direction: int, i: int) {
    && 0 <= i < |vs| && vs[i].direction == direction && 1 <= direction <= 3
    && Reaches(vs[i].connections, i, s)
  }

  predicate PortIn(vs: seq<View>, scope: Str, direction: int, i: int) {
    0 <= i < |vs| && vs[i].direction == direction && 1 <= direction <= 3 && ScopeOf(NameOf(vs[i])) == scope
  }

  function PortsTo(vs: seq<View>, n: nat, s: int, direction: int): seq<int> {
    Select(n, i => PortTo(vs, s, direction, i))
  }

  function PortsIn(vs: seq<View>, n: nat, scope: Str, direction: int): seq<int> {
    Select(n, i => PortIn(vs, scope, direction, i))
  }

  lemma {:induction false} PortsToMeans(vs: seq<View>, s: int, direction: int)
    ensures Strict(PortsTo(vs, |vs|, s, direction))
    ensures forall i :: i in PortsTo(vs, |vs|, s, direction) <==> PortTo(vs, s, direction, i)
  {
    SelectMeans(|vs|, i => PortTo(vs, s, direction, i));
  }

  lemma {:induction false} PortsInMeans(vs: seq<View>, scope: Str, direction: int)
    ensures Strict(PortsIn(vs, |vs|, scope, direction))
    ensures forall i :: i in PortsIn(vs, |vs|, scope, direction) <==> PortIn(vs, scope, direction, i)
  {
    SelectMeans(|vs|, i => PortIn(vs, scope, direction, i));
  }

  /** A connection between `s` and `t`, either way round, with both ends present. */
  predicate Joins(c: Connection, s: int, t: int) {
    && c.portSignal >= 0 && c.connectedSignal >= 0
    && ((c.portSignal == s && c.connectedSignal == t) || (c.portSignal == t && c.connectedSignal == s))
  }

  predicate JoinedIn(cs: seq<Connection>, s: int, t: int) {
    exists j :: 0 <= j < |cs| && Joins(cs[j], s, t)
  }

  /** A directional signal below `n` reports a connection between `s` and `t`. */
  predicate Linked(vs: seq<View>, n: int, s: int, t: int) {
    exists i :: 0 <= i < n <= |vs| && 1 <= vs[i].direction <= 3 && JoinedIn(vs[i].connections, s, t)
  }

  lemma {:induction false} LinkedStep(vs: seq<View>, n: nat, s: int, t: int)
    requires n < |vs|
    ensures Linked(vs, n + 1, s, t) <==>
            Linked(vs, n, s, t) || (1 <= vs[n].direction <= 3 && JoinedIn(vs[n].connections, s, t))
  {}

  /** Being linked is symmetric, whatever the backend reports. */
  lemma {:induction false} LinkedSymmetric(vs: seq<View>, n: int, s: int, t: int)
    ensures Linked(vs, n, s, t) <==> Linked(vs, n, t, s)
  {
    if Linked(vs, n, s, t) {
      LinkedBack(vs, n, s, t);
    }
    if Linked(vs, n, t, s) {
      LinkedBack(vs, n, t, s);
    }
  }

  lemma {:induction false} LinkedBack(vs: seq<View>, n: int, s: int, t: int)
    requires Linked(vs, n, s, t)
    ensures Linked(vs, n, t, s)
  {
    var i :| 0 <= i < n <= |vs| && 1 <= vs[i].direction <= 3 && JoinedIn(vs[i].connections, s, t);
    var cs := vs[i].connections;
    var j :| 0 <= j < |cs| && Joins(cs[j], s, t);
    assert Joins(cs[j], t, s);
    assert JoinedIn(vs[i].connections, t, s);
  }

  /** The largest number N of a signal below `n` named base[N]. */
  function LastSelector(vs: seq<View>, n: nat, base: Str): Option<int>
    requires n <= |vs|
  {
    if n == 0 then None
    else
      var before := LastSelector(vs, n - 1, base);
      match FinalNumericSelector(NameOf(vs[n - 1]))
      case Some((b, v)) => if b == base && (before.None? || v > before.value) then Some(v) else before
      case None => before
  }

  /** No selector of `name` exceeds `r`. */
  ghost predicate Bounds(name: Str, base: Str, r: Option<int>) {
    forall v :: Selected(name, base, v) ==> r.Some? && v <= r.value
  }

  lemma {:induction false} LastSelectorStep(vs: seq<View>, n: nat, base: Str)
    requires 0 < n <= |vs|
    ensures var r, before, name := LastSelector(vs, n, base), LastSelector(vs, n - 1, base), NameOf(vs[n - 1]);
            && (before.Some? ==> r.Some? && before.value <= r.value)
            && (r == before || (r.Some? && Selected(name, base, r.value)))
            && Bounds(name, base, r)
  {
    var r, before, name := LastSelector(vs, n, base), LastSelector(vs, n - 1, base), NameOf(vs[n - 1]);
    if r != before {
      SelectorExact(name, base, r.value);
    }
    forall v | Selected(name, base, v)
      ensures r.Some? && v <= r.value
    {
      SelectorExact(name, base, v);
    }
  }

  ghost predicate SomeSelected(vs: seq<View>, n: nat, base: Str, v: int)
    requires n <= |vs|
  {
    exists i :: 0 <= i < n && Selected(NameOf(vs[i]), base, v)
  }

  lemma {:induction false} SelectedStep(vs: seq<View>, n: nat, base: Str, v: int)
    requires 0 < n <= |vs|
    ensures SomeSelected(vs, n, base, v) <==>
            SomeSelected(vs, n - 1, base, v) || Selected(NameOf(vs[n - 1]), base, v)
  {}

  /** `r` is the largest number selected among the first `n` signals, if there is one. */
  ghost predicate IsLargest(vs: seq<View>, n: nat, base: Str, r: Option<int>)
    requires n <= |vs|
  {
    && (r.Some? ==> SomeSelected(vs, n, base, r.value))
    && forall v :: SomeSelected(vs, n, base, v) ==> r.Some? && v <= r.value
  }

  lemma {:induction false} LargestStep(vs: seq<View>, n: nat, base: Str, before: Option<int>, r: Option<int>)
    requires 0 < n <= |vs| && IsLargest(vs, n - 1, base, before)
    requires before.Some? ==> r.Some? && before.value <= r.value
    requires r == before || (r.Some? && Selected(NameOf(vs[n - 1]), base, r.value))
    requires Bounds(NameOf(vs[n - 1]), base, r)
    ensures IsLargest(vs, n, base, r)
  {
    if r.Some? {
      SelectedStep(vs, n, base, r.value);
    }
    forall v | SomeSelected(vs, n, base, v)
      ensures r.Some? && v <= r.value
    {
      SelectedStep(vs, n, base, v);
    }
  }

  /** It exists exactly when some signal is so named, and is then the maximum. */
  lemma {:induction false} LastSelectorIsMaximum(vs: seq<View>, n: nat, base: Str)
    requires n <= |vs|
    ensures IsLargest(vs, n, base, LastSelector(vs, n, base))
  {
    if n > 0 {
      LastSelectorIsMaximum(vs, n - 1, base);
      LastSelectorLargest(vs, n, base);
    }
  }

  lemma {:induction false} LastSelectorLargest(vs: seq<View>, n: nat, base: Str)
    requires 0 < n <= |vs| && IsLargest(vs, n - 1, base, LastSelector(vs, n - 1, base))
    ensures IsLargest(vs, n, base, LastSelector(vs, n, base))
  {
    LastSelectorStep(vs, n, base);
    LargestStep(vs, n, base, LastSelector(vs, n - 1, base), LastSelector(vs, n, base));
  }

  // ---- The maps ----

  /** Four lists per key, one for each direction. */
  type Ports<K(!new)> = m: map<K, seq<seq<int>>> | forall k :: k in m ==> |m[k]| == 4

  function PortsAt<K(!new)>(m: Ports<K>, key: K, direction: int): seq<int> {
    if key !in m || direction < 0 || direction >= 4 then [] else m[key][direction]
  }

  function ListAt(m: map<int, seq<int>>, key: int): seq<int> {
    if key in m then m[key] else []
  }

  /** `m[key][direction].push_back(index)`. */
  function AddPort<K(!new)>(m: Ports<K>, key: K, direction: int, index: int): (r: Ports<K>)
    requires Directional(direction)
    ensures forall k, d :: PortsAt(r, k, d) ==
              PortsAt(m, k, d) + if k == key && d == direction then [index] else []
  {
    var lists := if key in m then m[key] else [[], [], [], []];
    m[key := lists[direction := lists[direction] + [index]]]
  }

  function AddNeighbour(m: map<int, seq<int>>, key: int, s: int): (r: map<int, seq<int>>)
    ensures forall k :: ListAt(r, k) == ListAt(m, k) + if k == key then [s] else []
  {
    m[key := ListAt(m, key) + [s]]
  }

  function AddSelector(m: map<Str, int>, name: Str): map<Str, int> {
    match FinalNumericSelector(name)
    case None => m
    case Some((base, value)) => if base !in m || value > m[base] then m[base := value] else m
  }

  function SelectorAt(m: map<Str, int>, base: Str): Option<int> {
    if base in m then Some(m[base]) else None
  }

  lemma {:induction false} ReachesStep(cs: seq<Connection>, j: nat, index: int, s: int)
    requires j < |cs|
    ensures Reaches(cs[..j + 1], index, s) <==> Reaches(cs[..j], index, s) || (s >= 0 && OtherEnd(cs[j], index) == s)
  {
    assert cs[..j + 1] == cs[..j] + [cs[j]];
    if s >= 0 && OtherEnd(cs[j], index) == s {
      assert OtherEnd(cs[..j + 1][j], index) == s;
    }
    if Reaches(cs[..j], index, s) {
      var i :| 0 <= i < j && OtherEnd(cs[..j][i], index) == s;
      assert OtherEnd(cs[..j + 1][i], index) == s;
    }
    if Reaches(cs[..j + 1], index, s) {
      var i :| 0 <= i < j + 1 && OtherEnd(cs[..j + 1][i], index) == s;
      if i < j {
        assert OtherEnd(cs[..j][i], index) == s;
      }
    }
  }

  lemma {:induction false} JoinedStep(cs: seq<Connection>, j: nat, s: int, t: int)
    requires j < |cs|
    ensures JoinedIn(cs[..j + 1], s, t) <==> JoinedIn(cs[..j], s, t) || Joins(cs[j], s, t)
  {
    assert cs[..j + 1] == cs[..j] + [cs[j]];
    if Joins(cs[j], s, t) {
      assert Joins(cs[..j + 1][j], s, t);
    }
    if JoinedIn(cs[..j], s, t) {
      var i :| 0 <= i < j && Joins(cs[..j][i], s, t);
      assert Joins(cs[..j + 1][i], s, t);
    }
    if JoinedIn(cs[..j + 1], s, t) {
      var i :| 0 <= i < j + 1 && Joins(cs[..j + 1][i], s, t);
      if i < j {
        assert Joins(cs[..j][i], s, t);
      }
    }
  }

  /** `index` has been added under the keys `ends` for one direction. */
  ghost predicate PortsAdded(ports: Ports<int>, ports': Ports<int>, direction: int, index: int, ends: set<int>) {
    forall x {:trigger Unfold(x)} :: Unfold(x) ==>
      forall s, d :: PortsAt(ports', s, d) ==
        PortsAt(ports, s, d) + if d == direction && s in ends then [index] else []
  }

  /** The neighbours that connections `cs` join have been added. */
  ghost predicate ListsAdded(lists: map<int, seq<int>>, lists': map<int, seq<int>>, cs: seq<Connection>) {
    forall x {:trigger Unfold(x)} :: Unfold(x) ==>
      forall s, t :: t in ListAt(lists', s) <==> t in ListAt(lists, s) || JoinedIn(cs, s, t)
  }

  lemma {:induction false} PortsAddedMore(
    a: Ports<int>, b: Ports<int>, c: Ports<int>, direction: int, index: int, once: set<int>, more: set<int>)
    requires PortsAdded(a, b, direction, index, once) && PortsAdded(b, c, direction, index, more - once)
    ensures PortsAdded(a, c, direction, index, once + more)
  {
    assert Unfold(0);
  }

  lemma {:induction false} ListsAddedMore(
    a: map<int, seq<int>>, b: map<int, seq<int>>, c: map<int, seq<int>>, cs: seq<Connection>, j: nat)
    requires j < |cs| && ListsAdded(a, b, cs[..j]) && ListsAdded(b, c, [cs[j]])
    ensures ListsAdded(a, c, cs[..j + 1])
  {
    assert Unfold(0);
    forall s, t
      ensures t in ListAt(c, s) <==> t in ListAt(a, s) || JoinedIn(cs[..j + 1], s, t)
    {
      JoinedStep(cs, j, s, t);
      JoinedOne(cs[j], s, t);
    }
  }

  lemma {:induction false} PortsAddedOne(ports: Ports<int>, other: int, direction: int, index: int)
    requires Directional(direction)
    ensures PortsAdded(ports, AddPort(ports, other, direction, index), direction, index, {other})
  {}

  lemma {:induction false} JoinedOne(c: Connection, s: int, t: int)
    ensures JoinedIn([c], s, t) <==> Joins(c, s, t)
  {
    if Joins(c, s, t) {
      assert Joins([c][0], s, t);
    }
  }

  lemma {:induction false} NeighbourAdded(m: map<int, seq<int>>, key: int, x: int, s: int, t: int)
    ensures t in ListAt(AddNeighbour(m, key, x), s) <==> t in ListAt(m, s) || (s == key && t == x)
  {}

  lemma {:induction false} JoinAdded(lists: map<int, seq<int>>, c: Connection, s: int, t: int)
    ensures t in ListAt(AddJoin(lists, c), s) <==> t in ListAt(lists, s) || Joins(c, s, t)
  {
    if c.portSignal >= 0 && c.connectedSignal >= 0 {
      var once := AddNeighbour(lists, c.portSignal, c.connectedSignal);
      NeighbourAdded(lists, c.portSignal, c.connectedSignal, s, t);
      NeighbourAdded(once, c.connectedSignal, c.portSignal, s, t);
    }
  }

  lemma {:induction false} ListsAddedOne(lists: map<int, seq<int>>, c: Connection)
    ensures ListsAdded(lists, AddJoin(lists, c), [c])
  {
    var r := AddJoin(lists, c);
    forall s, t
      ensures t in ListAt(r, s) <==> t in ListAt(lists, s) || JoinedIn([c], s, t)
    {
      JoinedOne(c, s, t);
      JoinAdded(lists, c, s, t);
    }
  }

  /** Both ends of a connection become neighbours, if both are present. */
  function AddJoin(lists: map<int, seq<int>>, c: Connection): map<int, seq<int>> {
    if c.portSignal >= 0 && c.connectedSignal >= 0 then
      AddNeighbour(AddNeighbour(lists, c.portSignal, c.connectedSignal), c.connectedSignal, c.portSignal)
    else lists
  }

  /** The ends of connections that count: those not `index`, where present. */
  function Ends(cs: seq<Connection>, index: int): (ends: set<int>)
    ensures forall s :: s in ends <==> Reaches(cs, index, s)
  {
    set j | 0 <= j < |cs| && OtherEnd(cs[j], index) >= 0 :: OtherEnd(cs[j], index)
  }

  lemma {:induction false} EndsStep(cs: seq<Connection>, j: nat, index: int)
    requires j < |cs|
    ensures var other := OtherEnd(cs[j], index);
            Ends(cs[..j + 1], index) == Ends(cs[..j], index) + if other >= 0 then {other} else {}
  {
    forall s
      ensures s in Ends(cs[..j + 1], index) <==> s in Ends(cs[..j], index) || (s >= 0 && OtherEnd(cs[j], index) == s)
    {
      ReachesStep(cs, j, index, s);
    }
  }

  /** The inner loop over one signal's connections. A set keeps each end from being added twice. */
  method ScanConnections(cs: seq<Connection>, index: int, direction: int, ports: Ports<int>, lists: map<int, seq<int>>)
    returns (ports': Ports<int>, lists': map<int, seq<int>>)
    requires Directional(direction)
    ensures PortsAdded(ports, ports', direction, index, Ends(cs, index))
    ensures ListsAdded(lists, lists', cs)
  {
    ports', lists' := ports, lists;
    var once: set<int> := {};
    for j := 0 to |cs|
      invariant once == Ends(cs[..j], index)
      invariant PortsAdded(ports, ports', direction, index, once)
      invariant ListsAdded(lists, lists', cs[..j])
    {
      var other := OtherEnd(cs[j], index);
      EndsStep(cs, j, index);
      if other >= 0 && other !in once {
        PortsAddedOne(ports', other, direction, index);
        assert {other} - once == {other};
        PortsAddedMore(ports, ports', AddPort(ports', other, direction, index), direction, index, once, {other});
        once := once + {other};
        ports' := AddPort(ports', other, direction, index);
      }
      ListsAddedOne(lists', cs[j]);
      ListsAddedMore(lists, lists', AddJoin(lists', cs[j]), cs, j);
      lists' := AddJoin(lists', cs[j]);
    }
    assert cs[..|cs|] == cs;
  }

  /** Every list is strictly ascending, apart from those still to do. */
  ghost predicate StrictBut(m: map<int, seq<int>>, todo: set<int>) {
    forall s :: Strict(ListAt(m, s)) || s in todo
  }

  /** The last loop: every list is sorted and freed of duplicates. */
  method SortLists(lists: map<int, seq<int>>) returns (r: map<int, seq<int>>)
    ensures forall s :: Strict(ListAt(r, s))
    ensures forall s, t :: t in ListAt(r, s) <==> t in ListAt(lists, s)
  {
    r := lists;
    var todo: set<int> := lists.Keys;
    while todo != {}
      invariant r.Keys == lists.Keys && todo <= r.Keys
      invariant StrictBut(r, todo)
      invariant forall s, t :: t in ListAt(r, s) <==> t in ListAt(lists, s)
      decreases |todo|
    {
      var s := Pick(todo);
      SortUnique(r[s]);
      r := r[s := Unique(Sort(r[s]))];
      todo := todo - {s};
    }
  }

  // ---- One signal at a time ----

  ghost predicate PortsDone(m: Ports<int>, vs: seq<View>, n: nat) {
    forall s, d :: PortsAt(m, s, d) == PortsTo(vs, n, s, d)
  }

  ghost predicate ScopesDone(m: Ports<Str>, vs: seq<View>, n: nat) {
    forall scope, d :: PortsAt(m, scope, d) == PortsIn(vs, n, scope, d)
  }

  ghost predicate ListsDone(m: map<int, seq<int>>, vs: seq<View>, n: nat) {
    forall s, t :: t in ListAt(m, s) <==> Linked(vs, n, s, t)
  }

  ghost predicate SelectorsDone(m: map<Str, int>, vs: seq<View>, n: nat)
    requires n <= |vs|
  {
    forall base :: SelectorAt(m, base) == LastSelector(vs, n, base)
  }

  /** The number of port records reported by directional signals below `n`. */
  function RecordsScanned(vs: seq<View>, n: nat): nat
    requires n <= |vs|
  {
    if n == 0 then 0
    else RecordsScanned(vs, n - 1) + if 1 <= vs[n - 1].direction <= 3 then |vs[n - 1].connections| else 0
  }

  lemma {:induction false} ScopesStep(m: Ports<Str>, r: Ports<Str>, vs: seq<View>, n: nat)
    requires n < |vs| && ScopesDone(m, vs, n)
    requires r == if Directional(vs[n].direction) then AddPort(m, ScopeOf(NameOf(vs[n])), vs[n].direction, n) else m
    ensures ScopesDone(r, vs, n + 1)
  {
    forall scope, d
      ensures PortsAt(r, scope, d) == PortsIn(vs, n + 1, scope, d)
    {
      assert PortsIn(vs, n + 1, scope, d) == PortsIn(vs, n, scope, d) + if PortIn(vs, scope, d, n) then [n] else [];
    }
  }

  lemma {:induction false} PortsStep(m: Ports<int>, r: Ports<int>, vs: seq<View>, n: nat)
    requires n < |vs| && PortsDone(m, vs, n)
    requires if Directional(vs[n].direction)
             then PortsAdded(m, r, vs[n].direction, n, Ends(vs[n].connections, n)) else r == m
    ensures PortsDone(r, vs, n + 1)
  {
    assert Unfold(0);
    forall s, d
      ensures PortsAt(r, s, d) == PortsTo(vs, n + 1, s, d)
    {
      assert PortsTo(vs, n + 1, s, d) == PortsTo(vs, n, s, d) + if PortTo(vs, s, d, n) then [n] else [];
    }
  }

  lemma {:induction false} ListsStep(m: map<int, seq<int>>, r: map<int, seq<int>>, vs: seq<View>, n: nat)
    requires n < |vs| && ListsDone(m, vs, n)
    requires if Directional(vs[n].direction) then ListsAdded(m, r, vs[n].connections) else r == m
    ensures ListsDone(r, vs, n + 1)
  {
    assert Unfold(0);
    forall s, t
      ensures t in ListAt(r, s) <==> Linked(vs, n + 1, s, t)
    {
      LinkedStep(vs, n, s, t);
    }
  }

  lemma {:induction false} SelectorsStep(m: map<Str, int>, vs: seq<View>, n: nat)
    requires n < |vs| && SelectorsDone(m, vs, n)
    ensures SelectorsDone(AddSelector(m, NameOf(vs[n])), vs, n + 1)
  {
    var r := AddSelector(m, NameOf(vs[n]));
    forall base
      ensures SelectorAt(r, base) == LastSelector(vs, n + 1, base)
    {
      assert SelectorAt(m, base) == LastSelector(vs, n, base);
    }
  }

  class DesignQueryIndex {
    ghost var views: seq<View>
    var connectedPorts: Ports<int>
    var connectedSignals: map<int, seq<int>>
    var scopePorts: Ports<Str>
    var lastSelectors: map<Str, int>
    var signalsScanned: nat
    var portRecordsScanned: nat

    /** Every lookup answers as a scan of the backend would. */
    ghost predicate Valid()
      reads this
    {
      && PortsDone(connectedPorts, views, |views|)
      && ScopesDone(scopePorts, views, |views|)
      && ListsDone(connectedSignals, views, |views|)
      && (forall s :: Strict(ListAt(connectedSignals, s)))
      && SelectorsDone(lastSelectors, views, |views|)
      && signalsScanned == |views|
      && portRecordsScanned == RecordsScanned(views, |views|)
    }

    /** The state of the loop after the first `n` signals of `design`. */
    ghost predicate Scanned(design: seq<View>, n: nat)
      reads this
    {
      && n <= |design|
      && PortsDone(connectedPorts, design, n) && ScopesDone(scopePorts, design, n)
      && ListsDone(connectedSignals, design, n) && SelectorsDone(lastSelectors, design, n)
      && portRecordsScanned == RecordsScanned(design, n)
    }

    constructor (design: seq<View>)
      ensures views == design && Valid()
    {
      views := design;
      connectedPorts, connectedSignals, scopePorts, lastSelectors := map[], map[], map[], map[];
      signalsScanned, portRecordsScanned := |design|, 0;
      new;
      Scan(design);
      connectedSignals := SortLists(connectedSignals);
    }

    /** The loop over signals. */
    method Scan(design: seq<View>)
      requires Scanned(design, 0)
      modifies this
      ensures views == old(views) && signalsScanned == old(signalsScanned)
      ensures Scanned(design, |design|)
    {
      for index := 0 to |design|
        invariant views == old(views) && signalsScanned == old(signalsScanned)
        invariant Scanned(design, index)
      {
        AddSignal(design, index);
      }
    }

    method AddSignal(design: seq<View>, index: nat)
      requires index < |design| && Scanned(design, index)
      modifies this
      ensures views == old(views) && signalsScanned == old(signalsScanned)
      ensures Scanned(design, index + 1)
    {
      var name, direction := NameOf(design[index]), design[index].direction;
      ghost var scopes, ports, lists := scopePorts, connectedPorts, connectedSignals;
      SelectorsStep(lastSelectors, design, index);
      if Directional(direction) {
        scopePorts := AddPort(scopePorts, ScopeOf(name), direction, index);
      }
      lastSelectors := AddSelector(lastSelectors, name);
      if Directional(direction) {
        var connections := design[index].connections;
        portRecordsScanned := portRecordsScanned + |connections|;
        connectedPorts, connectedSignals :=
          ScanConnections(connections, index, direction, connectedPorts, connectedSignals);
      }
      ScopesStep(scopes, scopePorts, design, index);
      PortsStep(ports, connectedPorts, design, index);
      ListsStep(lists, connectedSignals, design, index);
    }

    /** `connected_signals`: each signal joined to `signal` once, in order. */
    function ConnectedSignals(signal: int): (r: seq<int>)
      reads this
      requires Valid()
      ensures Strict(r) && forall t :: t in r <==> Linked(views, |views|, signal, t)
    {
      ListAt(connectedSignals, signal)
    }

    /** `ports_connected_to`: each port of a direction that reaches `signal` once, in order. */
    function PortsConnectedTo(signal: int, direction: int): (r: seq<int>)
      reads this
      requires Valid()
      ensures Strict(r) && forall i :: i in r <==> PortTo(views, signal, direction, i)
    {
      PortsToMeans(views, signal, direction);
      PortsAt(connectedPorts, signal, direction)
    }

    function PortsInScope(scope: Str, direction: int): (r: seq<int>)
      reads this
      requires Valid()
      ensures Strict(r) && forall i :: i in r <==> PortIn(views, scope, direction, i)
    {
      PortsInMeans(views, scope, direction);
      PortsAt(scopePorts, scope, direction)
    }

    /** `last_materialized_selector`: the largest N with a signal named base[N], if any. */
    function LastMaterializedSelector(base: Str): (r: Option<int>)
      reads this
      requires Valid()
      ensures r.Some? <==> exists v :: SomeSelected(views, |views|, base, v)
      ensures r.Some? ==> SomeSelected(views, |views|, base, r.value)
      ensures r.Some? ==> forall v :: SomeSelected(views, |views|, base, v) ==> v <= r.value
    {
      LastSelectorIsMaximum(views, |views|, base);
      if base in lastSelectors then Some(lastSelectors[base]) else None
    }
  }

  /** Connection is symmetric in every index, whatever the backend reports. */
  lemma {:induction false} ConnectedBothWays(index: DesignQueryIndex, s: int, t: int)
    requires index.Valid()
    ensures t in index.ConnectedSignals(s) <==> s in index.ConnectedSignals(t)
  {
    LinkedSymmetric(index.views, |index.views|, s, t);
  }

  /** The answers depend on the backend alone, not on the order in which the index was filled. */
  lemma {:induction false} SameAnswers(a: DesignQueryIndex, b: DesignQueryIndex, s: int, scope: Str, d: int)
    requires a.Valid() && b.Valid() && a.views == b.views
    ensures a.ConnectedSignals(s) == b.ConnectedSignals(s)
    ensures a.PortsConnectedTo(s, d) == b.PortsConnectedTo(s, d)
    ensures a.PortsInScope(scope, d) == b.PortsInScope(scope, d)
    ensures a.LastMaterializedSelector(scope) == b.LastMaterializedSelector(scope)
  {
    StrictUnique(a.ConnectedSignals(s), b.ConnectedSignals(s));
    StrictUnique(a.PortsConnectedTo(s, d), b.PortsConnectedTo(s, d));
    StrictUnique(a.PortsInScope(scope, d), b.PortsInScope(scope, d));
    assert SelectorAt(a.lastSelectors, scope) == SelectorAt(b.lastSelectors, scope);
  }
}
