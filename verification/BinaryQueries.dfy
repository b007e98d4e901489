/** `DesignQueryIndex` over an accepted binary file: its answers in terms of the file's records. */
module BinaryQueries {
  import opened Bytes
  import opened DesignModel
  import opened Image
  import opened Layout
  import opened BinaryFile
  import opened Accepted
  import opened QueryIndex
  import opened Selectors
  import opened Ascending
  import opened Folding
  import Backend

  /** What a backend with these contents reports about signal `i`. */
  function ViewOf(ds: seq<Signal<Str>>, i: int): View
    requires 0 <= i < |ds|
  {
    View(Some(ds[i].name), ds[i].direction, Connections(i, ds[i].ports))
  }

  function Connections(i: int, es: seq<Edge<Str>>): seq<Connection> {
    Map((e: Edge<Str>) => Backend.PortConnection(i, e.other, if |e.texts| > 0 then e.texts[0] else []), es)
  }

  function Views(ds: seq<Signal<Str>>): (vs: seq<View>)
    ensures |vs| == |ds| && forall i :: 0 <= i < |ds| ==> vs[i] == ViewOf(ds, i)
  {
    seq(|ds|, i requires 0 <= i < |ds| => ViewOf(ds, i))
  }

  lemma {:induction false} ConnectionsArePorts(i: int, es: seq<Edge<Str>>, out: seq<Connection>)
    requires Backend.ArePorts(out, i, es)
    ensures Connections(i, es) == out
  {}

  /** `design` reports `all`. */
  ghost predicate Reports(design: Backend.BinaryDesignBackend, all: seq<View>)
    reads design
  {
    forall x {:trigger Unfold(x)} :: Unfold(x) ==> design.Valid() && all == Views(design.Contents())
  }

  /** What the accessors say about one signal. */
  method ViewSignal(design: Backend.BinaryDesignBackend, i: int, ghost all: seq<View>) returns (v: View)
    requires Reports(design, all) && 0 <= i < |all|
    ensures v == all[i]
  {
    assert Unfold(0);
    var count, ports := design.PortConnections(i);
    ConnectionsArePorts(i, design.Contents()[i].ports, ports);
    v := View(design.SignalName(i), design.SignalDirection(i), ports);
  }

  method CollectViews(design: Backend.BinaryDesignBackend, n: int, ghost all: seq<View>) returns (vs: seq<View>)
    requires Reports(design, all) && n == |all|
    ensures vs == all
  {
    vs := [];
    for i := 0 to n
      invariant vs == all[..i]
    {
      var v := ViewSignal(design, i, all);
      vs := vs + [v];
    }
  }

  /** The index a binary backend is given, built through its accessors. */
  method IndexBackend(design: Backend.BinaryDesignBackend) returns (index: DesignQueryIndex)
    requires design.Valid()
    ensures fresh(index) && index.Valid() && index.views == Views(design.Contents())
  {
    var vs := CollectViews(design, design.SignalCount(), Views(design.Contents()));
    index := new DesignQueryIndex(vs);
  }

  // ---- Ports and records ----

  predicate RecordTo(records: seq<RawRecord>, r: int, owner: int, s: int) {
    0 <= r < |records| && records[r].owner == owner && records[r].other == s
  }

  /** Some record of `owner` leads to `s`. */
  ghost predicate LeadsTo(records: seq<RawRecord>, owner: int, s: int) {
    exists r :: RecordTo(records, r, owner, s)
  }

  lemma {:induction false} ConnectionIsRecord(pool: seq<Byte>, n: int, t: Table, i: int, j: int) returns (r: int)
    requires TableOk(pool, n, 0, t) && 0 <= i < n && 0 <= j < |Connections(i, EdgesOf(pool, t, i))|
    ensures RecordTo(t.records, r, i, Connections(i, EdgesOf(pool, t, i))[j].connectedSignal)
    ensures Connections(i, EdgesOf(pool, t, i))[j].portSignal == i
    ensures 0 <= t.records[r].other < n
  {
    TableGroup(pool, n, 0, t, i);
    r := t.starts[i] + j;
    assert RecordOk(pool, n, 0, t.records[r], i);
  }

  lemma {:induction false} RecordIsConnection(pool: seq<Byte>, n: int, t: Table, r: int) returns (j: int)
    requires TableOk(pool, n, 0, t) && 0 <= r < |t.records|
    ensures var i := t.records[r].owner;
            && 0 <= i < n && 0 <= t.records[r].other < n
            && 0 <= j < |Connections(i, EdgesOf(pool, t, i))|
            && Connections(i, EdgesOf(pool, t, i))[j].portSignal == i
            && Connections(i, EdgesOf(pool, t, i))[j].connectedSignal == t.records[r].other
  {
    TableRecord(pool, n, 0, t, r);
    var i := t.records[r].owner;
    TableGroup(pool, n, 0, t, i);
    j := r - t.starts[i];
  }

  lemma {:induction false} ReachesRecords(pool: seq<Byte>, n: int, t: Table, i: int, s: int)
    requires TableOk(pool, n, 0, t) && 0 <= i < n
    ensures Reaches(Connections(i, EdgesOf(pool, t, i)), i, s) <==> LeadsTo(t.records, i, s)
  {
    var cs := Connections(i, EdgesOf(pool, t, i));
    if Reaches(cs, i, s) {
      var j :| 0 <= j < |cs| && OtherEnd(cs[j], i) == s;
      var r := ConnectionIsRecord(pool, n, t, i, j);
    }
    if LeadsTo(t.records, i, s) {
      var r :| RecordTo(t.records, r, i, s);
      var j := RecordIsConnection(pool, n, t, r);
      assert OtherEnd(cs[j], i) == s;
    }
  }

  lemma {:induction false} JoinedRecords(pool: seq<Byte>, n: int, t: Table, i: int, a: int, b: int)
    requires TableOk(pool, n, 0, t) && 0 <= i < n
    ensures JoinedIn(Connections(i, EdgesOf(pool, t, i)), a, b) <==>
            (a == i && LeadsTo(t.records, a, b)) || (b == i && LeadsTo(t.records, b, a))
  {
    var cs := Connections(i, EdgesOf(pool, t, i));
    if JoinedIn(cs, a, b) {
      var j :| 0 <= j < |cs| && Joins(cs[j], a, b);
      var r := ConnectionIsRecord(pool, n, t, i, j);
    }
    if a == i && LeadsTo(t.records, a, b) {
      var r :| RecordTo(t.records, r, a, b);
      var j := RecordIsConnection(pool, n, t, r);
      assert Joins(cs[j], a, b);
    }
    if b == i && LeadsTo(t.records, b, a) {
      var r :| RecordTo(t.records, r, b, a);
      var j := RecordIsConnection(pool, n, t, r);
      assert Joins(cs[j], a, b);
    }
  }

  // ---- Accepted files ----

  lemma {:induction false} FilePorts(f: seq<Byte>, i: int)
    requires Accepts(f) && 0 <= i < N(f)
    ensures TableOk(Pool(f), N(f), 0, TableIn(f, PORTS))
    ensures Views(Denotes(Parse(f)))[i].direction == SignalAt(f, i).direction
    ensures Views(Denotes(Parse(f)))[i].connections == Connections(i, EdgesOf(Pool(f), TableIn(f, PORTS), i))
  {
    FileTable(f, PORTS);
    StringsPresent(f, i);
    Backend.DenotedEdges(f, i);
  }

  /** Signal `i` has direction `d`, one of 1 to 3, and some port record of it leads to `s`. */
  ghost predicate IsPortTo(f: seq<Byte>, s: int, d: int, i: int)
    requires Accepts(f)
  {
    0 <= i < N(f) && 1 <= d <= 3 && SignalAt(f, i).direction == d && LeadsTo(RecordsIn(f, PORTS), i, s)
  }

  lemma {:induction false} FilePortTo(f: seq<Byte>, s: int, d: int, i: int)
    requires Accepts(f)
    ensures PortTo(Views(Denotes(Parse(f))), s, d, i) <==> IsPortTo(f, s, d, i)
  {
    if 0 <= i < N(f) {
      FilePorts(f, i);
      ReachesRecords(Pool(f), N(f), TableIn(f, PORTS), i, s);
    }
  }

  ghost predicate DirectionalRecord(f: seq<Byte>, a: int, b: int)
    requires Accepts(f)
  {
    0 <= a < N(f) && 1 <= SignalAt(f, a).direction <= 3 && LeadsTo(RecordsIn(f, PORTS), a, b)
  }

  lemma {:induction false} FileJoined(f: seq<Byte>, i: int, s: int, t: int)
    requires Accepts(f) && 0 <= i < N(f)
    ensures (1 <= Views(Denotes(Parse(f)))[i].direction <= 3 && JoinedIn(Views(Denotes(Parse(f)))[i].connections, s, t)) <==>
            (i == s && DirectionalRecord(f, s, t)) || (i == t && DirectionalRecord(f, t, s))
  {
    FilePorts(f, i);
    JoinedRecords(Pool(f), N(f), TableIn(f, PORTS), i, s, t);
  }

  lemma {:induction false} LinkedAt(vs: seq<View>, s: int, t: int, p: bool, q: bool)
    requires (p ==> 0 <= s < |vs|) && (q ==> 0 <= t < |vs|)
    requires forall i :: 0 <= i < |vs| ==>
               ((1 <= vs[i].direction <= 3 && JoinedIn(vs[i].connections, s, t)) <==> (i == s && p) || (i == t && q))
    ensures Linked(vs, |vs|, s, t) <==> p || q
  {
    assert p ==> 1 <= vs[s].direction <= 3 && JoinedIn(vs[s].connections, s, t);
    assert q ==> 1 <= vs[t].direction <= 3 && JoinedIn(vs[t].connections, s, t);
  }

  /** Two signals are connected exactly when a port record of a directional one leads to the other. */
  lemma {:induction false} FileLinked(f: seq<Byte>, s: int, t: int)
    requires Accepts(f)
    ensures Linked(Views(Denotes(Parse(f))), N(f), s, t) <==> DirectionalRecord(f, s, t) || DirectionalRecord(f, t, s)
  {
    var vs := Views(Denotes(Parse(f)));
    var p, q := DirectionalRecord(f, s, t), DirectionalRecord(f, t, s);
    forall i | 0 <= i < N(f)
      ensures (1 <= vs[i].direction <= 3 && JoinedIn(vs[i].connections, s, t)) <==>
              (i == s && p) || (i == t && q)
    {
      FileJoined(f, i, s, t);
    }
    LinkedAt(vs, s, t, p, q);
  }

  // ---- Names ----

  /** The name of signal `i`, as its record gives it. */
  ghost function NameIn(f: seq<Byte>, i: int): Str
    requires Accepts(f) && 0 <= i < N(f)
  {
    TextAt(Pool(f), SignalAt(f, i).name)
  }

  lemma {:induction false} FileName(f: seq<Byte>, i: int)
    requires Accepts(f) && 0 <= i < N(f)
    ensures NameOf(Views(Denotes(Parse(f)))[i]) == NameIn(f, i)
  {
    StringsPresent(f, i);
  }

  /** Signal `i` has direction `d`, one of 1 to 3, and lies directly in `scope`. */
  ghost predicate IsPortIn(f: seq<Byte>, scope: Str, d: int, i: int)
    requires Accepts(f)
  {
    0 <= i < N(f) && 1 <= d <= 3 && SignalAt(f, i).direction == d && ScopeOf(NameIn(f, i)) == scope
  }

  lemma {:induction false} FilePortIn(f: seq<Byte>, scope: Str, d: int, i: int)
    requires Accepts(f)
    ensures PortIn(Views(Denotes(Parse(f))), scope, d, i) <==> IsPortIn(f, scope, d, i)
  {
    if 0 <= i < N(f) {
      FilePorts(f, i);
      FileName(f, i);
    }
  }

  /** Some signal is named base[v]. */
  ghost predicate IsNamed(f: seq<Byte>, base: Str, v: int)
    requires Accepts(f)
  {
    exists i :: 0 <= i < N(f) && Selected(NameIn(f, i), base, v)
  }

  lemma {:induction false} FileNamed(f: seq<Byte>, base: Str, v: int)
    requires Accepts(f)
    ensures SomeSelected(Views(Denotes(Parse(f))), N(f), base, v) <==> IsNamed(f, base, v)
  {
    var vs := Views(Denotes(Parse(f)));
    if SomeSelected(vs, N(f), base, v) {
      var i :| 0 <= i < N(f) && Selected(NameOf(vs[i]), base, v);
      FileName(f, i);
    }
    if IsNamed(f, base, v) {
      var i :| 0 <= i < N(f) && Selected(NameIn(f, i), base, v);
      FileName(f, i);
    }
  }

  // ---- A file opened, indexed and asked ----

  method OpenIndex(f: seq<Byte>) returns (index: DesignQueryIndex)
    requires Accepts(f) && |f| < TWO63
    ensures fresh(index) && index.Valid() && index.views == Views(Denotes(Parse(f)))
  {
    var backend := new Backend.BinaryDesignBackend();
    var ok := backend.Open(f);
    index := IndexBackend(backend);
  }

  /** `ports_connected_to` over an accepted file: the signals of the direction with a port record to
      `signal`, each once and in order, however many records lead there. */
  method FilePortsConnectedTo(f: seq<Byte>, signal: int, direction: int) returns (r: seq<int>)
    requires Accepts(f) && |f| < TWO63
    ensures Strict(r) && forall i :: i in r <==> IsPortTo(f, signal, direction, i)
  {
    var index := OpenIndex(f);
    r := index.PortsConnectedTo(signal, direction);
    forall i
      ensures PortTo(index.views, signal, direction, i) <==> IsPortTo(f, signal, direction, i)
    {
      FilePortTo(f, signal, direction, i);
    }
  }

  /** `connected_signals` over an accepted file: the signals at the other end of a port record of a
      directional signal, either way round. */
  method FileConnectedSignals(f: seq<Byte>, signal: int) returns (r: seq<int>)
    requires Accepts(f) && |f| < TWO63
    ensures Strict(r)
    ensures forall t :: t in r <==> DirectionalRecord(f, signal, t) || DirectionalRecord(f, t, signal)
  {
    var index := OpenIndex(f);
    r := index.ConnectedSignals(signal);
    forall t
      ensures Linked(index.views, |index.views|, signal, t) <==> DirectionalRecord(f, signal, t) || DirectionalRecord(f, t, signal)
    {
      FileLinked(f, signal, t);
    }
  }

  method FilePortsInScope(f: seq<Byte>, scope: Str, direction: int) returns (r: seq<int>)
    requires Accepts(f) && |f| < TWO63
    ensures Strict(r) && forall i :: i in r <==> IsPortIn(f, scope, direction, i)
  {
    var index := OpenIndex(f);
    r := index.PortsInScope(scope, direction);
    forall i
      ensures PortIn(index.views, scope, direction, i) <==> IsPortIn(f, scope, direction, i)
    {
      FilePortIn(f, scope, direction, i);
    }
  }

  method FileLastSelector(f: seq<Byte>, base: Str) returns (r: Option<int>)
    requires Accepts(f) && |f| < TWO63
    ensures r.None? ==> forall v :: !IsNamed(f, base, v)
    ensures r.Some? ==> IsNamed(f, base, r.value) && forall v :: IsNamed(f, base, v) ==> v <= r.value
  {
    var index := OpenIndex(f);
    r := index.LastMaterializedSelector(base);
    forall v
      ensures SomeSelected(index.views, |index.views|, base, v) <==> IsNamed(f, base, v)
    {
      FileNamed(f, base, v);
    }
  }
}
