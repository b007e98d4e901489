/** The design a DesignDB describes: what the XDD library reports and what every
    reader must give back. `S` is the type of its texts. */
module DesignModel {

  /** A driver, load or port record apart from its owner: the signal at the other
      end, its texts, and a line (0 for ports, which carry none). The texts are
      kind, role, activation predicate, file for a driver; kind, file for a load;
      kind for a port. */
  datatype Edge<S> = Edge(other: int, texts: seq<S>, line: int)

  datatype Signal<S> = Signal(
    name: S, kind: S, file: S, width: int, line: int, direction: int,
    drivers: seq<Edge<S>>, loads: seq<Edge<S>>, ports: seq<Edge<S>>)

  /** Applies `g` to every element. */
  function Map<A, B>(g: A -> B, s: seq<A>): (r: seq<B>)
    ensures |r| == |s| && forall i :: 0 <= i < |s| ==> r[i] == g(s[i])
  {
    seq(|s|, i requires 0 <= i < |s| => g(s[i]))
  }

  function MapEdge<A, B>(g: A -> B, e: Edge<A>): Edge<B> {
    Edge(e.other, Map(g, e.texts), e.line)
  }

  /** The same design with every text rewritten by `g`. */
  function MapSignal<A, B>(g: A -> B, s: Signal<A>): Signal<B> {
    var h := (e: Edge<A>) => MapEdge(g, e);
    Signal(g(s.name), g(s.kind), g(s.file), s.width, s.line, s.direction,
           Map(h, s.drivers), Map(h, s.loads), Map(h, s.ports))
  }
}
