/** The weighted peer graph and its paths. Self-loops, parallel edges and edges to
    nodes without outgoing edges are all allowed; costs are non-negative. */
module PeerGraph {

  type NodeId = int

  datatype Edge = Edge(target: NodeId, cost: nat)

  /** Outgoing edges of each node, in the order the graph enumerates them. */
  type Graph = map<NodeId, seq<Edge>>

  function EdgesOf(g: Graph, n: NodeId): seq<Edge> {
    if n in g then g[n] else []
  }

  /** The edges walked from some start node, most recent last. */
  datatype Path = Start | Via(init: Path, last: Edge) {

    function Cost(): nat {
      match this
      case Start => 0
      case Via(p, e) => p.Cost() + e.cost
    }

    function Length(): nat {
      match this
      case Start => 0
      case Via(p, _) => p.Length() + 1
    }

    function End(s: NodeId): NodeId {
      match this
      case Start => s
      case Via(_, e) => e.target
    }

    function First(): Edge
      requires Via?
    {
      if init.Start? then last else init.First()
    }

    /** The path without its first edge. */
    function Rest(): Path
      requires Via?
    {
      if init.Start? then Start else Via(init.Rest(), last)
    }

    /** The nodes walked through, from `s` on. */
    function Nodes(s: NodeId): seq<NodeId> {
      match this
      case Start => [s]
      case Via(p, e) => p.Nodes(s) + [e.target]
    }

    /** The node after `s`, or `s` itself on the empty path. */
    function FirstHop(s: NodeId): NodeId {
      if Start? then s else First().target
    }

    function Then(q: Path): Path {
      match q
      case Start => this
      case Via(p, e) => Via(Then(p), e)
    }

    /** Every edge leaves the node that the edges before it lead to. */
    predicate In(g: Graph, s: NodeId) {
      match this
      case Start => true
      case Via(p, e) => p.In(g, s) && e in EdgesOf(g, p.End(s))
    }
  }

  predicate IsPathTo(g: Graph, s: NodeId, p: Path, t: NodeId) {
    p.In(g, s) && p.End(s) == t
  }

  ghost predicate Reachable(g: Graph, s: NodeId, t: NodeId) {
    exists p :: IsPathTo(g, s, p, t)
  }

  /** `p` is a path from `s` to `t` and no path from `s` to `t` costs less. */
  ghost predicate IsShortest(g: Graph, s: NodeId, p: Path, t: NodeId) {
    IsPathTo(g, s, p, t) && forall q :: IsPathTo(g, s, q, t) ==> p.Cost() <= q.Cost()
  }

  lemma {:induction false} ThenIsPath(g: Graph, s: NodeId, p: Path, q: Path)
    requires p.In(g, s) && q.In(g, p.End(s))
    ensures p.Then(q).In(g, s) && p.Then(q).End(s) == q.End(p.End(s))
    ensures p.Then(q).Cost() == p.Cost() + q.Cost()
  {
    if q.Via? {
      ThenIsPath(g, s, p, q.init);
    }
  }

  /** A path that begins with `e`: its nodes follow its start node. */
  lemma {:induction false} NodesAfterFirst(s: NodeId, e: Edge, q: Path)
    ensures Via(Start, e).Then(q).Nodes(s) == [s] + q.Nodes(e.target)
  {
    if q.Via? {
      NodesAfterFirst(s, e, q.init);
    }
  }

  lemma {:induction false} RestIsPath(g: Graph, s: NodeId, p: Path)
    requires p.Via? && p.In(g, s)
    ensures p.First() in EdgesOf(g, s)
    ensures p.Rest().In(g, p.First().target) && p.Rest().End(p.First().target) == p.End(s)
    ensures p.Cost() == p.First().cost + p.Rest().Cost()
  {
    if p.init.Via? {
      RestIsPath(g, s, p.init);
    }
  }
}
