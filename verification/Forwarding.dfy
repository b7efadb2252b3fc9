/** Hop-by-hop forwarding when every node routes by its own shortest-path table. */
module Forwarding {
  import opened PeerGraph
  import opened Dijkstra

  datatype Table = Table(scores: map<NodeId, nat>, firstHop: map<NodeId, Hop>)

  /** Every node holds the result of its own run over the same graph. */
  ghost predicate AllCorrect(g: Graph, tables: NodeId -> Table) {
    forall u :: Correct(g, u, tables(u).scores, tables(u).firstHop)
  }

  ghost predicate PositiveCosts(g: Graph) {
    forall n, e :: e in EdgesOf(g, n) ==> e.cost > 0
  }

  /** The distance from `n` to `d` that `n` itself knows. */
  function Distance(tables: NodeId -> Table, n: NodeId, d: NodeId): nat
    requires d in tables(n).scores
  {
    tables(n).scores[d]
  }

  /** `e` leads from `u` to its first hop towards `d`, and covers what its distance exceeds the hop's by. */
  ghost predicate Advances(g: Graph, tables: NodeId -> Table, u: NodeId, d: NodeId, e: Edge)
    requires d in tables(u).scores && d in tables(u).firstHop
  {
    && e in EdgesOf(g, u) && e.target == tables(u).firstHop[d].next
    && d in tables(e.target).scores
    && Distance(tables, u, d) == e.cost + Distance(tables, e.target, d)
  }

  lemma {:induction false} AtNode(g: Graph, tables: NodeId -> Table, u: NodeId)
    requires AllCorrect(g, tables)
    ensures Correct(g, u, tables(u).scores, tables(u).firstHop)
  {}

  /** What the table of `u` knows about `d`. */
  lemma {:induction false} KnownPath(g: Graph, tables: NodeId -> Table, u: NodeId, d: NodeId) returns (p: Path)
    requires AllCorrect(g, tables) && d in tables(u).scores
    ensures IsPathTo(g, u, p, d) && p.Cost() == Distance(tables, u, d)
    ensures d in tables(u).firstHop && p.FirstHop(u) == tables(u).firstHop[d].next
  {
    AtNode(g, tables, u);
    p :| IsShortest(g, u, p, d) && Describes(g, u, d, p, tables(u).scores[d], tables(u).firstHop[d]);
  }

  /** The known distance is no more than the cost of any path. */
  lemma {:induction false} DistanceIsLeast(g: Graph, tables: NodeId -> Table, u: NodeId, d: NodeId, q: Path)
    requires AllCorrect(g, tables) && IsPathTo(g, u, q, d)
    ensures d in tables(u).scores && Distance(tables, u, d) <= q.Cost()
  {
    AtNode(g, tables, u);
    var t := tables(u);
    assert Reachable(g, u, d);
    var p :| IsShortest(g, u, p, d) && Describes(g, u, d, p, t.scores[d], t.firstHop[d]);
  }

  /** The independently computed tables of a node and of its first hop agree on the distance. */
  lemma {:induction false} HopAdvances(g: Graph, tables: NodeId -> Table, u: NodeId, d: NodeId)
    requires AllCorrect(g, tables) && d in tables(u).scores && u != d
    ensures d in tables(u).firstHop && exists e :: Advances(g, tables, u, d, e)
  {
    hide AllCorrect;
    var p := KnownPath(g, tables, u, d);
    RestIsPath(g, u, p);
    var e := p.First();
    DistanceIsLeast(g, tables, e.target, d, p.Rest());
    var q := KnownPath(g, tables, e.target, d);
    ThenIsPath(g, u, Via(Start, e), q);
    DistanceIsLeast(g, tables, u, d, Via(Start, e).Then(q));
    assert Advances(g, tables, u, d, e);
  }

  /** The nodes a packet for `d` visits from `u` on, each forwarding to its own first hop. */
  ghost function Trace(g: Graph, tables: NodeId -> Table, u: NodeId, d: NodeId): seq<NodeId>
    requires AllCorrect(g, tables) && PositiveCosts(g) && d in tables(u).scores
    decreases tables(u).scores[d]
  {
    if u == d then [u]
    else
      HopAdvances(g, tables, u, d);
      [u] + Trace(g, tables, tables(u).firstHop[d].next, d)
  }

  /** Known distances to `d` strictly fall along the nodes. */
  ghost predicate Approaches(tables: NodeId -> Table, nodes: seq<NodeId>, d: NodeId) {
    && (forall n :: n in nodes ==> d in tables(n).scores)
    && (forall i, j :: 0 <= i < j < |nodes| ==> Distance(tables, nodes[j], d) < Distance(tables, nodes[i], d))
  }

  /** Forwarding delivers without revisiting a node, along a path that is itself shortest. */
  lemma {:induction false} ForwardingDelivers(g: Graph, tables: NodeId -> Table, u: NodeId, d: NodeId)
    requires AllCorrect(g, tables) && PositiveCosts(g) && d in tables(u).scores
    ensures var t := Trace(g, tables, u, d);
            && t[0] == u && t[|t| - 1] == d
            && (forall i, j :: 0 <= i < j < |t| ==> t[i] != t[j])
            && exists p :: IsShortest(g, u, p, d) && p.Nodes(u) == t
  {
    hide AllCorrect, PositiveCosts;
    var p := TraceIsPath(g, tables, u, d);
    forall q | IsPathTo(g, u, q, d) ensures p.Cost() <= q.Cost() {
      DistanceIsLeast(g, tables, u, d, q);
    }
    ApproachIsDistinct(tables, Trace(g, tables, u, d), d);
  }

  lemma {:induction false} ApproachIsDistinct(tables: NodeId -> Table, nodes: seq<NodeId>, d: NodeId)
    requires Approaches(tables, nodes, d)
    ensures forall i, j :: 0 <= i < j < |nodes| ==> nodes[i] != nodes[j]
  {
    forall i, j | 0 <= i < j < |nodes| ensures nodes[i] != nodes[j] {
      assert Distance(tables, nodes[j], d) < Distance(tables, nodes[i], d);
    }
  }

  lemma {:induction false} TraceIsPath(g: Graph, tables: NodeId -> Table, u: NodeId, d: NodeId) returns (p: Path)
    requires AllCorrect(g, tables) && PositiveCosts(g) && d in tables(u).scores
    ensures var t := Trace(g, tables, u, d);
            && IsPathTo(g, u, p, d) && p.Nodes(u) == t && p.Cost() == Distance(tables, u, d)
            && |t| > 0 && t[0] == u && t[|t| - 1] == d
            && Approaches(tables, t, d)
    decreases tables(u).scores[d]
  {
    hide AllCorrect;
    if u == d {
      p := Start;
      DistanceIsLeast(g, tables, u, u, Start);
    } else {
      HopAdvances(g, tables, u, d);
      var e :| Advances(g, tables, u, d, e);
      var q := TraceIsPath(g, tables, e.target, d);
      p := Via(Start, e).Then(q);
      ThenIsPath(g, u, Via(Start, e), q);
      NodesAfterFirst(u, e, q);
      ApproachFrom(tables, u, Trace(g, tables, e.target, d), d);
    }
  }

  lemma {:induction false} ApproachFrom(tables: NodeId -> Table, u: NodeId, rest: seq<NodeId>, d: NodeId)
    requires Approaches(tables, rest, d) && rest != [] && d in tables(u).scores
    requires Distance(tables, rest[0], d) < Distance(tables, u, d)
    ensures Approaches(tables, [u] + rest, d)
  {
    var nodes := [u] + rest;
    forall i, j | 0 <= i < j < |nodes| ensures Distance(tables, nodes[j], d) < Distance(tables, nodes[i], d) {
      assert nodes[j] == rest[j - 1];
      assert j == 1 || Distance(tables, rest[j - 1], d) < Distance(tables, rest[0], d);
    }
  }
}
