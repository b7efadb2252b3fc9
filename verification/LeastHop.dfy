/** The least-hop policy: count hops first (with a prohibitive price on links of peers
    that avoid relaying), keep only links on hop-minimal paths, then minimise cost. */
module LeastHop {
  import opened PeerGraph
  import opened Dijkstra
  import opened Forwarding

  const AVOID_RELAY_COST := 0x7fff_ffff

  function NormalizeCost(cost: nat): nat {
    if cost >= AVOID_RELAY_COST then AVOID_RELAY_COST + 1 else 1
  }

  function NormalizeEdge(e: Edge): Edge {
    Edge(e.target, NormalizeCost(e.cost))
  }

  /** The graph as the hop-counting pass sees it. */
  function Normalized(g: Graph): Graph {
    map n | n in g :: seq(|g[n]|, i requires 0 <= i < |g[n]| => NormalizeEdge(g[n][i]))
  }

  function NormalizePath(p: Path): Path {
    match p
    case Start => Start
    case Via(q, e) => Via(NormalizePath(q), NormalizeEdge(e))
  }

  /** The edges of `src` that continue a hop-minimal path. */
  function KeepEdges(es: seq<Edge>, src: NodeId, lens: map<NodeId, nat>): (kept: seq<Edge>)
    ensures forall e :: e in kept <==>
              e in es && src in lens && e.target in lens && lens[src] + NormalizeCost(e.cost) == lens[e.target]
  {
    if es == [] then []
    else
      var e := es[0];
      var rest := KeepEdges(es[1..], src, lens);
      if src in lens && e.target in lens && lens[src] + NormalizeCost(e.cost) == lens[e.target]
      then [e] + rest else rest
  }

  function Subgraph(g: Graph, lens: map<NodeId, nat>): Graph {
    map n | n in g :: KeepEdges(g[n], n, lens)
  }

  /** No path to the same node is shorter in hops, and none of equal hops is cheaper. */
  ghost predicate IsLeastHop(g: Graph, s: NodeId, p: Path, t: NodeId) {
    && IsPathTo(g, s, p, t)
    && forall q :: IsPathTo(g, s, q, t) ==>
         var (a, b) := (NormalizePath(p).Cost(), NormalizePath(q).Cost());
         a < b || (a == b && p.Cost() <= q.Cost())
  }

  /** How many links of peers that avoid relaying the path takes. */
  function Avoided(p: Path): nat {
    match p
    case Start => 0
    case Via(q, e) => Avoided(q) + if e.cost >= 0x7fff_ffff then 1 else 0
  }

  /** The hop-counting pass minimises the number of links, with a price of 2 to the power of 31, less one, on avoided
      ones. */
  lemma {:induction false} NormalizedCost(p: Path)
    ensures NormalizePath(p).Cost() == p.Length() + 0x7fff_ffff * Avoided(p)
  {
    if p.Via? {
      NormalizedCost(p.init);
    }
  }

  /** If there is a path of fewer than 2 to the power of 31 links without avoided ones, least-hop paths take no avoided
      link; they are no longer than any such path, and no more expensive than one of equal length. */
  lemma {:induction false} AvoidedLinksLose(g: Graph, s: NodeId, p: Path, q: Path, t: NodeId)
    requires IsLeastHop(g, s, p, t) && IsPathTo(g, s, q, t) && Avoided(q) == 0 && q.Length() <= 0x7fff_ffff
    ensures Avoided(p) == 0 && p.Length() <= q.Length()
    ensures p.Length() == q.Length() ==> p.Cost() <= q.Cost()
  {
    hide NormalizePath;
    NormalizedCost(p);
    NormalizedCost(q);
    if Avoided(p) > 0 {
      NotStart(p);
    }
  }

  lemma {:induction false} NotStart(p: Path)
    requires Avoided(p) > 0
    ensures p.Length() > 0
  {}

  lemma {:induction false} NormalizedPath(g: Graph, s: NodeId, p: Path)
    requires p.In(g, s)
    ensures NormalizePath(p).In(Normalized(g), s) && NormalizePath(p).End(s) == p.End(s)
    ensures NormalizePath(p).FirstHop(s) == p.FirstHop(s) && NormalizePath(p).Length() == p.Length()
  {
    if p.Via? {
      NormalizedPath(g, s, p.init);
      var n := p.init.End(s);
      var i :| 0 <= i < |g[n]| && g[n][i] == p.last;
      assert Normalized(g)[n][i] == NormalizeEdge(p.last);
    }
  }

  lemma {:induction false} NormalizedPathInverse(g: Graph, s: NodeId, q: Path) returns (p: Path)
    requires q.In(Normalized(g), s)
    ensures p.In(g, s) && p.End(s) == q.End(s) && NormalizePath(p) == q
  {
    if q.Start? {
      p := Start;
    } else {
      var init := NormalizedPathInverse(g, s, q.init);
      var n := init.End(s);
      var i :| 0 <= i < |Normalized(g)[n]| && Normalized(g)[n][i] == q.last;
      p := Via(init, g[n][i]);
    }
  }

  /** `lens` are the exact normalised distances from `s`. */
  ghost predicate IsDistances(g: Graph, s: NodeId, lens: map<NodeId, nat>) {
    && (forall p: Path :: p.In(g, s) ==> p.End(s) in lens && lens[p.End(s)] <= NormalizePath(p).Cost())
    && (forall n :: n in lens ==> exists p :: IsPathTo(g, s, p, n) && NormalizePath(p).Cost() == lens[n])
  }

  lemma {:induction false} FirstPassDistances(g: Graph, s: NodeId, lens: map<NodeId, nat>, hops: map<NodeId, Hop>)
    requires Correct(Normalized(g), s, lens, hops)
    ensures IsDistances(g, s, lens)
  {
    forall p: Path | p.In(g, s) ensures p.End(s) in lens && lens[p.End(s)] <= NormalizePath(p).Cost() {
      NormalizedPath(g, s, p);
      assert IsPathTo(Normalized(g), s, NormalizePath(p), p.End(s));
    }
    forall n | n in lens ensures exists p :: IsPathTo(g, s, p, n) && NormalizePath(p).Cost() == lens[n] {
      var q :| IsShortest(Normalized(g), s, q, n) && Describes(Normalized(g), s, n, q, lens[n], hops[n]);
      var p := NormalizedPathInverse(g, s, q);
    }
  }

  /** The subgraph holds exactly the hop-minimal paths of the graph. */
  lemma {:induction false} SubgraphPaths(g: Graph, s: NodeId, lens: map<NodeId, nat>, p: Path)
    requires IsDistances(g, s, lens)
    ensures p.In(Subgraph(g, lens), s) <==>
              p.In(g, s) && p.End(s) in lens && NormalizePath(p).Cost() == lens[p.End(s)]
  {
    if p.Start? {
      assert Start.In(g, s);
      assert lens[Start.End(s)] <= NormalizePath(Start).Cost();
    } else {
      SubgraphPaths(g, s, lens, p.init);
      if p.In(g, s) {
        // a shortest way to the last but one node, continued by the last edge, bounds the target
        var n := p.init.End(s);
        assert p.init.In(g, s);
        var q :| IsPathTo(g, s, q, n) && NormalizePath(q).Cost() == lens[n];
        assert Via(q, p.last).In(g, s);
        assert lens[p.End(s)] <= NormalizePath(Via(q, p.last)).Cost();
      }
    }
  }

  /** The second pass, over the subgraph, finds the cheapest hop-minimal paths of the graph. */
  lemma {:induction false} SecondPassIsLeastHop(g: Graph, s: NodeId, lens: map<NodeId, nat>,
                             scores: map<NodeId, nat>, hops: map<NodeId, Hop>, n: NodeId) returns (p: Path)
    requires IsDistances(g, s, lens) && Correct(Subgraph(g, lens), s, scores, hops) && n in scores
    ensures IsLeastHop(g, s, p, n) && Describes(g, s, n, p, scores[n], hops[n])
    ensures n in lens && NormalizePath(p).Cost() == lens[n]
  {
    var sub := Subgraph(g, lens);
    p :| IsShortest(sub, s, p, n) && Describes(sub, s, n, p, scores[n], hops[n]);
    SubgraphPaths(g, s, lens, p);
    forall q | IsPathTo(g, s, q, n)
      ensures NormalizePath(p).Cost() < NormalizePath(q).Cost()
           || (NormalizePath(p).Cost() == NormalizePath(q).Cost() && p.Cost() <= q.Cost())
    {
      SubgraphPaths(g, s, lens, q);
      assert lens[q.End(s)] <= NormalizePath(q).Cost();
      if NormalizePath(q).Cost() == lens[n] {
        assert IsPathTo(sub, s, q, n);
      }
    }
  }

  lemma {:induction false} SameNodes(g: Graph, s: NodeId, lens: map<NodeId, nat>, scores: map<NodeId, nat>,
                                     hops: map<NodeId, Hop>)
    requires IsDistances(g, s, lens) && Correct(Subgraph(g, lens), s, scores, hops)
    ensures scores.Keys == lens.Keys
  {
    forall n | n in lens ensures n in scores {
      var p :| IsPathTo(g, s, p, n) && NormalizePath(p).Cost() == lens[n];
      SubgraphPaths(g, s, lens, p);
      assert IsPathTo(Subgraph(g, lens), s, p, n);
    }
    forall n | n in scores ensures n in lens {
      var p := SecondPassIsLeastHop(g, s, lens, scores, hops, n);
    }
  }

  lemma {:induction false} NormalizedIsShortest(g: Graph, s: NodeId, lens: map<NodeId, nat>, hops: map<NodeId, Hop>,
                                                n: NodeId, p: Path)
    requires Correct(Normalized(g), s, lens, hops) && n in lens
    requires IsPathTo(g, s, p, n) && NormalizePath(p).Cost() == lens[n]
    ensures IsShortest(Normalized(g), s, NormalizePath(p), n)
    ensures Describes(Normalized(g), s, n, NormalizePath(p), lens[n], Hop(p.FirstHop(s), p.Length()))
  {
    NormalizedPath(g, s, p);
    var q :| IsShortest(Normalized(g), s, q, n) && Describes(Normalized(g), s, n, q, lens[n], hops[n]);
  }

  /** The published first hops are also correct for the hop-counting graph. */
  lemma {:induction false} HopsFollowHopCount(g: Graph, s: NodeId, lens: map<NodeId, nat>, hops0: map<NodeId, Hop>,
                           scores: map<NodeId, nat>, hops: map<NodeId, Hop>)
    requires Correct(Normalized(g), s, lens, hops0) && Correct(Subgraph(g, lens), s, scores, hops)
    ensures Correct(Normalized(g), s, lens, hops)
    ensures scores.Keys == lens.Keys
  {
    hide Subgraph, NormalizePath, IsLeastHop, IsDistances;
    var ng := Normalized(g);
    FirstPassDistances(g, s, lens, hops0);
    SameNodes(g, s, lens, scores, hops);
    forall n | n in lens
      ensures exists q :: IsShortest(ng, s, q, n) && Describes(ng, s, n, q, lens[n], hops[n])
    {
      var p := SecondPassIsLeastHop(g, s, lens, scores, hops, n);
      NormalizedIsShortest(g, s, lens, hops0, n, p);
      assert Describes(ng, s, n, NormalizePath(p), lens[n], hops[n]);
    }
  }

  // ----- Forwarding -----

  /** The table describes, for exactly the nodes reachable from `u`, least-hop paths to them. */
  ghost predicate IsLeastHopTable(g: Graph, u: NodeId, t: Table) {
    && (forall n :: n in t.scores <==> Reachable(g, u, n))
    && t.scores.Keys == t.firstHop.Keys
    && (forall n :: n in t.scores ==>
          exists p :: IsLeastHop(g, u, p, n) && Describes(g, u, n, p, t.scores[n], t.firstHop[n]))
  }

  /** Every node holds the result of its own two passes over the same graph. */
  ghost predicate AllLeastHop(g: Graph, tables: NodeId -> Table) {
    forall u :: IsLeastHopTable(g, u, tables(u))
  }

  /** The number of hops of least-hop paths from `u` to `d`, normalised. */
  ghost function HopCount(g: Graph, u: NodeId, d: NodeId): nat {
    if exists p :: IsLeastHop(g, u, p, d) then
      var p :| IsLeastHop(g, u, p, d);
      NormalizePath(p).Cost()
    else 0
  }

  lemma {:induction false} HopCountOf(g: Graph, u: NodeId, p: Path, d: NodeId)
    requires IsLeastHop(g, u, p, d)
    ensures HopCount(g, u, d) == NormalizePath(p).Cost()
  {
    hide NormalizePath;
    var q :| IsLeastHop(g, u, q, d) && HopCount(g, u, d) == NormalizePath(q).Cost();
  }

  lemma {:induction false} NormalizedThen(e: Edge, q: Path)
    ensures NormalizePath(Via(Start, e).Then(q)).Cost() == NormalizeCost(e.cost) + NormalizePath(q).Cost()
  {
    if q.Via? {
      NormalizedThen(e, q.init);
    }
  }

  lemma {:induction false} NormalizedRest(p: Path)
    requires p.Via?
    ensures NormalizePath(p).Cost() == NormalizeCost(p.First().cost) + NormalizePath(p.Rest()).Cost()
  {
    if p.init.Via? {
      NormalizedRest(p.init);
    }
  }

  /** What the table of `u` knows about `d`. */
  lemma {:induction false} KnownLeastHop(g: Graph, tables: NodeId -> Table, u: NodeId, d: NodeId) returns (p: Path)
    requires AllLeastHop(g, tables) && Reachable(g, u, d)
    ensures d in tables(u).scores && d in tables(u).firstHop
    ensures IsLeastHop(g, u, p, d) && p.Cost() == tables(u).scores[d] && p.FirstHop(u) == tables(u).firstHop[d].next
    ensures HopCount(g, u, d) == NormalizePath(p).Cost()
  {
    assert IsLeastHopTable(g, u, tables(u));
    p :| IsLeastHop(g, u, p, d) && Describes(g, u, d, p, tables(u).scores[d], tables(u).firstHop[d]);
    HopCountOf(g, u, p, d);
  }

  /** `e` leads from `u` to its first hop towards `d`; it covers what the hop counts and the costs differ by. */
  ghost predicate AdvancesLeastHop(g: Graph, tables: NodeId -> Table, u: NodeId, d: NodeId, e: Edge)
    requires d in tables(u).scores && d in tables(u).firstHop
  {
    && e in EdgesOf(g, u) && e.target == tables(u).firstHop[d].next
    && Reachable(g, e.target, d) && d in tables(e.target).scores
    && HopCount(g, u, d) == NormalizeCost(e.cost) + HopCount(g, e.target, d)
    && tables(u).scores[d] == e.cost + tables(e.target).scores[d]
  }

  /** The independently computed tables of a node and of its first hop agree, in hops and in cost. */
  lemma {:induction false} LeastHopAdvances(g: Graph, tables: NodeId -> Table, u: NodeId, d: NodeId)
    requires AllLeastHop(g, tables) && Reachable(g, u, d) && u != d
    ensures d in tables(u).scores && d in tables(u).firstHop && exists e :: AdvancesLeastHop(g, tables, u, d, e)
  {
    hide AllLeastHop, NormalizePath, HopCount;
    var p := KnownLeastHop(g, tables, u, d);
    RestIsPath(g, u, p);
    NormalizedRest(p);
    var e := p.First();
    assert IsPathTo(g, e.target, p.Rest(), d);
    var q := KnownLeastHop(g, tables, e.target, d);
    ThenIsPath(g, u, Via(Start, e), q);
    NormalizedThen(e, q);
    assert IsPathTo(g, u, Via(Start, e).Then(q), d);
    assert AdvancesLeastHop(g, tables, u, d, e);
  }

  /** The nodes a packet for `d` visits from `u` on, each forwarding to its own first hop. */
  ghost function LeastHopTrace(g: Graph, tables: NodeId -> Table, u: NodeId, d: NodeId): seq<NodeId>
    requires AllLeastHop(g, tables) && Reachable(g, u, d)
    decreases HopCount(g, u, d)
  {
    if u == d then [u]
    else
      LeastHopAdvances(g, tables, u, d);
      [u] + LeastHopTrace(g, tables, tables(u).firstHop[d].next, d)
  }

  ghost predicate HopsFall(g: Graph, nodes: seq<NodeId>, d: NodeId) {
    forall i, j :: 0 <= i < j < |nodes| ==> HopCount(g, nodes[j], d) < HopCount(g, nodes[i], d)
  }

  lemma {:induction false} HopsFallFrom(g: Graph, u: NodeId, rest: seq<NodeId>, d: NodeId)
    requires HopsFall(g, rest, d) && rest != [] && HopCount(g, rest[0], d) < HopCount(g, u, d)
    ensures HopsFall(g, [u] + rest, d)
  {
    hide HopCount;
    var nodes := [u] + rest;
    forall i, j | 0 <= i < j < |nodes| ensures HopCount(g, nodes[j], d) < HopCount(g, nodes[i], d) {
      assert nodes[j] == rest[j - 1];
      assert j == 1 || HopCount(g, rest[j - 1], d) < HopCount(g, rest[0], d);
    }
  }

  lemma {:induction false} LeastHopTracePath(g: Graph, tables: NodeId -> Table, u: NodeId, d: NodeId) returns (p: Path)
    requires AllLeastHop(g, tables) && Reachable(g, u, d)
    ensures var t := LeastHopTrace(g, tables, u, d);
            && IsPathTo(g, u, p, d) && p.Nodes(u) == t && HopsFall(g, t, d)
            && NormalizePath(p).Cost() == HopCount(g, u, d)
            && d in tables(u).scores && p.Cost() == tables(u).scores[d]
            && |t| > 0 && t[0] == u && t[|t| - 1] == d
    decreases HopCount(g, u, d)
  {
    hide AllLeastHop, HopCount;
    if u == d {
      p := Start;
      var q := KnownLeastHop(g, tables, u, d);
      assert IsPathTo(g, u, Start, d);
    } else {
      LeastHopAdvances(g, tables, u, d);
      var e :| AdvancesLeastHop(g, tables, u, d, e);
      var q := LeastHopTracePath(g, tables, e.target, d);
      p := Via(Start, e).Then(q);
      ThenIsPath(g, u, Via(Start, e), q);
      NormalizedThen(e, q);
      NodesAfterFirst(u, e, q);
      HopsFallFrom(g, u, LeastHopTrace(g, tables, e.target, d), d);
    }
  }

  /** Forwarding by least-hop tables delivers without revisiting a node, even over links of cost zero, along a
      path that is itself least in hops and cheapest among those. */
  lemma {:induction false} LeastHopForwardingDelivers(g: Graph, tables: NodeId -> Table, u: NodeId, d: NodeId)
    requires AllLeastHop(g, tables) && Reachable(g, u, d)
    ensures var t := LeastHopTrace(g, tables, u, d);
            && t[0] == u && t[|t| - 1] == d
            && (forall i, j :: 0 <= i < j < |t| ==> t[i] != t[j])
            && exists p :: IsLeastHop(g, u, p, d) && p.Nodes(u) == t
  {
    hide AllLeastHop, HopCount, NormalizePath, LeastHopTrace;
    var t := LeastHopTrace(g, tables, u, d);
    var p := LeastHopTracePath(g, tables, u, d);
    var q := KnownLeastHop(g, tables, u, d);
    assert IsLeastHop(g, u, p, d);
    forall i, j | 0 <= i < j < |t| ensures t[i] != t[j] {
      assert HopCount(g, t[j], d) < HopCount(g, t[i], d);
    }
  }

  method LeastHopRoutes(g: Graph, start: NodeId)
    returns (lens: map<NodeId, nat>, scores: map<NodeId, nat>, firstHop: map<NodeId, Hop>)
    ensures IsLeastHopTable(g, start, Table(scores, firstHop))
    ensures Correct(Normalized(g), start, lens, firstHop)
  {
    hide Correct, IsLeastHop, Describes;
    var hops0;
    lens, hops0 := DijkstraWithFirstHop(Normalized(g), start);
    scores, firstHop := DijkstraWithFirstHop(Subgraph(g, lens), start);
    FirstPassDistances(g, start, lens, hops0);
    HopsFollowHopCount(g, start, lens, hops0, scores, firstHop);
    CorrectKeys(Normalized(g), start, lens, firstHop);
    forall n | n in scores
      ensures exists p :: IsLeastHop(g, start, p, n) && Describes(g, start, n, p, scores[n], firstHop[n])
    {
      var p := SecondPassIsLeastHop(g, start, lens, scores, firstHop, n);
    }
  }

  lemma {:induction false} CorrectKeys(g: Graph, s: NodeId, scores: map<NodeId, nat>, hops: map<NodeId, Hop>)
    requires Correct(g, s, scores, hops)
    ensures scores.Keys == hops.Keys
  {}
}
