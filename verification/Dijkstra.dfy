/** Shortest paths from one node with a lazily cleaned binary heap, recording for
    every reached node the first hop out of the start node and the hop count. */
module Dijkstra {
  import opened PeerGraph

  /** What the result says about a node: the first hop towards it and the number of hops. */
  datatype Hop = Hop(next: NodeId, count: nat)

  /** A heap element: the score it was pushed with and the scored node. */
  datatype MinScored = MinScored(score: nat, node: NodeId)

  datatype Ordering = Less | Equal | Greater

  /** `MinScored::cmp`: reversed on scores, so that a max-heap pops the least score. */
  function Cmp(a: MinScored, b: MinScored): Ordering {
    if a.score == b.score then Equal else if a.score < b.score then Greater else Less
  }

  /** What the heap may pop: an element no other one exceeds. Ties are open. */
  predicate IsTop(heap: multiset<MinScored>, m: MinScored) {
    m in heap && forall x :: x in heap ==> Cmp(x, m) != Greater
  }

  lemma {:induction false} TopExists(heap: multiset<MinScored>)
    requires heap != multiset{}
    ensures exists m :: IsTop(heap, m)
    decreases |heap|
  {
    var x :| x in heap;
    var rest := heap - multiset{x};
    if rest == multiset{} {
      assert heap == multiset{x};
      assert IsTop(heap, x);
    } else {
      TopExists(rest);
      var m :| IsTop(rest, m);
      assert forall y :: y in heap ==> y == x || y in rest;
      assert IsTop(heap, if Cmp(x, m) == Greater then x else m);
    }
  }

  /** `hop` and `score` describe the path `p` from `start` to `n`. */
  ghost predicate Describes(g: Graph, start: NodeId, n: NodeId, p: Path,
                            score: nat, hop: Hop) {
    && IsPathTo(g, start, p, n)
    && p.Cost() == score
    && hop == Hop(p.FirstHop(start), p.Length())
  }

  /** What the algorithm promises about its two result maps. */
  ghost predicate Correct(g: Graph, start: NodeId,
                          scores: map<NodeId, nat>, firstHop: map<NodeId, Hop>) {
    && (forall n :: n in scores <==> Reachable(g, start, n))
    && firstHop.Keys == scores.Keys
    && start in scores && firstHop[start] == Hop(start, 0)
    && (forall n :: n in scores ==>
          exists p :: IsShortest(g, start, p, n) && Describes(g, start, n, p, scores[n], firstHop[n]))
  }

  // ----- Loop invariants -----

  /** The variables of the loop, with the last settled score and the path each score stands for. */
  datatype Search = Search(visited: set<NodeId>, scores: map<NodeId, nat>, firstHop: map<NodeId, Hop>,
                           heap: multiset<MinScored>, last: nat, paths: map<NodeId, Path>)

  /** Each score is the cost of the recorded path, which the hop entry describes. */
  ghost predicate Recorded(g: Graph, start: NodeId, scores: map<NodeId, nat>,
                           firstHop: map<NodeId, Hop>, paths: map<NodeId, Path>) {
    && scores.Keys == firstHop.Keys == paths.Keys
    && start in scores && scores[start] == 0 && paths[start] == Start
    && forall n :: n in scores ==> Describes(g, start, n, paths[n], scores[n], firstHop[n])
  }

  /** Stale heap elements may linger but never undercut; live ones are present. */
  ghost predicate HeapCovers(closed: set<NodeId>, scores: map<NodeId, nat>, heap: multiset<MinScored>) {
    && (forall x :: x in heap ==> x.node in scores && scores[x.node] <= x.score)
    && (forall n :: n in scores && n !in closed ==> MinScored(scores[n], n) in heap)
  }

  /** Settled nodes are no further than `d`, all others no closer. */
  ghost predicate Settled(visited: set<NodeId>, scores: map<NodeId, nat>, d: nat) {
    && (forall v :: v in visited ==> v in scores && scores[v] <= d)
    && (forall n :: n in scores && n !in visited ==> d <= scores[n])
  }

  ghost predicate RelaxedEdge(scores: map<NodeId, nat>, from: nat, e: Edge) {
    e.target in scores && scores[e.target] <= from + e.cost
  }

  ghost predicate RelaxedNode(g: Graph, scores: map<NodeId, nat>, from: nat, v: NodeId) {
    forall e :: e in EdgesOf(g, v) ==> RelaxedEdge(scores, from, e)
  }

  ghost predicate Relaxed(g: Graph, visited: set<NodeId>, scores: map<NodeId, nat>) {
    forall v :: v in visited ==> v in scores && RelaxedNode(g, scores, scores[v], v)
  }

  ghost predicate OuterInv(g: Graph, start: NodeId, s: Search) {
    && Recorded(g, start, s.scores, s.firstHop, s.paths)
    && HeapCovers(s.visited, s.scores, s.heap)
    && Settled(s.visited, s.scores, s.last) && Relaxed(g, s.visited, s.scores)
  }

  /** While the edges of the popped `node`, a closest unsettled one, are scanned. */
  ghost predicate InnerInv(g: Graph, start: NodeId, s: Search, node: NodeId) {
    && Recorded(g, start, s.scores, s.firstHop, s.paths)
    && HeapCovers(s.visited + {node}, s.scores, s.heap)
    && Settled(s.visited, s.scores, s.last) && Relaxed(g, s.visited, s.scores)
    && node in s.scores && node in s.firstHop && node in s.paths
    && node !in s.visited && s.scores[node] == s.last
  }

  lemma {:induction false} InitialInv(g: Graph, start: NodeId)
    ensures OuterInv(g, start, Search({}, map[start := 0], map[start := Hop(start, 0)],
                                      multiset{MinScored(0, start)}, 0, map[start := Start]))
  {}

  /** A popped element of an unsettled node is not stale, and no unsettled node is closer. */
  lemma {:induction false} PopIsFresh(g: Graph, start: NodeId, s: Search, top: MinScored)
    requires OuterInv(g, start, s) && IsTop(s.heap, top) && top.node !in s.visited
    ensures InnerInv(g, start, s.(heap := s.heap - multiset{top}, last := top.score), top.node)
  {}

  lemma {:induction false} DropStale(g: Graph, start: NodeId, s: Search, top: MinScored)
    requires OuterInv(g, start, s) && top in s.heap && top.node in s.visited
    ensures OuterInv(g, start, s.(heap := s.heap - multiset{top}))
  {}

  function Improved(s: Search, start: NodeId, node: NodeId, e: Edge): Search
    requires node in s.scores && node in s.firstHop && node in s.paths
  {
    var hop := if node == start then Hop(e.target, 0) else s.firstHop[node];
    var score := s.scores[node] + e.cost;
    Search(s.visited, s.scores[e.target := score], s.firstHop[e.target := Hop(hop.next, hop.count + 1)],
           s.heap + multiset{MinScored(score, e.target)}, s.last, s.paths[e.target := Via(s.paths[node], e)])
  }

  /** The path to `node` followed by an edge out of `node` is described by the inherited hop. */
  lemma {:induction false} ExtendedPath(g: Graph, start: NodeId, node: NodeId, p: Path, score: nat, hop: Hop, e: Edge)
    requires Describes(g, start, node, p, score, hop) && (node == start <==> p == Start)
    requires e in EdgesOf(g, node)
    ensures Describes(g, start, e.target, Via(p, e), score + e.cost,
                      if node == start then Hop(e.target, 1) else Hop(hop.next, hop.count + 1))
  {}

  /** The scan of `node` found a cheaper way to the unsettled target of its edge `e`. */
  ghost predicate Improves(g: Graph, start: NodeId, s: Search, node: NodeId, e: Edge, t: Search) {
    && node in s.scores.Keys * s.firstHop.Keys * s.paths.Keys
    && e in EdgesOf(g, node) && e.target !in s.visited
    && (e.target in s.scores ==> s.scores[node] + e.cost < s.scores[e.target])
    && t == Improved(s, start, node, e)
  }

  lemma {:induction false} ImproveKeepsRecorded(g: Graph, start: NodeId, s: Search, node: NodeId, e: Edge, t: Search)
    requires Recorded(g, start, s.scores, s.firstHop, s.paths) && Improves(g, start, s, node, e, t)
    ensures Recorded(g, start, t.scores, t.firstHop, t.paths)
  {
    ExtendedPath(g, start, node, s.paths[node], s.scores[node], s.firstHop[node], e);
  }

  /** Lowering the score of an unsettled node leaves every relaxed edge relaxed. */
  lemma {:induction false} ImproveKeepsRelaxed(g: Graph, start: NodeId, s: Search, node: NodeId, e: Edge, t: Search)
    requires Relaxed(g, s.visited, s.scores) && Improves(g, start, s, node, e, t)
    ensures Relaxed(g, t.visited, t.scores)
    ensures forall from, d :: RelaxedEdge(s.scores, from, d) ==> RelaxedEdge(t.scores, from, d)
  {}

  lemma {:induction false} ImproveKeepsHeap(g: Graph, start: NodeId, s: Search, node: NodeId, e: Edge, t: Search)
    requires HeapCovers(s.visited + {node}, s.scores, s.heap) && Improves(g, start, s, node, e, t)
    ensures HeapCovers(t.visited + {node}, t.scores, t.heap)
  {}

  lemma {:induction false} ImproveKeepsInv(g: Graph, start: NodeId, s: Search, node: NodeId, e: Edge, t: Search)
    requires InnerInv(g, start, s, node) && Improves(g, start, s, node, e, t)
    ensures InnerInv(g, start, t, node)
    ensures forall from, d :: RelaxedEdge(s.scores, from, d) ==> RelaxedEdge(t.scores, from, d)
  {
    hide Recorded, HeapCovers, Relaxed;
    ImproveKeepsRecorded(g, start, s, node, e, t);
    ImproveKeepsRelaxed(g, start, s, node, e, t);
    ImproveKeepsHeap(g, start, s, node, e, t);
  }

  /** Once every scored node is settled and relaxed, no path undercuts a score. */
  lemma {:induction false} ScoresAreLeast(g: Graph, start: NodeId, scores: map<NodeId, nat>, p: Path)
    requires start in scores && scores[start] == 0
    requires Relaxed(g, scores.Keys, scores)
    requires p.In(g, start)
    ensures p.End(start) in scores && scores[p.End(start)] <= p.Cost()
  {
    if p.Via? {
      ScoresAreLeast(g, start, scores, p.init);
      assert RelaxedNode(g, scores, scores[p.init.End(start)], p.init.End(start));
    }
  }

  /** An empty heap means that every scored node is settled. */
  lemma {:induction false} AllSettled(g: Graph, start: NodeId, s: Search)
    requires OuterInv(g, start, s) && s.heap == multiset{}
    ensures Relaxed(g, s.scores.Keys, s.scores)
  {}

  lemma {:induction false} Finish(g: Graph, start: NodeId, s: Search)
    requires OuterInv(g, start, s) && s.heap == multiset{}
    ensures Correct(g, start, s.scores, s.firstHop)
  {
    var scores, firstHop, paths := s.scores, s.firstHop, s.paths;
    AllSettled(g, start, s);
    assert Describes(g, start, start, paths[start], scores[start], firstHop[start]);
    forall n | n in scores
      ensures IsShortest(g, start, paths[n], n)
      ensures Describes(g, start, n, paths[n], scores[n], firstHop[n])
      ensures Reachable(g, start, n)
    {
      forall q | IsPathTo(g, start, q, n) ensures paths[n].Cost() <= q.Cost() {
        ScoresAreLeast(g, start, scores, q);
      }
    }
    forall n | Reachable(g, start, n) ensures n in scores {
      var p :| IsPathTo(g, start, p, n);
      ScoresAreLeast(g, start, scores, p);
    }
  }

  /** The inner loop: relax every edge of the popped `node`. */
  method ScanEdges(g: Graph, start: NodeId, node: NodeId, nodeScore: nat, ghost before: Search,
                   visited: set<NodeId>, scores0: map<NodeId, nat>, firstHop0: map<NodeId, Hop>,
                   heap0: multiset<MinScored>)
    returns (scores: map<NodeId, nat>, firstHop: map<NodeId, Hop>, heap: multiset<MinScored>,
             ghost after: Search)
    requires before == Search(visited, scores0, firstHop0, heap0, nodeScore, before.paths)
    requires InnerInv(g, start, before, node)
    ensures after == Search(visited, scores, firstHop, heap, nodeScore, after.paths)
    ensures InnerInv(g, start, after, node)
    ensures RelaxedNode(g, scores, nodeScore, node)
    ensures node !in g ==> heap == heap0
  {
    hide Recorded, HeapCovers, Relaxed;
    scores, firstHop, heap, after := scores0, firstHop0, heap0, before;
    var edges := EdgesOf(g, node);
    for i := 0 to |edges|
      invariant after == Search(visited, scores, firstHop, heap, nodeScore, after.paths)
      invariant InnerInv(g, start, after, node)
      invariant forall j :: 0 <= j < i ==> RelaxedEdge(scores, nodeScore, edges[j])
      invariant edges == [] ==> heap == heap0
    {
      var e := edges[i];
      if e.target in visited {
        continue;
      }
      var nextScore := nodeScore + e.cost;
      if e.target !in scores || nextScore < scores[e.target] {
        var hop := if node == start then Hop(e.target, 0) else firstHop[node];
        scores := scores[e.target := nextScore];
        heap := heap + multiset{MinScored(nextScore, e.target)};
        firstHop := firstHop[e.target := Hop(hop.next, hop.count + 1)];
        ghost var improved := Improved(after, start, node, e);
        ImproveKeepsInv(g, start, after, node, e, improved);
        after := improved;
      }
    }
  }

  lemma {:induction false} SettleNode(g: Graph, start: NodeId, s: Search, node: NodeId)
    requires InnerInv(g, start, s, node)
    requires RelaxedNode(g, s.scores, s.last, node)
    ensures OuterInv(g, start, s.(visited := s.visited + {node}))
  {}

  method DijkstraWithFirstHop(g: Graph, start: NodeId)
    returns (scores: map<NodeId, nat>, firstHop: map<NodeId, Hop>)
    ensures Correct(g, start, scores, firstHop)
  {
    hide OuterInv, InnerInv, Correct, RelaxedNode, EdgesOf, Cmp;
    var visited: set<NodeId> := {};
    scores := map[start := 0];
    var heap := multiset{MinScored(0, start)};
    firstHop := map[start := Hop(start, 0)];
    ghost var s := Search(visited, scores, firstHop, heap, 0, map[start := Start]);
    ghost var todo := g.Keys;
    InitialInv(g, start);

    while heap != multiset{}
      invariant s == Search(visited, scores, firstHop, heap, s.last, s.paths)
      invariant OuterInv(g, start, s)
      invariant g.Keys <= visited + todo
      decreases todo, |heap|
    {
      TopExists(heap);
      var top :| IsTop(heap, top);
      var nodeScore, node := top.score, top.node;
      heap := heap - multiset{top};
      if node in visited {
        DropStale(g, start, s, top);
        s := s.(heap := heap);
        continue;
      }
      PopIsFresh(g, start, s, top);
      s := s.(heap := heap, last := nodeScore);
      scores, firstHop, heap, s := ScanEdges(g, start, node, nodeScore, s, visited, scores, firstHop, heap);
      SettleNode(g, start, s, node);
      visited, todo := visited + {node}, todo - {node};
      s := s.(visited := visited);
    }
    Finish(g, start, s);
  }
}
