/**
 The bipartite flow network that `sparse_min_cost_matching` builds from its candidates.

 Nodes are laid out as source, left observations, right observations, sink, so
 an edge is a forward edge exactly when it leads to a higher-numbered node.
 Capacities start at 1 forward and 0 backward; `Net` is the flow out of a node.
 */
module FlowNetwork {
  import opened Common
  import opened Matching
  import opened ResidualGraph

  // ----- building the graph -----

  ghost predicate LeftEdge(e: ResidualEdge, l: nat, i: nat, lefts: nat, pool: seq<Candidate>, slot: seq<nat>) {
    match e.candidate
    case None => e.to == 0 && e.cost == 0
    case Some(k) =>
      && k < |slot| <= |pool| && slot[k] == i
      && pool[k].left == l && e.to == 1 + lefts + pool[k].right && e.cost == pool[k].cost
  }

  ghost predicate EdgeInPlace(g: Graph, lefts: nat, rights: nat, pool: seq<Candidate>, slot: seq<nat>, u: nat, i: nat)
    requires ValidEdge(g, u, i)
  {
    var e := g[u][i];
    if u == 0 then e.to == 1 + i && e.candidate.None? && e.cost == 0
    else if u <= lefts then LeftEdge(e, u - 1, i, lefts, pool, slot)
    else if u <= lefts + rights then
      e.candidate.None? && ((e.to == lefts + rights + 1 && e.cost == 0) || 1 <= e.to <= lefts)
    else e.to == 1 + lefts + i && e.candidate.None? && e.cost == 0
  }

  ghost predicate EdgesInPlace(g: Graph, lefts: nat, rights: nat, pool: seq<Candidate>, slot: seq<nat>) {
    forall u: nat, i: nat {:trigger ValidEdge(g, u, i)} :: ValidEdge(g, u, i) ==>
      EdgeInPlace(g, lefts, rights, pool, slot, u, i)
  }

  ghost predicate SlotHolds(g: Graph, u: nat, i: nat, k: nat) {
    ValidEdge(g, u, i) && g[u][i].candidate == Some(k)
  }

  ghost predicate SlotsFilled(g: Graph, lefts: nat, rights: nat, pool: seq<Candidate>, slot: seq<nat>) {
    && |slot| <= |pool|
    && forall k: nat {:trigger slot[k]} :: k < |slot| ==>
      pool[k].left < lefts && pool[k].right < rights && SlotHolds(g, 1 + pool[k].left, slot[k], k)
  }

  /** The graph holding the first source edges, candidate edges and sink edges; `slot[k]` locates candidate `k`. */
  ghost predicate Network(
    g: Graph, lefts: nat, rights: nat, pool: seq<Candidate>, slot: seq<nat>, sources: nat, sinks: nat)
  {
    && |g| == lefts + rights + 2
    && |g[0]| == sources <= lefts && |g[lefts + rights + 1]| == sinks <= rights
    && Mirrored(g)
    && SlotsFilled(g, lefts, rights, pool, slot)
    && EdgesInPlace(g, lefts, rights, pool, slot)
  }

  ghost predicate Idle(g: Graph) {
    forall u: nat, i: nat {:trigger ValidEdge(g, u, i)} :: ValidEdge(g, u, i) ==>
      g[u][i].capacity == if g[u][i].to > u then 1 else 0
  }

  function AddPair(g: Graph, from: nat, to: nat, capacity: nat, cost: int, candidate: Option<nat>): Graph
    requires from < |g| && to < |g| && from != to
  {
    var forward := ResidualEdge(to, |g[to]|, capacity, cost, candidate);
    var backward := ResidualEdge(from, |g[from]|, 0, -cost, None);
    g[from := g[from] + [forward]][to := g[to] + [backward]]
  }

  method AddResidualEdge(
    graph: array<seq<ResidualEdge>>, from: nat, to: nat, capacity: nat, cost: int, candidate: Option<nat>)
    requires from < graph.Length && to < graph.Length && from != to
    modifies graph
    ensures graph[..] == AddPair(old(graph[..]), from, to, capacity, cost, candidate)
  {
    var forwardReverse := |graph[to]|;
    var reverseReverse := |graph[from]|;
    graph[from] := graph[from] + [ResidualEdge(to, forwardReverse, capacity, cost, candidate)];
    graph[to] := graph[to] + [ResidualEdge(from, reverseReverse, 0, -cost, None)];
  }

  /** The edges of the extended graph: the old ones and the new pair. */
  lemma AddPairEdges(g: Graph, from: nat, to: nat, cost: int, candidate: Option<nat>, u: nat, i: nat)
    requires from < to < |g| && ValidEdge(AddPair(g, from, to, 1, cost, candidate), u, i)
    ensures AddPair(g, from, to, 1, cost, candidate)[u][i] ==
      if u == from && i == |g[from]| then ResidualEdge(to, |g[to]|, 1, cost, candidate)
      else if u == to && i == |g[to]| then ResidualEdge(from, |g[from]|, 0, -cost, None)
      else g[u][i]
    ensures (u == from && i == |g[from]|) || (u == to && i == |g[to]|) || ValidEdge(g, u, i)
  {
  }

  lemma AddPairKeepsMirror(g: Graph, from: nat, to: nat, cost: int, candidate: Option<nat>)
    requires from < to < |g| && Mirrored(g) && Idle(g)
    ensures Mirrored(AddPair(g, from, to, 1, cost, candidate))
    ensures Idle(AddPair(g, from, to, 1, cost, candidate))
  {
    var h := AddPair(g, from, to, 1, cost, candidate);
    forall u: nat, i: nat | ValidEdge(h, u, i)
      ensures h[u][i] == if u == from && i == |g[from]| then ResidualEdge(to, |g[to]|, 1, cost, candidate)
                         else if u == to && i == |g[to]| then ResidualEdge(from, |g[from]|, 0, -cost, None)
                         else g[u][i]
      ensures (u == from && i == |g[from]|) || (u == to && i == |g[to]|) || ValidEdge(g, u, i)
    {
      AddPairEdges(g, from, to, cost, candidate, u, i);
    }
  }

  lemma AddPairKeepsSlots(
    g: Graph, lefts: nat, rights: nat, pool: seq<Candidate>, slot: seq<nat>, from: nat, to: nat, cost: int,
    candidate: Option<nat>)
    requires from < to < |g| && SlotsFilled(g, lefts, rights, pool, slot)
    ensures SlotsFilled(AddPair(g, from, to, 1, cost, candidate), lefts, rights, pool, slot)
  {
    var h := AddPair(g, from, to, 1, cost, candidate);
    forall k: nat | k < |slot|
      ensures SlotHolds(h, 1 + pool[k].left, slot[k], k)
    {
      assert SlotHolds(g, 1 + pool[k].left, slot[k], k);
    }
  }

  /** A pair that fits the layout keeps every edge in place. */
  lemma AddPairKeepsPlaces(
    g: Graph, lefts: nat, rights: nat, pool: seq<Candidate>, slot: seq<nat>, slot': seq<nat>,
    from: nat, to: nat, cost: int, candidate: Option<nat>)
    requires |g| == lefts + rights + 2 && from < to < |g| && slot <= slot' && |slot'| <= |pool|
    requires EdgesInPlace(g, lefts, rights, pool, slot)
    requires
      var h := AddPair(g, from, to, 1, cost, candidate);
      && EdgeInPlace(h, lefts, rights, pool, slot', from, |g[from]|)
      && EdgeInPlace(h, lefts, rights, pool, slot', to, |g[to]|)
    ensures EdgesInPlace(AddPair(g, from, to, 1, cost, candidate), lefts, rights, pool, slot')
  {
    var h := AddPair(g, from, to, 1, cost, candidate);
    forall u: nat, i: nat | ValidEdge(h, u, i)
      ensures EdgeInPlace(h, lefts, rights, pool, slot', u, i)
    {
      AddPairEdges(g, from, to, cost, candidate, u, i);
      if ValidEdge(g, u, i) {
        assert EdgeInPlace(g, lefts, rights, pool, slot, u, i);
      }
    }
  }

  lemma AddSourceEdge(g: Graph, lefts: nat, rights: nat, pool: seq<Candidate>, l: nat)
    requires l < lefts
    requires Network(g, lefts, rights, pool, [], l, 0) && Idle(g)
    ensures Network(AddPair(g, 0, 1 + l, 1, 0, None), lefts, rights, pool, [], l + 1, 0)
    ensures Idle(AddPair(g, 0, 1 + l, 1, 0, None))
  {
    AddPairKeepsMirror(g, 0, 1 + l, 0, None);
    AddPairKeepsPlaces(g, lefts, rights, pool, [], [], 0, 1 + l, 0, None);
  }

  lemma AddCandidateEdge(g: Graph, lefts: nat, rights: nat, pool: seq<Candidate>, slot: seq<nat>)
    requires |slot| < |pool| && pool[|slot|].left < lefts && pool[|slot|].right < rights
    requires Network(g, lefts, rights, pool, slot, lefts, 0) && Idle(g)
    ensures
      var k := |slot|;
      var h := AddPair(g, 1 + pool[k].left, 1 + lefts + pool[k].right, 1, pool[k].cost, Some(k));
      Network(h, lefts, rights, pool, slot + [|g[1 + pool[k].left]|], lefts, 0) && Idle(h)
  {
    var k := |slot|;
    var from, to := 1 + pool[k].left, 1 + lefts + pool[k].right;
    var slot' := slot + [|g[from]|];
    AddPairKeepsMirror(g, from, to, pool[k].cost, Some(k));
    AddPairKeepsSlots(g, lefts, rights, pool, slot, from, to, pool[k].cost, Some(k));
    AddPairKeepsPlaces(g, lefts, rights, pool, slot, slot', from, to, pool[k].cost, Some(k));
    var h := AddPair(g, from, to, 1, pool[k].cost, Some(k));
    forall j: nat | j < |slot'|
      ensures pool[j].left < lefts && pool[j].right < rights && SlotHolds(h, 1 + pool[j].left, slot'[j], j)
    {
      assert j < k ==> slot'[j] == slot[j];
    }
  }

  lemma AddSinkEdge(g: Graph, lefts: nat, rights: nat, pool: seq<Candidate>, slot: seq<nat>, r: nat)
    requires r < rights
    requires Network(g, lefts, rights, pool, slot, lefts, r) && Idle(g)
    ensures
      var h := AddPair(g, 1 + lefts + r, lefts + rights + 1, 1, 0, None);
      Network(h, lefts, rights, pool, slot, lefts, r + 1) && Idle(h)
  {
    var from, to := 1 + lefts + r, lefts + rights + 1;
    AddPairKeepsMirror(g, from, to, 0, None);
    AddPairKeepsSlots(g, lefts, rights, pool, slot, from, to, 0, None);
    AddPairKeepsPlaces(g, lefts, rights, pool, slot, slot, from, to, 0, None);
  }

  method AddSources(graph: array<seq<ResidualEdge>>, lefts: nat, rights: nat, ghost pool: seq<Candidate>)
    requires Network(graph[..], lefts, rights, pool, [], 0, 0) && Idle(graph[..])
    modifies graph
    ensures Network(graph[..], lefts, rights, pool, [], lefts, 0) && Idle(graph[..])
  {
    ghost var g := graph[..];
    for left := 0 to lefts
      invariant graph[..] == g
      invariant Network(g, lefts, rights, pool, [], left, 0) && Idle(g)
    {
      AddSourceEdge(g, lefts, rights, pool, left);
      AddResidualEdge(graph, 0, 1 + left, 1, 0, None);
      g := AddPair(g, 0, 1 + left, 1, 0, None);
    }
  }

  method AddCandidates(graph: array<seq<ResidualEdge>>, lefts: nat, rights: nat, pool: seq<Candidate>)
    returns (ghost slot: seq<nat>)
    requires forall k :: 0 <= k < |pool| ==> pool[k].left < lefts && pool[k].right < rights
    requires Network(graph[..], lefts, rights, pool, [], lefts, 0) && Idle(graph[..])
    modifies graph
    ensures |slot| == |pool| && Network(graph[..], lefts, rights, pool, slot, lefts, 0) && Idle(graph[..])
  {
    slot := [];
    ghost var g := graph[..];
    for k := 0 to |pool|
      invariant graph[..] == g && |slot| == k
      invariant Network(g, lefts, rights, pool, slot, lefts, 0) && Idle(g)
    {
      AddCandidateEdge(g, lefts, rights, pool, slot);
      slot := slot + [|g[1 + pool[k].left]|];
      AddResidualEdge(graph, 1 + pool[k].left, 1 + lefts + pool[k].right, 1, pool[k].cost, Some(k));
      g := AddPair(g, 1 + pool[k].left, 1 + lefts + pool[k].right, 1, pool[k].cost, Some(k));
    }
  }

  method AddSinks(
    graph: array<seq<ResidualEdge>>, lefts: nat, rights: nat, ghost pool: seq<Candidate>, ghost slot: seq<nat>)
    requires Network(graph[..], lefts, rights, pool, slot, lefts, 0) && Idle(graph[..])
    modifies graph
    ensures Network(graph[..], lefts, rights, pool, slot, lefts, rights) && Idle(graph[..])
  {
    ghost var g := graph[..];
    for right := 0 to rights
      invariant graph[..] == g
      invariant Network(g, lefts, rights, pool, slot, lefts, right) && Idle(g)
    {
      AddSinkEdge(g, lefts, rights, pool, slot, right);
      AddResidualEdge(graph, 1 + lefts + right, lefts + rights + 1, 1, 0, None);
      g := AddPair(g, 1 + lefts + right, lefts + rights + 1, 1, 0, None);
    }
  }

  method BuildGraph(
    lefts: nat, rights: nat, pool: seq<Candidate>) returns (graph: array<seq<ResidualEdge>>, ghost slot: seq<nat>)
    requires forall k :: 0 <= k < |pool| ==> pool[k].left < lefts && pool[k].right < rights
    ensures fresh(graph) && |slot| == |pool|
    ensures Network(graph[..], lefts, rights, pool, slot, lefts, rights) && Idle(graph[..])
  {
    graph := new seq<ResidualEdge>[lefts + rights + 2](_ => []);
    AddSources(graph, lefts, rights, pool);
    slot := AddCandidates(graph, lefts, rights, pool);
    AddSinks(graph, lefts, rights, pool, slot);
  }
}
