/**
 Pushing one unit of flow along the predecessor path, and what that does to the
 flow balance of every node and to the node prices.
 */
module Augmentation {
  import opened Common
  import opened ResidualGraph
  import opened BellmanFord

  /** Flow leaving node `u` on edge `e`: forward edges start full, backward edges empty. */
  function Outflow(u: nat, e: ResidualEdge): int {
    (if e.to > u then 1 else 0) - e.capacity
  }

  function Outflows(u: nat, edges: seq<ResidualEdge>): (s: seq<int>)
    ensures |s| == |edges| && forall i :: 0 <= i < |s| ==> s[i] == Outflow(u, edges[i])
  {
    seq(|edges|, i requires 0 <= i < |edges| => Outflow(u, edges[i]))
  }

  /** Net flow out of node `u`. */
  function Net(g: Graph, u: nat): int
    requires u < |g|
  {
    Sum(Outflows(u, g[u]))
  }

  /** Moves one unit of capacity from edge `(u, i)` to its reverse. */
  function Push(g: Graph, u: nat, i: nat): Graph
    requires ValidEdge(g, u, i) && g[u][i].to < |g| && g[u][i].reverse < |g[g[u][i].to]|
    requires g[u][i].to != u && g[u][i].capacity > 0
  {
    var (v, j) := (g[u][i].to, g[u][i].reverse);
    g[u := g[u][i := g[u][i].(capacity := g[u][i].capacity - 1)]]
     [v := g[v][j := g[v][j].(capacity := g[v][j].capacity + 1)]]
  }

  lemma PushKeepsShape(g: Graph, u: nat, i: nat)
    requires Mirrored(g) && Residual(g, u, i)
    ensures Mirrored(Push(g, u, i)) && SameShape(g, Push(g, u, i))
  {
    var h := Push(g, u, i);
    var (v, j) := (g[u][i].to, g[u][i].reverse);
    assert ValidEdge(g, v, j);
    forall x: nat, k: nat | ValidEdge(h, x, k)
      ensures ValidEdge(g, x, k)
      ensures h[x][k] == g[x][k].(capacity :=
        if x == u && k == i then 0 else if x == v && k == j then 1 else g[x][k].capacity)
    {
    }
  }

  lemma PushMovesFlow(g: Graph, u: nat, i: nat, x: nat)
    requires Mirrored(g) && Residual(g, u, i) && x < |g|
    ensures Net(Push(g, u, i), x) == Net(g, x) + (if x == u then 1 else 0) - (if x == g[u][i].to then 1 else 0)
  {
    var h := Push(g, u, i);
    var (v, j) := (g[u][i].to, g[u][i].reverse);
    assert ValidEdge(g, v, j);
    if x == u {
      assert Outflows(u, h[u]) == Outflows(u, g[u])[i := Outflow(u, h[u][i])];
      SumUpdate(Outflows(u, g[u]), i, Outflow(u, h[u][i]));
    } else if x == v {
      assert Outflows(v, h[v]) == Outflows(v, g[v])[j := Outflow(v, h[v][j])];
      SumUpdate(Outflows(v, g[v]), j, Outflow(v, h[v][j]));
    }
  }

  /** A residual edge on which prices `d` are exact. */
  ghost predicate Tight(g: Graph, d: Distances, u: nat, i: nat)
    requires |d| == |g| && ValidEdge(g, u, i) && g[u][i].to < |g|
  {
    && d[u].Some? && d[g[u][i].to].Some?
    && d[g[u][i].to].value == d[u].value + g[u][i].cost
  }

  ghost predicate NewEdgesTight(g0: Graph, g: Graph, d: Distances) {
    && |d| == |g| == |g0|
    && forall u: nat, i: nat {:trigger Residual(g, u, i)} ::
      Residual(g, u, i) ==> Residual(g0, u, i) || Tight(g, d, u, i)
  }

  lemma PushKeepsTight(g0: Graph, g: Graph, d: Distances, u: nat, i: nat)
    requires SameShape(g0, g) && Mirrored(g) && NewEdgesTight(g0, g, d)
    requires Residual(g, u, i) && Tight(g, d, u, i)
    ensures NewEdgesTight(g0, Push(g, u, i), d)
  {
    var h := Push(g, u, i);
    PushKeepsShape(g, u, i);
    var (v, j) := (g[u][i].to, g[u][i].reverse);
    assert ValidEdge(g, v, j);
    forall x: nat, k: nat | Residual(h, x, k)
      ensures Residual(g0, x, k) || Tight(h, d, x, k)
    {
      assert ValidEdge(g, x, k) && h[x][k] == g[x][k].(capacity := h[x][k].capacity);
      if !(x == v && k == j) {
        assert Residual(g, x, k);
      }
    }
  }

  lemma ParentIsTight(g: Graph, price: seq<int>, d: Distances, prev: Predecessors, rank: seq<nat>, v: nat)
    requires Tree(g, price, d, prev, rank) && Converged(g, d)
    requires 0 < v < |g| && d[v].Some?
    ensures prev[v].Some? && Parent(g, d, rank, v, prev[v].value)
    ensures var (u, i) := prev[v].value; Residual(g, u, i) && g[u][i].to == v && Tight(g, d, u, i) && rank[u] < rank[v]
  {
    assert Parent(g, d, rank, v, prev[v].value);
    var (u, i) := prev[v].value;
    assert Relaxed(g, d, u, i);
  }

  /** How far an augmentation that has walked from the sink back to `node` has got. */
  ghost predicate Augmenting(g0: Graph, g: Graph, d: Distances, rank: seq<nat>, sink: nat, node: nat) {
    && |g0| == |g| == |d| == |rank| && sink < |g| && node < |g| && d[node].Some?
    && SameShape(g0, g) && Mirrored(g) && NewEdgesTight(g0, g, d)
    && (forall x :: 0 <= x < |g| && rank[x] < rank[node] ==> g[x] == g0[x])
    && (forall x {:trigger Net(g, x)} :: 0 <= x < |g| ==>
        Net(g, x) == Net(g0, x) + (if x == node then 1 else 0) - (if x == sink then 1 else 0))
  }

  lemma AugmentStep(
    g0: Graph, g: Graph, price: seq<int>, d: Distances, prev: Predecessors, rank: seq<nat>, sink: nat, node: nat)
    requires Tree(g0, price, d, prev, rank) && Converged(g0, d)
    requires Augmenting(g0, g, d, rank, sink, node) && node != 0
    ensures prev[node].Some?
    ensures
      var (u, i) := prev[node].value;
      && Residual(g, u, i) && g[u][i].to == node && u != node && rank[u] < rank[node]
      && ValidEdge(g, node, g[u][i].reverse)
      && Augmenting(g0, Push(g, u, i), d, rank, sink, u)
  {
    ParentIsTight(g0, price, d, prev, rank, node);
    var (u, i) := prev[node].value;
    assert g[u] == g0[u];
    assert ValidEdge(g, u, i);
    PushKeepsShape(g, u, i);
    PushKeepsTight(g0, g, d, u, i);
    var h := Push(g, u, i);
    forall x | 0 <= x < |h|
      ensures Net(h, x) == Net(g0, x) + (if x == u then 1 else 0) - (if x == sink then 1 else 0)
    {
      PushMovesFlow(g, u, i, x);
    }
  }

  method Augment(graph: array<seq<ResidualEdge>>, previous: array<Option<(nat, nat)>>, sink: nat,
                 ghost price: seq<int>, ghost d: Distances, ghost rank: seq<nat>)
    requires sink < graph.Length && Mirrored(graph[..])
    requires Tree(graph[..], price, d, previous[..], rank) && Converged(graph[..], d) && d[sink].Some?
    modifies graph
    ensures SameShape(old(graph[..]), graph[..]) && Mirrored(graph[..])
    ensures NewEdgesTight(old(graph[..]), graph[..], d)
    ensures forall x {:trigger Net(graph[..], x)} :: 0 <= x < graph.Length ==>
      Net(graph[..], x) == Net(old(graph[..]), x) + (if x == 0 then 1 else 0) - (if x == sink then 1 else 0)
  {
    ghost var g0, g := graph[..], graph[..];
    var node: nat := sink;
    while node != 0
      invariant node < |g| && graph[..] == g
      invariant Augmenting(g0, g, d, rank, sink, node)
      decreases rank[node]
    {
      AugmentStep(g0, g, price, d, previous[..], rank, sink, node);
      var (from, index) := previous[node].value;
      PushOne(graph, from, index, node);
      g := Push(g, from, index);
      node := from;
    }
  }

  method PushOne(graph: array<seq<ResidualEdge>>, from: nat, index: nat, node: nat)
    requires Residual(graph[..], from, index) && graph[from][index].to == node && node != from
    requires ValidEdge(graph[..], node, graph[from][index].reverse)
    modifies graph
    ensures graph[..] == Push(old(graph[..]), from, index)
  {
    var reverseIndex := graph[from][index].reverse;
    graph[from] := graph[from][index := graph[from][index].(capacity := graph[from][index].capacity - 1)];
    graph[node] := graph[node][reverseIndex := graph[node][reverseIndex].(
      capacity := graph[node][reverseIndex].capacity + 1)];
  }

  // ----- prices after an augmentation -----

  /** Exact distances where the source reaches, old prices lifted clear of them elsewhere. */
  function NextPrices(d: Distances, price: seq<int>, lift: int): (p: seq<int>)
    requires |d| == |price|
    ensures |p| == |d|
    ensures forall v :: 0 <= v < |p| ==> p[v] == if d[v].Some? then d[v].value else price[v] + lift
  {
    seq(|d|, v requires 0 <= v < |d| => if d[v].Some? then d[v].value else price[v] + lift)
  }

  ghost predicate LiftsClear(d: Distances, price: seq<int>, lift: int)
    requires |d| == |price|
  {
    forall v :: 0 <= v < |d| && d[v].Some? ==> d[v].value - price[v] <= lift
  }

  lemma {:induction false} SomeLift(d: Distances, price: seq<int>) returns (lift: int)
    requires |d| == |price|
    ensures LiftsClear(d, price, lift)
  {
    if d == [] {
      return 0;
    }
    var last := |d| - 1;
    lift := SomeLift(d[..last], price[..last]);
    forall v | 0 <= v < last && d[v].Some?
      ensures d[v].value - price[v] <= lift
    {
      assert d[..last][v] == d[v] && price[..last][v] == price[v];
    }
    if d[last].Some? && d[last].value - price[last] > lift {
      lift := d[last].value - price[last];
    }
  }

  lemma NextPricesFeasible(g0: Graph, g: Graph, d: Distances, price: seq<int>, lift: int)
    requires Feasible(g0, price) && Converged(g0, d) && LiftsClear(d, price, lift)
    requires SameShape(g0, g) && NewEdgesTight(g0, g, d)
    ensures Feasible(g, NextPrices(d, price, lift))
  {
    var p := NextPrices(d, price, lift);
    forall u: nat, i: nat | Residual(g, u, i)
      ensures p[g[u][i].to] <= p[u] + g[u][i].cost
    {
      assert ValidEdge(g0, u, i) && g[u][i] == g0[u][i].(capacity := g[u][i].capacity);
      if Residual(g0, u, i) {
        assert Relaxed(g0, d, u, i);
        assert price[g[u][i].to] <= price[u] + g[u][i].cost;
      } else {
        assert Tight(g, d, u, i);
      }
    }
  }
}
