/**
 Single-source shortest paths over the residual graph, relaxing edges in place.

 Costs may be negative; node prices witness that no cycle is. The predecessor
 pointers stay acyclic throughout: along a pointer the distance minus the price
 never grows, and ties are broken by a ghost rank.
 */
module BellmanFord {
  import opened Common
  import opened ResidualGraph

  type Distances = seq<Option<int>>
  type Predecessors = seq<Option<(nat, nat)>>

  ghost predicate AtMost(d: Distances, v: nat, bound: int) {
    v < |d| && d[v].Some? && d[v].value <= bound
  }

  ghost predicate Relaxed(g: Graph, d: Distances, u: nat, i: nat)
    requires |d| == |g| && Residual(g, u, i)
  {
    d[u].Some? ==> AtMost(d, g[u][i].to, d[u].value + g[u][i].cost)
  }

  ghost predicate Converged(g: Graph, d: Distances) {
    |d| == |g| && forall u: nat, i: nat :: Residual(g, u, i) ==> Relaxed(g, d, u, i)
  }

  ghost predicate Parent(g: Graph, d: Distances, rank: seq<nat>, v: nat, step: (nat, nat))
    requires |d| == |rank| == |g| && v < |g| && d[v].Some?
  {
    var (u, i) := step;
    && Residual(g, u, i) && g[u][i].to == v
    && d[u].Some? && d[v].value >= d[u].value + g[u][i].cost
    && rank[u] < rank[v]
  }

  /** Distances respect the prices, and predecessors form a tree rooted at the source. */
  ghost predicate Tree(g: Graph, price: seq<int>, d: Distances, prev: Predecessors, rank: seq<nat>) {
    && |d| == |prev| == |rank| == |g| == |price| > 0
    && d[0] == Some(0) && prev[0] == None
    && (forall v :: 0 <= v < |g| && d[v].Some? ==> d[v].value >= price[v] - price[0])
    && (forall v :: 0 < v < |g| ==> (d[v].Some? <==> prev[v].Some?))
    && (forall v {:trigger Parent(g, d, rank, v, prev[v].value)} :: 0 < v < |g| && prev[v].Some? ==>
        Parent(g, d, rank, v, prev[v].value))
  }

  ghost predicate Attained(g: Graph, d: Distances, walks: seq<Walk>) {
    && |walks| == |d|
    && forall v :: 0 <= v < |d| && d[v].Some? ==>
      IsWalk(g, walks[v]) && End(g, walks[v]) == v && Cost(g, walks[v]) == d[v].value
  }

  ghost predicate WalksBounded(g: Graph, d: Distances, k: nat) {
    forall w {:trigger IsWalk(g, w)} :: IsWalk(g, w) && |w| <= k ==> AtMost(d, End(g, w), Cost(g, w))
  }

  /** The walk bound extended by one step, for the edges already scanned. */
  ghost predicate StepsBounded(g: Graph, d: Distances, k: nat, from: nat, idx: nat) {
    forall w, i: nat {:trigger Residual(g, End(g, w), i)} ::
      IsWalk(g, w) && |w| <= k && Residual(g, End(g, w), i) && (End(g, w) < from || (End(g, w) == from && i < idx))
      ==> AtMost(d, g[End(g, w)][i].to, Cost(g, w) + g[End(g, w)][i].cost)
  }

  ghost predicate Shortest(g: Graph, d: Distances) {
    && (forall w :: IsWalk(g, w) ==> AtMost(d, End(g, w), Cost(g, w)))
    && (forall v: nat :: v < |d| && d[v].Some? ==>
        exists w :: IsWalk(g, w) && End(g, w) == v && Cost(g, w) == d[v].value)
  }

  /** One successful relaxation keeps the tree, with the ranks of everything beyond `u` lifted past it. */
  lemma Improve(g: Graph, price: seq<int>, d: Distances, prev: Predecessors, rank: seq<nat>, u: nat, i: nat)
    returns (lifted: seq<nat>)
    requires Feasible(g, price) && Tree(g, price, d, prev, rank)
    requires Residual(g, u, i) && d[u].Some?
    requires !AtMost(d, g[u][i].to, d[u].value + g[u][i].cost)
    ensures Tree(g, price, d[g[u][i].to := Some(d[u].value + g[u][i].cost)], prev[g[u][i].to := Some((u, i))], lifted)
  {
    var v, better := g[u][i].to, d[u].value + g[u][i].cost;
    assert price[v] <= price[u] + g[u][i].cost;
    lifted := seq(|g|, x requires 0 <= x < |g| =>
      if x == v || (d[x].Some? && d[x].value - price[x] > d[u].value - price[u])
      then rank[x] + rank[u] + 1 else rank[x]);
    var d', prev' := d[v := Some(better)], prev[v := Some((u, i))];
    forall x | 0 < x < |g| && prev'[x].Some?
      ensures Parent(g, d', lifted, x, prev'[x].value)
    {
      if x != v {
        assert Parent(g, d, rank, x, prev[x].value);
        var (p, j) := prev[x].value;
        assert price[x] <= price[p] + g[p][j].cost;
      }
    }
  }

  /** What holds throughout round `k + 1`. */
  ghost predicate RoundInvariant(
    g: Graph, price: seq<int>, d: Distances, prev: Predecessors, rank: seq<nat>, walks: seq<Walk>, k: nat)
  {
    && Tree(g, price, d, prev, rank)
    && Attained(g, d, walks)
    && WalksBounded(g, d, k)
  }

  /** No edge scanned so far can improve a distance. */
  ghost predicate ScannedRelaxed(g: Graph, d: Distances, from: nat, idx: nat)
    requires |d| == |g|
  {
    forall u: nat, i: nat :: Residual(g, u, i) && (u < from || (u == from && i < idx)) ==> Relaxed(g, d, u, i)
  }

  lemma RelaxStep(
    g: Graph, price: seq<int>, d: Distances, prev: Predecessors, rank: seq<nat>, walks: seq<Walk>,
    k: nat, u: nat, i: nat)
    returns (lifted: seq<nat>, walks': seq<Walk>)
    requires Feasible(g, price) && RoundInvariant(g, price, d, prev, rank, walks, k)
    requires Residual(g, u, i) && d[u].Some? && StepsBounded(g, d, k, u, i)
    requires !AtMost(d, g[u][i].to, d[u].value + g[u][i].cost)
    ensures
      var v, better := g[u][i].to, d[u].value + g[u][i].cost;
      var d' := d[v := Some(better)];
      && v != u
      && RoundInvariant(g, price, d', prev[v := Some((u, i))], lifted, walks', k)
      && StepsBounded(g, d', k, u, i + 1)
  {
    var v, better := g[u][i].to, d[u].value + g[u][i].cost;
    assert price[v] <= price[u] + g[u][i].cost;
    var d' := d[v := Some(better)];
    lifted := Improve(g, price, d, prev, rank, u, i);
    walks' := walks[v := walks[u] + [(u, i)]];
    ImprovedWalks(g, d, walks, u, i);
    ImprovedSteps(g, d, k, u, i);
  }

  /** An improved distance is attained by one more edge. */
  lemma ImprovedWalks(g: Graph, d: Distances, walks: seq<Walk>, u: nat, i: nat)
    requires |d| == |g| && Attained(g, d, walks) && Residual(g, u, i) && d[u].Some? && g[u][i].to < |g|
    ensures Attained(
      g, d[g[u][i].to := Some(d[u].value + g[u][i].cost)], walks[g[u][i].to := walks[u] + [(u, i)]])
  {
    var longer := walks[u] + [(u, i)];
    assert longer[..|longer| - 1] == walks[u];
  }

  /** An improved distance bounds one more edge and no bound is lost. */
  lemma ImprovedSteps(g: Graph, d: Distances, k: nat, u: nat, i: nat)
    requires |d| == |g| && WalksBounded(g, d, k) && StepsBounded(g, d, k, u, i)
    requires ValidEdge(g, u, i) && g[u][i].to < |g| && d[u].Some?
    requires !AtMost(d, g[u][i].to, d[u].value + g[u][i].cost)
    ensures WalksBounded(g, d[g[u][i].to := Some(d[u].value + g[u][i].cost)], k)
    ensures StepsBounded(g, d[g[u][i].to := Some(d[u].value + g[u][i].cost)], k, u, i + 1)
  {
    var d' := d[g[u][i].to := Some(d[u].value + g[u][i].cost)];
    forall w | IsWalk(g, w) && |w| <= k
      ensures AtMost(d', End(g, w), Cost(g, w))
    {
      assert AtMost(d, End(g, w), Cost(g, w));
    }
    forall w, j: nat | IsWalk(g, w) && |w| <= k && Residual(g, End(g, w), j)
      && (End(g, w) < u || (End(g, w) == u && j < i + 1))
      ensures AtMost(d', g[End(g, w)][j].to, Cost(g, w) + g[End(g, w)][j].cost)
    {
      assert AtMost(d, End(g, w), Cost(g, w));
      if End(g, w) == u && j == i {
      } else {
        assert AtMost(d, g[End(g, w)][j].to, Cost(g, w) + g[End(g, w)][j].cost);
      }
    }
  }

  lemma KeepStep(g: Graph, d: Distances, k: nat, u: nat, i: nat)
    requires |d| == |g| && WalksBounded(g, d, k) && StepsBounded(g, d, k, u, i)
    requires Residual(g, u, i) && d[u].Some? ==> Relaxed(g, d, u, i)
    ensures StepsBounded(g, d, k, u, i + 1)
  {
    forall w, j: nat | IsWalk(g, w) && |w| <= k && Residual(g, End(g, w), j)
      && (End(g, w) < u || (End(g, w) == u && j < i + 1))
      ensures AtMost(d, g[End(g, w)][j].to, Cost(g, w) + g[End(g, w)][j].cost)
    {
      assert AtMost(d, End(g, w), Cost(g, w));
    }
  }

  lemma NextNode(g: Graph, d: Distances, k: nat, u: nat, i: nat)
    requires |d| == |g| && u < |g| && WalksBounded(g, d, k) && StepsBounded(g, d, k, u, i)
    requires d[u].None? || i == |g[u]|
    ensures StepsBounded(g, d, k, u + 1, 0)
  {
    forall w, j: nat | IsWalk(g, w) && |w| <= k && Residual(g, End(g, w), j) && End(g, w) < u + 1
      ensures AtMost(d, g[End(g, w)][j].to, Cost(g, w) + g[End(g, w)][j].cost)
    {
      assert AtMost(d, End(g, w), Cost(g, w));
    }
  }

  lemma WalksBoundedMore(g: Graph, d: Distances, k: nat)
    requires |d| == |g| > 0 && d[0] == Some(0) && WalksBounded(g, d, k) && StepsBounded(g, d, k, |g|, 0)
    ensures WalksBounded(g, d, k + 1)
  {
    forall w | IsWalk(g, w) && |w| <= k + 1
      ensures AtMost(d, End(g, w), Cost(g, w))
    {
      if w != [] {
        var front := w[..|w| - 1];
        var (u, i) := w[|w| - 1];
        assert IsWalk(g, front) && End(g, front) == u && Residual(g, u, i);
      }
    }
  }

  /** After `nodes - 1` full rounds no edge can improve a distance. */
  lemma RoundsSuffice(g: Graph, price: seq<int>, d: Distances, walks: seq<Walk>)
    requires Feasible(g, price) && |d| == |g| > 0
    requires Attained(g, d, walks) && WalksBounded(g, d, |g| - 1)
    ensures Converged(g, d)
  {
    forall u: nat, i: nat | Residual(g, u, i)
      ensures Relaxed(g, d, u, i)
    {
      if d[u].Some? {
        var longer := walks[u] + [(u, i)];
        assert longer[..|longer| - 1] == walks[u];
        var short := Shorten(g, price, longer);
      }
    }
  }

  lemma {:induction false} ConvergedBoundsWalk(g: Graph, d: Distances, w: Walk)
    requires Converged(g, d) && |d| > 0 && d[0] == Some(0) && IsWalk(g, w)
    ensures AtMost(d, End(g, w), Cost(g, w))
  {
    if w != [] {
      ConvergedBoundsWalk(g, d, w[..|w| - 1]);
      var (u, i) := w[|w| - 1];
      assert Relaxed(g, d, u, i);
    }
  }

  lemma ConvergedIsShortest(g: Graph, d: Distances, walks: seq<Walk>)
    requires Converged(g, d) && |d| > 0 && d[0] == Some(0) && Attained(g, d, walks)
    ensures Shortest(g, d)
  {
    forall w | IsWalk(g, w)
      ensures AtMost(d, End(g, w), Cost(g, w))
    {
      ConvergedBoundsWalk(g, d, w);
    }
  }

  /** Everything known after scanning the edges before `idx` of node `from` in a round. */
  ghost predicate Scanned(g: Graph, price: seq<int>, s: Search, round: nat, from: nat, idx: nat, changed: bool) {
    && RoundInvariant(g, price, s.d, s.prev, s.rank, s.walks, round)
    && StepsBounded(g, s.d, round, from, idx)
    && (!changed ==> ScannedRelaxed(g, s.d, from, idx))
  }

  /** The arrays of a search as values, with the ghost rank and walks. */
  datatype Search = Search(d: Distances, prev: Predecessors, rank: seq<nat>, walks: seq<Walk>)

  /** Whether visiting edge `e` of node `u` improves the distance of its target. */
  predicate Improves(d: Distances, u: nat, e: ResidualEdge)
    requires u < |d| && d[u].Some? && e.to < |d|
  {
    e.capacity > 0 && (d[e.to].Some? ==> d[u].value + e.cost < d[e.to].value)
  }

  /** The state after visiting edge `e`, the `i`-th of node `u`. */
  function Visit(s: Search, u: nat, i: nat, e: ResidualEdge): Search
    requires u < |s.d| && s.d[u].Some? && e.to < |s.d| == |s.prev|
  {
    if Improves(s.d, u, e) then
      s.(d := s.d[e.to := Some(s.d[u].value + e.cost)], prev := s.prev[e.to := Some((u, i))])
    else s
  }

  lemma KeepScanned(g: Graph, price: seq<int>, s: Search, round: nat, u: nat, i: nat, changed: bool)
    requires Scanned(g, price, s, round, u, i, changed)
    requires Residual(g, u, i) && s.d[u].Some? ==> Relaxed(g, s.d, u, i)
    ensures Scanned(g, price, s, round, u, i + 1, changed)
  {
    KeepStep(g, s.d, round, u, i);
  }

  lemma ImproveScanned(g: Graph, price: seq<int>, s: Search, round: nat, u: nat, i: nat, changed: bool)
    returns (next: Search)
    requires Feasible(g, price) && Scanned(g, price, s, round, u, i, changed)
    requires Residual(g, u, i) && s.d[u].Some? && Improves(s.d, u, g[u][i])
    ensures next == Visit(s, u, i, g[u][i]).(rank := next.rank, walks := next.walks)
    ensures Scanned(g, price, next, round, u, i + 1, true)
    ensures |next.d| == |g| && next.d[u].Some?
  {
    var e := g[u][i];
    var rank, walks := RelaxStep(g, price, s.d, s.prev, s.rank, s.walks, round, u, i);
    next := Search(s.d[e.to := Some(s.d[u].value + e.cost)], s.prev[e.to := Some((u, i))], rank, walks);
  }

  lemma ScanEdge(g: Graph, price: seq<int>, s: Search, round: nat, u: nat, i: nat, e: ResidualEdge, changed: bool)
    returns (next: Search)
    requires Feasible(g, price) && Scanned(g, price, s, round, u, i, changed)
    requires ValidEdge(g, u, i) && e == g[u][i] && e.to < |g| && s.d[u].Some?
    ensures next == Visit(s, u, i, e).(rank := next.rank, walks := next.walks)
    ensures Scanned(g, price, next, round, u, i + 1, changed || Improves(s.d, u, e))
    ensures |next.d| == |g| && next.d[u].Some?
  {
    if Improves(s.d, u, e) {
      next := ImproveScanned(g, price, s, round, u, i, changed);
    } else {
      KeepScanned(g, price, s, round, u, i, changed);
      next := s;
    }
  }

  /** The edges of one node, relaxed in adjacency order. */
  method RelaxNode(
    graph: array<seq<ResidualEdge>>, from: nat, distance: array<Option<int>>, previous: array<Option<(nat, nat)>>,
    changedBefore: bool, ghost price: seq<int>, ghost before: Search, ghost round: nat)
    returns (changed: bool, ghost s: Search)
    requires from < graph.Length == distance.Length == previous.Length
    requires forall i: nat :: i < |graph[from]| ==> graph[from][i].to < graph.Length
    requires Feasible(graph[..], price) && distance[from].Some?
    requires distance[..] == before.d && previous[..] == before.prev
    requires Scanned(graph[..], price, before, round, from, 0, changedBefore)
    modifies distance, previous
    ensures distance[..] == s.d && previous[..] == s.prev
    ensures Scanned(graph[..], price, s, round, from, |graph[from]|, changed)
  {
    changed, s := changedBefore, before;
    ghost var g := graph[..];
    for index := 0 to |graph[from]|
      invariant distance[..] == s.d && previous[..] == s.prev && s.d[from].Some?
      invariant Scanned(g, price, s, round, from, index, changed)
    {
      var edge := graph[from][index];
      ghost var next := ScanEdge(g, price, s, round, from, index, edge, changed);
      changed := RelaxEdge(distance, previous, from, index, edge, changed);
      s := next;
    }
  }

  method RelaxEdge(
    distance: array<Option<int>>, previous: array<Option<(nat, nat)>>,
    from: nat, index: nat, edge: ResidualEdge, changedBefore: bool)
    returns (changed: bool)
    requires from < distance.Length == previous.Length && edge.to < distance.Length
    requires distance[from].Some?
    modifies distance, previous
    ensures
      var before := Search(old(distance[..]), old(previous[..]), [], []);
      && Search(distance[..], previous[..], [], []) == Visit(before, from, index, edge)
      && changed == (changedBefore || Improves(before.d, from, edge))
  {
    changed := changedBefore;
    if edge.capacity == 0 {
      return;
    }
    var candidateDistance := distance[from].value + edge.cost;
    if distance[edge.to].None? || candidateDistance < distance[edge.to].value {
      distance[edge.to] := Some(candidateDistance);
      previous[edge.to] := Some((from, index));
      changed := true;
    }
  }

  method ShortestPaths(graph: array<seq<ResidualEdge>>, ghost price: seq<int>)
    returns (distance: array<Option<int>>, previous: array<Option<(nat, nat)>>, ghost rank: seq<nat>)
    requires graph.Length > 0
    requires forall u: nat, i: nat :: ValidEdge(graph[..], u, i) ==> graph[u][i].to < graph.Length
    requires Feasible(graph[..], price)
    ensures fresh(distance) && fresh(previous)
    ensures Tree(graph[..], price, distance[..], previous[..], rank)
    ensures Converged(graph[..], distance[..])
    ensures Shortest(graph[..], distance[..])
  {
    ghost var g := graph[..];
    var nodes := graph.Length;
    distance := new Option<int>[nodes](_ => None);
    previous := new Option<(nat, nat)>[nodes](_ => None);
    distance[0] := Some(0);
    ghost var s := Search(distance[..], previous[..], seq(nodes, _ => 0), seq(nodes, _ => []));

    ghost var settled := false;
    for round := 0 to nodes - 1
      invariant distance[..] == s.d && previous[..] == s.prev
      invariant RoundInvariant(g, price, s.d, s.prev, s.rank, s.walks, round)
      invariant !settled
    {
      var changed := false;
      for from := 0 to nodes
        invariant distance[..] == s.d && previous[..] == s.prev
        invariant Scanned(g, price, s, round, from, 0, changed)
      {
        if distance[from].None? {
          NextNode(g, s.d, round, from, 0);
        } else {
          changed, s := RelaxNode(graph, from, distance, previous, changed, price, s, round);
          NextNode(g, s.d, round, from, |graph[from]|);
        }
      }
      WalksBoundedMore(g, s.d, round);
      if !changed {
        settled := true;
        break;
      }
    }
    if !settled {
      RoundsSuffice(g, price, s.d, s.walks);
    }
    ConvergedIsShortest(g, s.d, s.walks);
    rank := s.rank;
  }
}
