/**
 The residual graph as adjacency lists, walks in it, and node prices that rule
 out negative cycles.

 Node 0 is the source. Every edge is stored with its reverse; a pair carries
 one unit of capacity, on one side or the other.
 */
module ResidualGraph {
  import opened Common

  datatype ResidualEdge = ResidualEdge(to: nat, reverse: nat, capacity: nat, cost: int, candidate: Option<nat>)

  type Graph = seq<seq<ResidualEdge>>

  predicate ValidEdge(g: Graph, u: nat, i: nat) {
    u < |g| && i < |g[u]|
  }

  ghost predicate Mirrored(g: Graph) {
    forall u: nat, i: nat {:trigger ValidEdge(g, u, i)} :: ValidEdge(g, u, i) ==>
      var e := g[u][i];
      && e.to != u
      && ValidEdge(g, e.to, e.reverse)
      && var r := g[e.to][e.reverse];
        r.to == u && r.reverse == i && r.cost == -e.cost && r.capacity + e.capacity == 1
  }

  /** Only capacities may differ. */
  ghost predicate SameShape(g: Graph, h: Graph) {
    && |g| == |h|
    && (forall u :: 0 <= u < |g| ==> |g[u]| == |h[u]|)
    && (forall u: nat, i: nat {:trigger h[u][i]} {:trigger ValidEdge(g, u, i)} :: ValidEdge(g, u, i) ==>
      h[u][i] == g[u][i].(capacity := h[u][i].capacity))
  }

  ghost predicate Residual(g: Graph, u: nat, i: nat) {
    ValidEdge(g, u, i) && g[u][i].to < |g| && g[u][i].capacity > 0
  }

  /** Prices under which every residual edge has non-negative reduced cost. */
  ghost predicate Feasible(g: Graph, price: seq<int>) {
    && |price| == |g|
    && forall u: nat, i: nat {:trigger Residual(g, u, i)} :: Residual(g, u, i) ==>
      price[g[u][i].to] <= price[u] + g[u][i].cost
  }

  // ----- walks from the source -----

  type Walk = seq<(nat, nat)>

  ghost predicate IsWalk(g: Graph, w: Walk) {
    |g| > 0 && (w == [] ||
      var (u, i) := w[|w| - 1];
      IsWalk(g, w[..|w| - 1]) && End(g, w[..|w| - 1]) == u && Residual(g, u, i))
  }

  ghost function End(g: Graph, w: Walk): nat {
    if w == [] then 0
    else
      var (u, i) := w[|w| - 1];
      if ValidEdge(g, u, i) then g[u][i].to else 0
  }

  ghost function Cost(g: Graph, w: Walk): int
    requires IsWalk(g, w)
  {
    if w == [] then 0
    else
      var (u, i) := w[|w| - 1];
      Cost(g, w[..|w| - 1]) + g[u][i].cost
  }

  lemma {:induction false} WalkPrefix(g: Graph, w: Walk, n: nat)
    requires IsWalk(g, w) && n <= |w|
    ensures IsWalk(g, w[..n])
  {
    if n < |w| {
      WalkPrefix(g, w[..|w| - 1], n);
      assert w[..|w| - 1][..n] == w[..n];
    } else {
      assert w[..n] == w;
    }
  }

  lemma OneStepMore(g: Graph, w: Walk, u: nat, i: nat)
    requires IsWalk(g, w) && End(g, w) == u && Residual(g, u, i)
    ensures IsWalk(g, w + [(u, i)]) && End(g, w + [(u, i)]) == g[u][i].to
    ensures Cost(g, w + [(u, i)]) == Cost(g, w) + g[u][i].cost
  {
    assert (w + [(u, i)])[..|w|] == w;
  }

  lemma LastOfSplice<T>(p: seq<T>, w: seq<T>, i: nat)
    requires i < |w|
    ensures p + w[i..] == (p + w[..|w| - 1][i..]) + [w[|w| - 1]]
  {
    assert w[i..] == w[..|w| - 1][i..] + [w[|w| - 1]];
  }

  /** The part of a walk after step `i` can be replayed from any walk that ends where the first `i` steps end. */
  lemma {:induction false} Splice(g: Graph, w: Walk, i: nat, p: Walk)
    requires IsWalk(g, w) && i <= |w| && IsWalk(g, w[..i]) && IsWalk(g, p)
    requires End(g, p) == End(g, w[..i])
    ensures IsWalk(g, p + w[i..])
    ensures End(g, p + w[i..]) == End(g, w)
    ensures Cost(g, p + w[i..]) == Cost(g, p) + Cost(g, w) - Cost(g, w[..i])
  {
    if i == |w| {
      assert p + w[i..] == p && w[..i] == w;
    } else {
      var front, step := w[..|w| - 1], w[|w| - 1];
      assert front[..i] == w[..i];
      Splice(g, front, i, p);
      LastOfSplice(p, w, i);
      OneStepMore(g, p + front[i..], step.0, step.1);
    }
  }

  /** Prices telescope along a walk. */
  lemma {:induction false} WalkPrice(g: Graph, price: seq<int>, w: Walk, n: nat)
    requires Feasible(g, price) && IsWalk(g, w) && n <= |w| && IsWalk(g, w[..n])
    ensures price[End(g, w)] - price[End(g, w[..n])] <= Cost(g, w) - Cost(g, w[..n])
  {
    if n == |w| {
      assert w[..n] == w;
    } else {
      var front := w[..|w| - 1];
      assert front[..n] == w[..n];
      WalkPrice(g, price, front, n);
      var (u, i) := w[|w| - 1];
      assert Residual(g, u, i) && End(g, front) == u && End(g, w) == g[u][i].to;
    }
  }

  lemma {:induction false} Pigeonhole(s: seq<nat>, n: nat) returns (i: nat, j: nat)
    requires |s| > n && forall k :: 0 <= k < |s| ==> s[k] < n
    ensures i < j < |s| && s[i] == s[j]
    decreases n
  {
    if k :| 0 <= k < |s| - 1 && s[k] == s[|s| - 1] {
      return k, |s| - 1;
    }
    var front := seq(|s| - 1, k requires 0 <= k < |s| - 1 => if s[k] == n - 1 then s[|s| - 1] else s[k]);
    assert n > 0 by { assert s[0] < n; }
    i, j := Pigeonhole(front, n - 1);
  }

  ghost function Stops(g: Graph, w: Walk): (s: seq<nat>)
    requires IsWalk(g, w)
    ensures |s| == |w| + 1
    ensures forall k :: 0 <= k < |s| ==> s[k] < |g| && IsWalk(g, w[..k]) && s[k] == End(g, w[..k])
  {
    forall k | 0 <= k <= |w| ensures IsWalk(g, w[..k]) { WalkPrefix(g, w, k); }
    seq(|w| + 1, k requires 0 <= k <= |w| => End(g, w[..k]))
  }

  /** Without negative cycles a walk need not repeat a node. */
  lemma {:induction false} Shorten(g: Graph, price: seq<int>, w: Walk) returns (short: Walk)
    requires Feasible(g, price) && IsWalk(g, w)
    ensures IsWalk(g, short) && |short| < |g|
    ensures End(g, short) == End(g, w) && Cost(g, short) <= Cost(g, w)
    decreases |w|
  {
    if |w| < |g| {
      return w;
    }
    var i, j := Pigeonhole(Stops(g, w), |g|);
    assert IsWalk(g, w[..i]) && IsWalk(g, w[..j]) && End(g, w[..i]) == End(g, w[..j]);
    assert w[..j][..i] == w[..i];
    WalkPrice(g, price, w[..j], i);
    Splice(g, w, j, w[..i]);
    short := Shorten(g, price, w[..i] + w[j..]);
  }
}
