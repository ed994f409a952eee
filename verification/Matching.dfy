/**
 The assignment problem that cross-host correlation poses, and the duality
 argument that certifies an answer to it.

 A candidate is an admissible pairing of one left observation with one right
 observation. A matching is any list of candidates that uses no observation
 twice. `MinCostMaximum` is what `docs/arc.md` asks of the answer: no matching
 is larger, and none of the same size is cheaper.
 */
module Matching {
  import opened Common

  datatype Candidate = Candidate(left: nat, right: nat, cost: u64, strong: bool)

  ghost predicate OneToOne(s: seq<Candidate>) {
    forall i, j :: 0 <= i < j < |s| ==> s[i].left != s[j].left && s[i].right != s[j].right
  }

  ghost predicate IsMatching(s: seq<Candidate>, pool: seq<Candidate>) {
    && OneToOne(s)
    && forall i :: 0 <= i < |s| ==> s[i] in pool
  }

  function TotalCost(s: seq<Candidate>): nat {
    if s == [] then 0 else TotalCost(s[..|s| - 1]) + s[|s| - 1].cost
  }

  ghost predicate MinCostMaximum(s: seq<Candidate>, pool: seq<Candidate>) {
    && IsMatching(s, pool)
    && (forall other :: IsMatching(other, pool) ==> |other| <= |s|)
    && (forall other :: IsMatching(other, pool) && |other| == |s| ==> TotalCost(s) <= TotalCost(other))
  }

  // ----- weighted sums over lists without repetition -----

  function Weight<T>(s: seq<T>, w: T -> int): int {
    if s == [] then 0 else Weight(s[..|s| - 1], w) + w(s[|s| - 1])
  }

  lemma {:induction false} WeightRemove<T>(s: seq<T>, w: T -> int, k: nat)
    requires k < |s|
    ensures Weight(s, w) == Weight(s[..k] + s[k + 1..], w) + w(s[k])
  {
    var last := |s| - 1;
    if k == last {
      assert s[..k] + s[k + 1..] == s[..last];
    } else {
      var rest := s[..k] + s[k + 1..];
      assert rest[..|rest| - 1] == s[..last][..k] + s[..last][k + 1..];
      WeightRemove(s[..last], w, k);
    }
  }

  lemma RemoveKeeps<T>(s: seq<T>, k: nat, x: T)
    requires k < |s| && x != s[k]
    ensures x in s ==> x in s[..k] + s[k + 1..]
  {
    if x in s {
      var j :| 0 <= j < |s| && s[j] == x;
      assert (s[..k] + s[k + 1..])[if j < k then j else j - 1] == x;
    }
  }

  /**
   A list holding every non-positive weight it can is the lightest: `ys` has
   only non-positive weights and whatever `xs` holds beyond `ys` weighs at
   least nothing.
   */
  lemma {:induction false} WeightDominates<T>(xs: seq<T>, ys: seq<T>, w: T -> int)
    requires Distinct(xs) && Distinct(ys)
    requires forall i :: 0 <= i < |ys| ==> w(ys[i]) <= 0
    requires forall i :: 0 <= i < |xs| && xs[i] !in ys ==> w(xs[i]) >= 0
    ensures Weight(xs, w) >= Weight(ys, w)
    decreases |xs|, |ys|
  {
    if xs == [] {
      if ys != [] {
        WeightDominates([], ys[..|ys| - 1], w);
      }
    } else {
      var x := xs[|xs| - 1];
      var front := xs[..|xs| - 1];
      if x in ys {
        var k :| 0 <= k < |ys| && ys[k] == x;
        var rest := ys[..k] + ys[k + 1..];
        WeightRemove(ys, w, k);
        forall i | 0 <= i < |front| && front[i] !in rest
          ensures w(front[i]) >= 0
        {
          assert front[i] == xs[i] && xs[i] != x;
          RemoveKeeps(ys, k, xs[i]);
        }
        WeightDominates(front, rest, w);
      } else {
        WeightDominates(front, ys, w);
      }
    }
  }

  // ----- linear-programming duality for matchings -----

  function Lefts(s: seq<Candidate>): (r: seq<nat>) {
    Map(s, (c: Candidate) => c.left)
  }

  function Rights(s: seq<Candidate>): (r: seq<nat>) {
    Map(s, (c: Candidate) => c.right)
  }

  /**
   A price per node, for a cost function over candidates. Reduced costs are
   non-negative off the matching and non-positive on it; left prices sit at or
   above `source` exactly where matched, right prices at or below `sink`.
   */
  ghost predicate Certifies(
    chosen: seq<Candidate>, pool: seq<Candidate>, cost: Candidate -> int,
    left: nat -> int, right: nat -> int, source: int, sink: int)
  {
    && (forall c :: c in pool && c !in chosen ==> cost(c) >= right(c.right) - left(c.left))
    && (forall c :: c in chosen ==> cost(c) <= right(c.right) - left(c.left))
    && (forall c :: c in chosen ==> left(c.left) >= source && right(c.right) <= sink)
    && (forall c :: c in pool && c.left !in Lefts(chosen) ==> left(c.left) <= source)
    && (forall c :: c in pool && c.right !in Rights(chosen) ==> right(c.right) >= sink)
  }

  function Reduced(cost: Candidate -> int, left: nat -> int, right: nat -> int): Candidate -> int {
    (c: Candidate) => cost(c) - right(c.right) + left(c.left)
  }

  function Above(price: nat -> int, floor: int): nat -> int {
    (n: nat) => price(n) - floor
  }

  function Below(price: nat -> int, ceiling: int): nat -> int {
    (n: nat) => ceiling - price(n)
  }

  function Times(unit: int, n: nat): (r: int)
    ensures unit == 1 ==> r == n
  {
    if n == 0 then 0 else Times(unit, n - 1) + unit
  }

  lemma {:induction false} ReducedWeight(
    s: seq<Candidate>, cost: Candidate -> int, left: nat -> int, right: nat -> int, source: int, sink: int)
    ensures Weight(s, cost)
         == Weight(s, Reduced(cost, left, right))
            + Weight(Rights(s), Above(right, sink))
            + Weight(Lefts(s), Below(left, source))
            + Times(sink - source, |s|)
  {
    if s != [] {
      var front := s[..|s| - 1];
      ReducedWeight(front, cost, left, right, source, sink);
      assert Rights(s)[..|s| - 1] == Rights(front);
      assert Lefts(s)[..|s| - 1] == Lefts(front);
    }
  }

  lemma ReducedDominates(
    other: seq<Candidate>, chosen: seq<Candidate>, pool: seq<Candidate>, cost: Candidate -> int,
    left: nat -> int, right: nat -> int, source: int, sink: int)
    requires IsMatching(chosen, pool) && IsMatching(other, pool)
    requires Certifies(chosen, pool, cost, left, right, source, sink)
    ensures Weight(other, Reduced(cost, left, right)) >= Weight(chosen, Reduced(cost, left, right))
    ensures Weight(Rights(other), Above(right, sink)) >= Weight(Rights(chosen), Above(right, sink))
    ensures Weight(Lefts(other), Below(left, source)) >= Weight(Lefts(chosen), Below(left, source))
  {
    WeightDominates(other, chosen, Reduced(cost, left, right));
    forall i | 0 <= i < |Rights(other)| && Rights(other)[i] !in Rights(chosen)
      ensures Above(right, sink)(Rights(other)[i]) >= 0
    {
      assert other[i] in pool;
    }
    WeightDominates(Rights(other), Rights(chosen), Above(right, sink));
    forall i | 0 <= i < |Lefts(other)| && Lefts(other)[i] !in Lefts(chosen)
      ensures Below(left, source)(Lefts(other)[i]) >= 0
    {
      assert other[i] in pool;
    }
    WeightDominates(Lefts(other), Lefts(chosen), Below(left, source));
  }

  lemma DominanceGivesCost(
    other: seq<Candidate>, chosen: seq<Candidate>, cost: Candidate -> int,
    left: nat -> int, right: nat -> int, source: int, sink: int)
    requires Weight(other, Reduced(cost, left, right)) >= Weight(chosen, Reduced(cost, left, right))
    requires Weight(Rights(other), Above(right, sink)) >= Weight(Rights(chosen), Above(right, sink))
    requires Weight(Lefts(other), Below(left, source)) >= Weight(Lefts(chosen), Below(left, source))
    ensures |other| == |chosen| ==> Weight(other, cost) >= Weight(chosen, cost)
    ensures sink - source == 1 ==> Weight(other, cost) - Weight(chosen, cost) >= |other| - |chosen|
  {
    ReducedWeight(other, cost, left, right, source, sink);
    ReducedWeight(chosen, cost, left, right, source, sink);
  }

  /**
   Weak duality. Prices bound the cost of every matching of the same size from
   below, and a unit gap between sink and source pays for every extra edge.
   */
  lemma Duality(
    other: seq<Candidate>, chosen: seq<Candidate>, pool: seq<Candidate>, cost: Candidate -> int,
    left: nat -> int, right: nat -> int, source: int, sink: int)
    requires IsMatching(chosen, pool) && IsMatching(other, pool)
    requires Certifies(chosen, pool, cost, left, right, source, sink)
    ensures |other| == |chosen| ==> Weight(other, cost) >= Weight(chosen, cost)
    ensures sink - source == 1 ==> Weight(other, cost) - Weight(chosen, cost) >= |other| - |chosen|
  {
    ReducedDominates(other, chosen, pool, cost, left, right, source, sink);
    DominanceGivesCost(other, chosen, cost, left, right, source, sink);
  }

  function Price(c: Candidate): int {
    c.cost
  }

  function Free(c: Candidate): int {
    0
  }

  lemma {:induction false} WeightOfPriceAndFree(s: seq<Candidate>)
    ensures Weight(s, Price) == TotalCost(s)
    ensures Weight(s, Free) == 0
  {
    if s != [] {
      WeightOfPriceAndFree(s[..|s| - 1]);
    }
  }

  /** A cut bounds the size of every matching. */
  lemma CutGivesMaximum(
    other: seq<Candidate>, chosen: seq<Candidate>, pool: seq<Candidate>,
    cutLeft: nat -> int, cutRight: nat -> int)
    requires IsMatching(chosen, pool) && IsMatching(other, pool)
    requires Certifies(chosen, pool, Free, cutLeft, cutRight, 0, 1)
    ensures |other| <= |chosen|
  {
    WeightOfPriceAndFree(other);
    WeightOfPriceAndFree(chosen);
    assert Weight(other, Free) - Weight(chosen, Free) >= |other| - |chosen| by {
      Duality(other, chosen, pool, Free, cutLeft, cutRight, 0, 1);
    }
  }

  /** Prices bound the cost of every matching of the same size. */
  lemma PricesGiveMinimum(
    other: seq<Candidate>, chosen: seq<Candidate>, pool: seq<Candidate>,
    left: nat -> int, right: nat -> int, source: int, sink: int)
    requires IsMatching(chosen, pool) && IsMatching(other, pool) && |other| == |chosen|
    requires Certifies(chosen, pool, Price, left, right, source, sink)
    ensures TotalCost(chosen) <= TotalCost(other)
  {
    WeightOfPriceAndFree(other);
    WeightOfPriceAndFree(chosen);
    assert Weight(other, Price) - Weight(chosen, Price) >= 0 by {
      Duality(other, chosen, pool, Price, left, right, source, sink);
    }
  }

  /**
   The certificate the algorithm ends with: prices for the real costs, and a
   cut (prices 0 and 1 for zero costs) that separates source from sink.
   */
  lemma CertificatesGiveMinCostMaximum(
    chosen: seq<Candidate>, pool: seq<Candidate>,
    left: nat -> int, right: nat -> int, source: int, sink: int,
    cutLeft: nat -> int, cutRight: nat -> int)
    requires IsMatching(chosen, pool)
    requires Certifies(chosen, pool, Price, left, right, source, sink)
    requires Certifies(chosen, pool, Free, cutLeft, cutRight, 0, 1)
    ensures MinCostMaximum(chosen, pool)
  {
    forall other | IsMatching(other, pool)
      ensures |other| <= |chosen|
    {
      CutGivesMaximum(other, chosen, pool, cutLeft, cutRight);
    }
    forall other | IsMatching(other, pool) && |other| == |chosen|
      ensures TotalCost(chosen) <= TotalCost(other)
    {
      PricesGiveMinimum(other, chosen, pool, left, right, source, sink);
    }
  }
}
