/**
 `sparse_min_cost_matching`: successive shortest augmenting paths over the flow
 network, then reading the matching off the saturated candidate edges.
 */
module SparseMatching {
  import opened Common
  import opened Matching
  import opened ResidualGraph
  import opened BellmanFord
  import opened FlowNetwork
  import opened Augmentation

  /** The complete network, with as much flow into as out of every inner node. */
  ghost predicate FlowState(g: Graph, lefts: nat, rights: nat, pool: seq<Candidate>, slot: seq<nat>) {
    && |slot| == |pool|
    && Network(g, lefts, rights, pool, slot, lefts, rights)
    && forall u {:trigger Net(g, u)} :: 0 < u <= lefts + rights ==> Net(g, u) == 0
  }

  /** Candidate `k` carries flow. */
  ghost predicate Used(g: Graph, pool: seq<Candidate>, slot: seq<nat>, k: nat) {
    && k < |slot| <= |pool|
    && ValidEdge(g, 1 + pool[k].left, slot[k])
    && g[1 + pool[k].left][slot[k]].capacity == 0
  }

  ghost predicate LeftUsed(g: Graph, pool: seq<Candidate>, slot: seq<nat>, l: nat) {
    exists k: nat {:trigger Used(g, pool, slot, k)} :: Used(g, pool, slot, k) && pool[k].left == l
  }

  ghost predicate RightUsed(g: Graph, pool: seq<Candidate>, slot: seq<nat>, r: nat) {
    exists k: nat {:trigger Used(g, pool, slot, k)} :: Used(g, pool, slot, k) && pool[k].right == r
  }

  // ----- what balance means at one node -----

  /**
   A list of flows that cancels out: one entry is 0 or -1, the others 0 or 1.
   Then the others hold exactly one 1 when that entry is -1, and none when it is 0.
   */
  lemma {:induction false} Cancelling(s: seq<int>, j: nat)
    requires j < |s| && -1 <= s[j] <= 0 && Sum(s) == 0
    requires forall i :: 0 <= i < |s| && i != j ==> 0 <= s[i] <= 1
    ensures s[j] == 0 ==> forall i :: 0 <= i < |s| ==> s[i] == 0
    ensures s[j] == -1 ==> exists i :: 0 <= i < |s| && s[i] == 1
    ensures forall a, b :: 0 <= a < b < |s| && a != j && b != j ==> s[a] + s[b] <= 1
  {
    var rest := s[j := 0];
    SumUpdate(s, j, 0);
    assert forall i :: 0 <= i < |s| ==> s[i] == if i == j then s[j] else rest[i];
    forall a, b | 0 <= a < b < |s| && a != j && b != j
      ensures s[a] + s[b] <= 1
    {
      SumUpdate(rest, a, 0);
      SumUpdate(rest[a := 0], b, 0);
      SumBounds(rest[a := 0][b := 0], 0, 1);
    }
    if k :| 0 <= k < |s| && rest[k] > 0 {
      SumUpdate(rest, k, 0);
      SumBounds(rest[k := 0], 0, 1);
    } else {
      SumBounds(rest, 0, 0);
    }
  }

  lemma {:induction false} SumNegated(s: seq<int>, t: seq<int>)
    requires |s| == |t| && forall i :: 0 <= i < |s| ==> t[i] == -s[i]
    ensures Sum(t) == -Sum(s)
  {
    if s != [] {
      SumNegated(s[..|s| - 1], t[..|t| - 1]);
    }
  }

  /** The edges at a left node other than the one back to the source are candidates. */
  lemma AtLeft(g: Graph, lefts: nat, rights: nat, pool: seq<Candidate>, slot: seq<nat>, l: nat, i: nat) returns (k: nat)
    requires FlowState(g, lefts, rights, pool, slot) && l < lefts && ValidEdge(g, 1 + l, i)
    ensures ValidEdge(g, 0, l)
    ensures i == g[0][l].reverse ==> Outflow(1 + l, g[1 + l][i]) == g[0][l].capacity - 1
    ensures i != g[0][l].reverse ==>
      && k < |slot| && slot[k] == i && pool[k].left == l
      && Outflow(1 + l, g[1 + l][i]) == 1 - g[1 + l][i].capacity
  {
    assert ValidEdge(g, 0, l) && EdgeInPlace(g, lefts, rights, pool, slot, 0, l);
    assert EdgeInPlace(g, lefts, rights, pool, slot, 1 + l, i);
    var e := g[1 + l][i];
    k := if e.candidate.Some? then e.candidate.value else 0;
    if e.candidate.None? {
      assert ValidEdge(g, 0, e.reverse) && EdgeInPlace(g, lefts, rights, pool, slot, 0, e.reverse);
    }
  }

  /** What leaves a left node by one edge. */
  lemma LeftFlow(g: Graph, lefts: nat, rights: nat, pool: seq<Candidate>, slot: seq<nat>, l: nat, i: nat)
    requires FlowState(g, lefts, rights, pool, slot) && l < lefts && ValidEdge(g, 1 + l, i)
    ensures ValidEdge(g, 0, l)
    ensures
      var out := Outflow(1 + l, g[1 + l][i]);
      if i == g[0][l].reverse then out == g[0][l].capacity - 1
      else 0 <= out <= 1 && (out == 1 ==> LeftUsed(g, pool, slot, l))
  {
    var k := AtLeft(g, lefts, rights, pool, slot, l, i);
    if i != g[0][l].reverse && Outflow(1 + l, g[1 + l][i]) == 1 {
      assert Used(g, pool, slot, k);
    }
  }

  /** A used candidate takes a unit out of its left node by its own slot. */
  lemma UsedFlow(g: Graph, lefts: nat, rights: nat, pool: seq<Candidate>, slot: seq<nat>, l: nat, k: nat)
    requires FlowState(g, lefts, rights, pool, slot) && l < lefts && Used(g, pool, slot, k) && pool[k].left == l
    ensures ValidEdge(g, 0, l) && ValidEdge(g, 1 + l, slot[k])
    ensures slot[k] != g[0][l].reverse && g[1 + l][slot[k]].candidate == Some(k)
    ensures Outflow(1 + l, g[1 + l][slot[k]]) == 1
  {
    assert SlotHolds(g, 1 + l, slot[k], k) && ValidEdge(g, 1 + l, slot[k]);
    var _ := AtLeft(g, lefts, rights, pool, slot, l, slot[k]);
    assert ValidEdge(g, 1 + l, g[0][l].reverse);
    assert EdgeInPlace(g, lefts, rights, pool, slot, 1 + l, g[0][l].reverse);
  }

  /** A left node passes its unit from the source to exactly one candidate. */
  lemma LeftBalance(g: Graph, lefts: nat, rights: nat, pool: seq<Candidate>, slot: seq<nat>, l: nat)
    requires FlowState(g, lefts, rights, pool, slot) && l < lefts
    ensures ValidEdge(g, 0, l)
    ensures forall a: nat, b: nat {:trigger Used(g, pool, slot, a), Used(g, pool, slot, b)} ::
      Used(g, pool, slot, a) && Used(g, pool, slot, b) && pool[a].left == l && pool[b].left == l ==> a == b
    ensures g[0][l].capacity == 0 <==> LeftUsed(g, pool, slot, l)
  {
    assert ValidEdge(g, 0, l);
    var u, j := 1 + l, g[0][l].reverse;
    var s := Outflows(u, g[u]);
    assert ValidEdge(g, u, j);
    forall i | 0 <= i < |s|
      ensures if i == j then s[i] == g[0][l].capacity - 1
              else 0 <= s[i] <= 1 && (s[i] == 1 ==> LeftUsed(g, pool, slot, l))
    {
      assert ValidEdge(g, u, i);
      LeftFlow(g, lefts, rights, pool, slot, l, i);
    }
    assert Net(g, u) == 0;
    Cancelling(s, j);
    forall k: nat | Used(g, pool, slot, k) && pool[k].left == l
      ensures slot[k] < |s| && s[slot[k]] == 1 && slot[k] != j && g[u][slot[k]].candidate == Some(k)
    {
      UsedFlow(g, lefts, rights, pool, slot, l, k);
    }
  }

  /** Where the reverse edge of candidate `k` sits at its right node. */
  lemma Landing(g: Graph, lefts: nat, rights: nat, pool: seq<Candidate>, slot: seq<nat>, k: nat) returns (i: nat)
    requires FlowState(g, lefts, rights, pool, slot) && k < |pool|
    ensures SlotHolds(g, 1 + pool[k].left, slot[k], k)
    ensures
      var u := 1 + lefts + pool[k].right;
      && ValidEdge(g, u, i) && g[u][i].to == 1 + pool[k].left && g[u][i].reverse == slot[k]
      && Outflow(u, g[u][i]) == g[1 + pool[k].left][slot[k]].capacity - 1
  {
    assert SlotHolds(g, 1 + pool[k].left, slot[k], k) && ValidEdge(g, 1 + pool[k].left, slot[k]);
    assert EdgeInPlace(g, lefts, rights, pool, slot, 1 + pool[k].left, slot[k]);
    i := g[1 + pool[k].left][slot[k]].reverse;
  }

  /** The edges at a right node other than the one to the sink are reverses of candidates. */
  lemma AtRight(
    g: Graph, lefts: nat, rights: nat, pool: seq<Candidate>, slot: seq<nat>, r: nat, i: nat) returns (k: nat)
    requires Network(g, lefts, rights, pool, slot, lefts, rights) && r < rights && ValidEdge(g, 1 + lefts + r, i)
    ensures ValidEdge(g, lefts + rights + 1, r)
    ensures i == g[lefts + rights + 1][r].reverse ==>
      Outflow(1 + lefts + r, g[1 + lefts + r][i]) == g[lefts + rights + 1][r].capacity
    ensures i != g[lefts + rights + 1][r].reverse ==>
      && k < |slot| && pool[k].right == r && SlotHolds(g, 1 + pool[k].left, slot[k], k)
      && Outflow(1 + lefts + r, g[1 + lefts + r][i]) == g[1 + pool[k].left][slot[k]].capacity - 1
  {
    var u, sink := 1 + lefts + r, lefts + rights + 1;
    assert ValidEdge(g, sink, r) && EdgeInPlace(g, lefts, rights, pool, slot, sink, r);
    k := 0;
    if i != g[sink][r].reverse {
      var e := g[u][i];
      assert ValidEdge(g, e.to, e.reverse);
      NotToSink(g, lefts, rights, pool, slot, r, i);
      k := CandidateAt(g, lefts, rights, pool, slot, r, e.to, e.reverse);
    }
  }

  lemma NotToSink(g: Graph, lefts: nat, rights: nat, pool: seq<Candidate>, slot: seq<nat>, r: nat, i: nat)
    requires Network(g, lefts, rights, pool, slot, lefts, rights) && r < rights && ValidEdge(g, 1 + lefts + r, i)
    requires ValidEdge(g, lefts + rights + 1, r) && i != g[lefts + rights + 1][r].reverse
    ensures 1 <= g[1 + lefts + r][i].to <= lefts
  {
    var u, sink := 1 + lefts + r, lefts + rights + 1;
    assert EdgeInPlace(g, lefts, rights, pool, slot, u, i);
    if g[u][i].to == sink {
      var n := g[u][i].reverse;
      assert ValidEdge(g, sink, n) && EdgeInPlace(g, lefts, rights, pool, slot, sink, n);
    }
  }

  /** An edge leading to a right node is a candidate edge. */
  lemma CandidateAt(
    g: Graph, lefts: nat, rights: nat, pool: seq<Candidate>, slot: seq<nat>, r: nat, u: nat, i: nat) returns (k: nat)
    requires Network(g, lefts, rights, pool, slot, lefts, rights) && r < rights
    requires 1 <= u <= lefts && ValidEdge(g, u, i) && g[u][i].to == 1 + lefts + r
    ensures k < |slot| && pool[k].right == r && u == 1 + pool[k].left && i == slot[k] && SlotHolds(g, u, i, k)
  {
    assert EdgeInPlace(g, lefts, rights, pool, slot, u, i);
    k := g[u][i].candidate.value;
  }

  /** A right node collects its unit for the sink from exactly one candidate. */
  lemma RightBalance(g: Graph, lefts: nat, rights: nat, pool: seq<Candidate>, slot: seq<nat>, r: nat)
    requires FlowState(g, lefts, rights, pool, slot) && r < rights
    ensures ValidEdge(g, lefts + rights + 1, r)
    ensures forall a: nat, b: nat {:trigger Used(g, pool, slot, a), Used(g, pool, slot, b)} ::
      Used(g, pool, slot, a) && Used(g, pool, slot, b) && pool[a].right == r && pool[b].right == r ==> a == b
    ensures g[lefts + rights + 1][r].capacity == 1 <==> RightUsed(g, pool, slot, r)
  {
    var u, sink := 1 + lefts + r, lefts + rights + 1;
    assert ValidEdge(g, sink, r);
    var j := g[sink][r].reverse;
    var out := Outflows(u, g[u]);
    var s := seq(|out|, i requires 0 <= i < |out| => -out[i]);
    SumNegated(out, s);
    assert ValidEdge(g, u, j);
    forall i | 0 <= i < |s|
      ensures if i == j then s[i] + g[sink][r].capacity == 0
              else 0 <= s[i] <= 1 && (s[i] == 1 ==> RightUsed(g, pool, slot, r))
    {
      var k := AtRight(g, lefts, rights, pool, slot, r, i);
      if i != j && s[i] == 1 {
        assert Used(g, pool, slot, k);
      }
      assert i != j ==> ValidEdge(g, 1 + pool[k].left, slot[k]);
    }
    assert Net(g, u) == 0;
    Cancelling(s, j);
    RightUsedOnce(g, lefts, rights, pool, slot, r, s, j);
  }

  /** Entry `i` of right node `u` carries the unit of candidate `k`. */
  ghost predicate CarriesFor(g: Graph, u: nat, i: nat, j: nat, k: nat) {
    && ValidEdge(g, u, i) && i != j && Outflow(u, g[u][i]) == -1
    && SlotHolds(g, g[u][i].to, g[u][i].reverse, k)
  }

  lemma UsedLanding(
    g: Graph, lefts: nat, rights: nat, pool: seq<Candidate>, slot: seq<nat>, r: nat, j: nat, k: nat) returns (i: nat)
    requires FlowState(g, lefts, rights, pool, slot) && Used(g, pool, slot, k) && pool[k].right == r < rights
    requires ValidEdge(g, lefts + rights + 1, r) && j == g[lefts + rights + 1][r].reverse
    ensures CarriesFor(g, 1 + lefts + r, i, j, k)
  {
    var sink := lefts + rights + 1;
    assert slot[k] >= 0;
    assert SlotHolds(g, 1 + pool[k].left, slot[k], k);
    i := Landing(g, lefts, rights, pool, slot, k);
    assert EdgeInPlace(g, lefts, rights, pool, slot, sink, r);
  }

  lemma RightUsedOnce(
    g: Graph, lefts: nat, rights: nat, pool: seq<Candidate>, slot: seq<nat>, r: nat, s: seq<int>, j: nat)
    requires FlowState(g, lefts, rights, pool, slot) && r < rights
    requires ValidEdge(g, lefts + rights + 1, r) && j == g[lefts + rights + 1][r].reverse
    requires |s| == |g[1 + lefts + r]| && forall i :: 0 <= i < |s| ==>
      s[i] == -Outflow(1 + lefts + r, g[1 + lefts + r][i])
    requires forall a, b :: 0 <= a < b < |s| && a != j && b != j ==> s[a] + s[b] <= 1
    ensures forall a: nat, b: nat {:trigger Used(g, pool, slot, a), Used(g, pool, slot, b)} ::
      Used(g, pool, slot, a) && Used(g, pool, slot, b) && pool[a].right == r && pool[b].right == r ==> a == b
    ensures RightUsed(g, pool, slot, r) ==> exists i :: 0 <= i < |s| && s[i] == 1
  {
    var u := 1 + lefts + r;
    forall a: nat | Used(g, pool, slot, a) && pool[a].right == r
      ensures exists i: nat {:trigger CarriesFor(g, u, i, j, a)} :: CarriesFor(g, u, i, j, a)
    {
      var i := UsedLanding(g, lefts, rights, pool, slot, r, j, a);
    }
    CarriersAgree(g, u, s, j);
    if k: nat :| Used(g, pool, slot, k) && pool[k].right == r {
      var i: nat :| CarriesFor(g, u, i, j, k);
      assert s[i] == 1;
    }
  }

  lemma CarriersAgree(g: Graph, u: nat, s: seq<int>, j: nat)
    requires u < |g| && |s| == |g[u]| && forall i :: 0 <= i < |s| ==> s[i] == -Outflow(u, g[u][i])
    requires forall a, b :: 0 <= a < b < |s| && a != j && b != j ==> s[a] + s[b] <= 1
    ensures forall a: nat, b: nat, i: nat, i': nat {:trigger CarriesFor(g, u, i, j, a), CarriesFor(g, u, i', j, b)} ::
      CarriesFor(g, u, i, j, a) && CarriesFor(g, u, i', j, b) ==> a == b
  {
    forall a: nat, b: nat, i: nat, i': nat | CarriesFor(g, u, i, j, a) && CarriesFor(g, u, i', j, b)
      ensures a == b
    {
      assert s[i] == 1 && s[i'] == 1;
    }
  }

  // ----- reading the matching off, and certifying it -----

  /** `chosen` lists exactly the candidates that carry flow, in order of their left node. */
  ghost predicate ReadsOff(g: Graph, pool: seq<Candidate>, slot: seq<nat>, chosen: seq<Candidate>, picks: seq<nat>) {
    && |picks| == |chosen|
    && (forall i :: 0 <= i < |picks| ==> Used(g, pool, slot, picks[i]) && chosen[i] == pool[picks[i]])
    && (forall k: nat :: Used(g, pool, slot, k) ==> k in picks)
    && (forall i, j :: 0 <= i < j < |chosen| ==> chosen[i].left < chosen[j].left)
  }

  lemma ReadOffIsMatching(
    g: Graph, lefts: nat, rights: nat, pool: seq<Candidate>, slot: seq<nat>, chosen: seq<Candidate>, picks: seq<nat>)
    requires FlowState(g, lefts, rights, pool, slot) && ReadsOff(g, pool, slot, chosen, picks)
    ensures IsMatching(chosen, pool)
    ensures ChosenAreUsed(g, pool, slot, chosen)
  {
    forall i, j | 0 <= i < j < |chosen|
      ensures chosen[i].right != chosen[j].right
    {
      assert Used(g, pool, slot, picks[i]) && Used(g, pool, slot, picks[j]);
      assert slot[picks[i]] >= 0;
      RightBalance(g, lefts, rights, pool, slot, chosen[i].right);
    }
    forall c | c in chosen
      ensures exists k: nat {:trigger Used(g, pool, slot, k)} :: Used(g, pool, slot, k) && pool[k] == c
    {
      var i :| 0 <= i < |chosen| && chosen[i] == c;
      assert Used(g, pool, slot, picks[i]);
    }
    forall k: nat | Used(g, pool, slot, k)
      ensures pool[k] in chosen
    {
      var i :| 0 <= i < |picks| && picks[i] == k;
      assert chosen[i] == pool[k];
    }
  }

  function At(p: seq<int>, offset: nat): nat -> int {
    (n: nat) => if offset + n < |p| then p[offset + n] else 0
  }

  /** Feasibility for the real costs, or for the same network at no cost. */
  ghost predicate PricesHold(g: Graph, p: seq<int>, priced: bool) {
    && |p| == |g|
    && forall u: nat, i: nat {:trigger Residual(g, u, i)} :: Residual(g, u, i) ==>
      p[g[u][i].to] <= p[u] + (if priced then g[u][i].cost else 0)
  }

  /** Feasible prices certify whatever matching the flow spells out. */
  lemma PricesCertify(
    g: Graph, lefts: nat, rights: nat, pool: seq<Candidate>, slot: seq<nat>, chosen: seq<Candidate>, p: seq<int>,
    priced: bool)
    requires FlowState(g, lefts, rights, pool, slot) && ChosenAreUsed(g, pool, slot, chosen)
    requires PricesHold(g, p, priced)
    ensures Certifies(chosen, pool, if priced then Price else Free, At(p, 1), At(p, 1 + lefts), p[0],
      p[lefts + rights + 1])
  {
    var left, right := At(p, 1), At(p, 1 + lefts);
    forall c | c in chosen
      ensures c in pool
    {
      assert exists k: nat {:trigger Used(g, pool, slot, k)} :: Used(g, pool, slot, k) && pool[k] == c;
    }
    forall c | c in pool
      ensures c.left < lefts && c.right < rights
      ensures left(c.left) == p[1 + c.left] && right(c.right) == p[1 + lefts + c.right]
      ensures CandidatePriced(lefts, chosen, p, priced, c)
      ensures EndsPriced(lefts, rights, chosen, p, c)
    {
      CandidateCosts(g, lefts, rights, pool, slot, chosen, p, priced, c);
      EndPrices(g, lefts, rights, pool, slot, chosen, p, priced, c);
    }
  }

  ghost predicate CandidatePriced(lefts: nat, chosen: seq<Candidate>, p: seq<int>, priced: bool, c: Candidate)
    requires 1 + c.left < |p| && 1 + lefts + c.right < |p|
  {
    var cost := if priced then c.cost else 0;
    var gap := p[1 + lefts + c.right] - p[1 + c.left];
    if c in chosen then cost <= gap else cost >= gap
  }

  ghost predicate EndsPriced(lefts: nat, rights: nat, chosen: seq<Candidate>, p: seq<int>, c: Candidate)
    requires |p| == lefts + rights + 2 && c.left < lefts && c.right < rights
  {
    && (if c.left in Lefts(chosen) then p[1 + c.left] >= p[0] else p[1 + c.left] <= p[0])
    && (if c.right in Rights(chosen) then p[1 + lefts + c.right] <= p[lefts + rights + 1]
        else p[1 + lefts + c.right] >= p[lefts + rights + 1])
    && (c in chosen ==> c.left in Lefts(chosen) && c.right in Rights(chosen))
  }

  lemma CandidateCosts(
    g: Graph, lefts: nat, rights: nat, pool: seq<Candidate>, slot: seq<nat>, chosen: seq<Candidate>,
    p: seq<int>, priced: bool, c: Candidate)
    requires FlowState(g, lefts, rights, pool, slot) && PricesHold(g, p, priced) && c in pool
    requires ChosenAreUsed(g, pool, slot, chosen)
    ensures c.left < lefts && c.right < rights && CandidatePriced(lefts, chosen, p, priced, c)
  {
    var k: nat;
    if c in chosen {
      k :| Used(g, pool, slot, k) && pool[k] == c;
    } else {
      k :| k < |pool| && pool[k] == c;
    }
    assert slot[k] >= 0;
    OneCandidateCost(g, lefts, rights, pool, slot, p, priced, k);
  }

  lemma OneCandidateCost(
    g: Graph, lefts: nat, rights: nat, pool: seq<Candidate>, slot: seq<nat>, p: seq<int>, priced: bool, k: nat)
    requires FlowState(g, lefts, rights, pool, slot) && PricesHold(g, p, priced) && k < |pool|
    ensures pool[k].left < lefts && pool[k].right < rights
    ensures
      var cost := if priced then pool[k].cost else 0;
      var gap := p[1 + lefts + pool[k].right] - p[1 + pool[k].left];
      if Used(g, pool, slot, k) then cost <= gap else cost >= gap
  {
    var u := 1 + pool[k].left;
    var i := Landing(g, lefts, rights, pool, slot, k);
    assert SlotHolds(g, u, slot[k], k) && ValidEdge(g, u, slot[k]);
    assert EdgeInPlace(g, lefts, rights, pool, slot, u, slot[k]);
    assert if Used(g, pool, slot, k) then Residual(g, 1 + lefts + pool[k].right, i) else Residual(g, u, slot[k]);
  }

  lemma EndPrices(
    g: Graph, lefts: nat, rights: nat, pool: seq<Candidate>, slot: seq<nat>, chosen: seq<Candidate>,
    p: seq<int>, priced: bool, c: Candidate)
    requires FlowState(g, lefts, rights, pool, slot) && PricesHold(g, p, priced)
    requires c.left < lefts && c.right < rights && ChosenAreUsed(g, pool, slot, chosen)
    ensures EndsPriced(lefts, rights, chosen, p, c)
  {
    LeftPrices(g, lefts, rights, pool, slot, p, priced, c.left);
    RightPrices(g, lefts, rights, pool, slot, p, priced, c.right);
    ChosenSides(g, pool, slot, chosen, c.left);
    ChosenSides(g, pool, slot, chosen, c.right);
    if c in chosen {
      var k: nat :| Used(g, pool, slot, k) && pool[k] == c;
    }
  }

  ghost predicate ChosenAreUsed(g: Graph, pool: seq<Candidate>, slot: seq<nat>, chosen: seq<Candidate>) {
    forall c :: c in chosen <==> exists k: nat {:trigger Used(g, pool, slot, k)} ::
      Used(g, pool, slot, k) && pool[k] == c
  }

  lemma ChosenSides(g: Graph, pool: seq<Candidate>, slot: seq<nat>, chosen: seq<Candidate>, n: nat)
    requires ChosenAreUsed(g, pool, slot, chosen)
    ensures n in Lefts(chosen) <==> LeftUsed(g, pool, slot, n)
    ensures n in Rights(chosen) <==> RightUsed(g, pool, slot, n)
  {
    forall k: nat | Used(g, pool, slot, k)
      ensures pool[k].left in Lefts(chosen) && pool[k].right in Rights(chosen)
    {
      assert pool[k] in chosen;
      var i :| 0 <= i < |chosen| && chosen[i] == pool[k];
      assert Lefts(chosen)[i] == pool[k].left && Rights(chosen)[i] == pool[k].right;
    }
    forall i | 0 <= i < |chosen|
      ensures LeftUsed(g, pool, slot, chosen[i].left) && RightUsed(g, pool, slot, chosen[i].right)
    {
      assert chosen[i] in chosen;
    }
  }

  lemma LeftPrices(
    g: Graph, lefts: nat, rights: nat, pool: seq<Candidate>, slot: seq<nat>, p: seq<int>, priced: bool, l: nat)
    requires FlowState(g, lefts, rights, pool, slot) && PricesHold(g, p, priced) && l < lefts
    ensures if LeftUsed(g, pool, slot, l) then p[1 + l] >= p[0] else p[1 + l] <= p[0]
  {
    LeftBalance(g, lefts, rights, pool, slot, l);
    assert ValidEdge(g, 0, l) && EdgeInPlace(g, lefts, rights, pool, slot, 0, l);
    assert if LeftUsed(g, pool, slot, l) then Residual(g, 1 + l, g[0][l].reverse) else Residual(g, 0, l);
  }

  lemma RightPrices(
    g: Graph, lefts: nat, rights: nat, pool: seq<Candidate>, slot: seq<nat>, p: seq<int>, priced: bool, r: nat)
    requires FlowState(g, lefts, rights, pool, slot) && PricesHold(g, p, priced) && r < rights
    ensures
      var sink := lefts + rights + 1;
      if RightUsed(g, pool, slot, r) then p[1 + lefts + r] <= p[sink] else p[1 + lefts + r] >= p[sink]
  {
    var sink := lefts + rights + 1;
    RightBalance(g, lefts, rights, pool, slot, r);
    assert ValidEdge(g, sink, r) && EdgeInPlace(g, lefts, rights, pool, slot, sink, r);
    assert if RightUsed(g, pool, slot, r) then Residual(g, sink, r) else Residual(g, 1 + lefts + r, g[sink][r].reverse);
  }

  lemma FeasiblePricesHold(g: Graph, price: seq<int>)
    requires Feasible(g, price)
    ensures PricesHold(g, price, true)
  {
  }

  /** Once the sink is out of reach, reachability itself is a cut. */
  function Cut(d: Distances): (p: seq<int>)
    ensures |p| == |d| && forall v :: 0 <= v < |p| ==> p[v] == if d[v].Some? then 0 else 1
  {
    seq(|d|, v requires 0 <= v < |d| => if d[v].Some? then 0 else 1)
  }

  lemma CutPricesHold(g: Graph, d: Distances)
    requires Converged(g, d)
    ensures PricesHold(g, Cut(d), false)
  {
    forall u: nat, i: nat | Residual(g, u, i)
      ensures Cut(d)[g[u][i].to] <= Cut(d)[u]
    {
      assert Relaxed(g, d, u, i);
    }
  }

  lemma StuckIsOptimal(
    g: Graph, lefts: nat, rights: nat, pool: seq<Candidate>, slot: seq<nat>, chosen: seq<Candidate>, picks: seq<nat>,
    price: seq<int>, d: Distances)
    requires FlowState(g, lefts, rights, pool, slot) && ReadsOff(g, pool, slot, chosen, picks)
    requires Feasible(g, price) && Converged(g, d) && d[0].Some? && d[lefts + rights + 1].None?
    ensures MinCostMaximum(chosen, pool)
  {
    ReadOffIsMatching(g, lefts, rights, pool, slot, chosen, picks);
    FeasiblePricesHold(g, price);
    CutPricesHold(g, d);
    PricesCertify(g, lefts, rights, pool, slot, chosen, price, true);
    PricesCertify(g, lefts, rights, pool, slot, chosen, Cut(d), false);
    CertificatesGiveMinCostMaximum(
      chosen, pool, At(price, 1), At(price, 1 + lefts), price[0], price[lefts + rights + 1],
                                   At(Cut(d), 1), At(Cut(d), 1 + lefts));
  }

  lemma ShapeKeepsNetwork(g: Graph, h: Graph, lefts: nat, rights: nat, pool: seq<Candidate>, slot: seq<nat>)
    requires Network(g, lefts, rights, pool, slot, lefts, rights) && SameShape(g, h) && Mirrored(h)
    ensures Network(h, lefts, rights, pool, slot, lefts, rights)
  {
    forall u: nat, i: nat | ValidEdge(h, u, i)
      ensures EdgeInPlace(h, lefts, rights, pool, slot, u, i)
    {
      assert ValidEdge(g, u, i) && EdgeInPlace(g, lefts, rights, pool, slot, u, i);
      assert h[u][i] == g[u][i].(capacity := h[u][i].capacity);
    }
    forall k: nat | k < |slot|
      ensures SlotHolds(h, 1 + pool[k].left, slot[k], k)
    {
      assert SlotHolds(g, 1 + pool[k].left, slot[k], k) && ValidEdge(g, 1 + pool[k].left, slot[k]);
    }
  }

  lemma IdleIsBalanced(g: Graph, price: seq<int>)
    requires Mirrored(g) && Idle(g) && |price| == |g| && forall v :: 0 <= v < |price| ==> price[v] == 0
    requires forall u: nat, i: nat {:trigger ValidEdge(g, u, i)} :: ValidEdge(g, u, i) && g[u][i].to > u ==>
      g[u][i].cost >= 0
    ensures forall u {:trigger Net(g, u)} :: 0 <= u < |g| ==> Net(g, u) == 0
    ensures Feasible(g, price)
  {
    forall u | 0 <= u < |g|
      ensures Net(g, u) == 0
    {
      forall i: nat | i < |g[u]|
        ensures Outflow(u, g[u][i]) == 0
      {
        assert ValidEdge(g, u, i);
      }
      SumBounds(Outflows(u, g[u]), 0, 0);
    }
    forall u: nat, i: nat | Residual(g, u, i)
      ensures price[g[u][i].to] <= price[u] + g[u][i].cost
    {
      assert ValidEdge(g, u, i);
    }
  }

  /** No more units can leave the source than there are left nodes, nor reach the sink than there are right nodes. */
  lemma FlowIsBounded(g: Graph, lefts: nat, rights: nat, pool: seq<Candidate>, slot: seq<nat>)
    requires FlowState(g, lefts, rights, pool, slot)
    ensures Net(g, 0) <= lefts && -Net(g, lefts + rights + 1) <= rights
  {
    var sink := lefts + rights + 1;
    forall i: nat | i < |g[0]|
      ensures Outflow(0, g[0][i]) <= 1 && Outflow(0, g[0][i]) >= 0
    {
      assert ValidEdge(g, 0, i) && EdgeInPlace(g, lefts, rights, pool, slot, 0, i);
    }
    SumBounds(Outflows(0, g[0]), 0, 1);
    forall i: nat | i < |g[sink]|
      ensures -1 <= Outflow(sink, g[sink][i]) <= 0
    {
      assert ValidEdge(g, sink, i) && EdgeInPlace(g, lefts, rights, pool, slot, sink, i);
    }
    SumBounds(Outflows(sink, g[sink]), -1, 0);
  }

  /**
   Collects the saturated candidate edges, left node by left node. At most one
   per left node is saturated, so the list comes out ordered by (left, right)
   already and the sort the source ends with leaves it as it is.
   */
  method ReadOff(
    graph: array<seq<ResidualEdge>>, lefts: nat, ghost rights: nat, pool: seq<Candidate>, ghost slot: seq<nat>)
    returns (chosen: seq<Candidate>, ghost picks: seq<nat>)
    requires FlowState(graph[..], lefts, rights, pool, slot)
    ensures ReadsOff(graph[..], pool, slot, chosen, picks)
  {
    ghost var g := graph[..];
    chosen, picks := [], [];
    for left := 0 to lefts
      invariant ReadBefore(g, pool, slot, chosen, picks, left, 0)
    {
      var edges := graph[1 + left];
      for index := 0 to |edges|
        invariant ReadBefore(g, pool, slot, chosen, picks, left, index)
      {
        var edge := edges[index];
        ReadStep(g, lefts, rights, pool, slot, chosen, picks, left, index);
        if edge.capacity == 0 && edge.candidate.Some? {
          chosen := chosen + [pool[edge.candidate.value]];
          picks := picks + [edge.candidate.value];
        }
      }
      ReadNextNode(g, lefts, rights, pool, slot, chosen, picks, left);
    }
    ReadAll(g, lefts, rights, pool, slot, chosen, picks);
  }

  ghost predicate Passed(pool: seq<Candidate>, slot: seq<nat>, k: nat, left: nat, index: nat)
    requires k < |slot| <= |pool|
  {
    pool[k].left < left || (pool[k].left == left && slot[k] < index)
  }

  /** `ReadsOff`, restricted to the edges visited so far. */
  ghost predicate ReadBefore(
    g: Graph, pool: seq<Candidate>, slot: seq<nat>, chosen: seq<Candidate>, picks: seq<nat>, left: nat, index: nat)
  {
    && |picks| == |chosen|
    && (forall i :: 0 <= i < |picks| ==>
        Used(g, pool, slot, picks[i]) && chosen[i] == pool[picks[i]] && Passed(pool, slot, picks[i], left, index))
    && (forall k: nat :: Used(g, pool, slot, k) && Passed(pool, slot, k, left, index) ==> k in picks)
    && (forall i, j :: 0 <= i < j < |chosen| ==> chosen[i].left < chosen[j].left)
  }

  lemma ReadStep(
    g: Graph, lefts: nat, rights: nat, pool: seq<Candidate>, slot: seq<nat>,
    chosen: seq<Candidate>, picks: seq<nat>, left: nat, index: nat)
    requires FlowState(g, lefts, rights, pool, slot) && left < lefts && ValidEdge(g, 1 + left, index)
    requires ReadBefore(g, pool, slot, chosen, picks, left, index)
    ensures
      var e := g[1 + left][index];
      if e.capacity == 0 && e.candidate.Some? then
        && e.candidate.value < |pool|
        && ReadBefore(g, pool, slot, chosen + [pool[e.candidate.value]], picks + [e.candidate.value], left, index + 1)
      else ReadBefore(g, pool, slot, chosen, picks, left, index + 1)
  {
    var e := g[1 + left][index];
    assert EdgeInPlace(g, lefts, rights, pool, slot, 1 + left, index);
    forall k: nat | Used(g, pool, slot, k) && pool[k].left == left && slot[k] == index
      ensures e.capacity == 0 && e.candidate == Some(k)
    {
      assert SlotHolds(g, 1 + left, slot[k], k);
    }
    if e.capacity == 0 && e.candidate.Some? {
      var k := e.candidate.value;
      assert Used(g, pool, slot, k);
      OnlyOneRead(g, lefts, rights, pool, slot, chosen, picks, left, index, k);
      ReadOne(g, pool, slot, chosen, picks, left, index, k);
    }
  }

  lemma OnlyOneRead(
    g: Graph, lefts: nat, rights: nat, pool: seq<Candidate>, slot: seq<nat>,
    chosen: seq<Candidate>, picks: seq<nat>, left: nat, index: nat, k: nat)
    requires FlowState(g, lefts, rights, pool, slot) && left < lefts
    requires ReadBefore(g, pool, slot, chosen, picks, left, index)
    requires Used(g, pool, slot, k) && pool[k].left == left && slot[k] == index
    ensures forall i :: 0 <= i < |chosen| ==> chosen[i].left < left
  {
    forall i | 0 <= i < |chosen|
      ensures chosen[i].left < left
    {
      LeftBalance(g, lefts, rights, pool, slot, left);
      assert Used(g, pool, slot, picks[i]);
    }
  }

  lemma ReadOne(
    g: Graph, pool: seq<Candidate>, slot: seq<nat>, chosen: seq<Candidate>, picks: seq<nat>, left: nat, index: nat,
    k: nat)
    requires ReadBefore(g, pool, slot, chosen, picks, left, index)
    requires Used(g, pool, slot, k) && pool[k].left == left && slot[k] == index
    requires forall j: nat :: Used(g, pool, slot, j) && pool[j].left == left && slot[j] == index ==> j == k
    requires forall i :: 0 <= i < |chosen| ==> chosen[i].left < left
    ensures ReadBefore(g, pool, slot, chosen + [pool[k]], picks + [k], left, index + 1)
  {
    forall j: nat | Used(g, pool, slot, j) && Passed(pool, slot, j, left, index + 1)
      ensures j in picks + [k]
    {
      assert Passed(pool, slot, j, left, index) || j == k;
    }
  }

  lemma ReadNextNode(
    g: Graph, lefts: nat, rights: nat, pool: seq<Candidate>, slot: seq<nat>, chosen: seq<Candidate>, picks: seq<nat>,
    left: nat)
    requires FlowState(g, lefts, rights, pool, slot) && left < lefts
    requires ReadBefore(g, pool, slot, chosen, picks, left, |g[1 + left]|)
    ensures ReadBefore(g, pool, slot, chosen, picks, left + 1, 0)
  {
  }

  lemma ReadAll(
    g: Graph, lefts: nat, rights: nat, pool: seq<Candidate>, slot: seq<nat>, chosen: seq<Candidate>, picks: seq<nat>)
    requires FlowState(g, lefts, rights, pool, slot)
    requires ReadBefore(g, pool, slot, chosen, picks, lefts, 0)
    ensures ReadsOff(g, pool, slot, chosen, picks)
  {
    forall k: nat | Used(g, pool, slot, k)
      ensures Passed(pool, slot, k, lefts, 0)
    {
      assert slot[k] >= 0;
    }
  }

  /** One augmentation keeps the network balanced and finds prices for the changed residual graph. */
  method AugmentOnce(
    graph: array<seq<ResidualEdge>>, previous: array<Option<(nat, nat)>>, lefts: nat, rights: nat,
    ghost pool: seq<Candidate>, ghost slot: seq<nat>, ghost price: seq<int>, ghost d: Distances, ghost rank: seq<nat>)
    returns (ghost price': seq<int>)
    requires FlowState(graph[..], lefts, rights, pool, slot) && Feasible(graph[..], price)
    requires Tree(graph[..], price, d, previous[..], rank) && Converged(graph[..], d) && d[lefts + rights + 1].Some?
    modifies graph
    ensures FlowState(graph[..], lefts, rights, pool, slot) && Feasible(graph[..], price')
    ensures Net(graph[..], 0) == Net(old(graph[..]), 0) + 1
    ensures Net(graph[..], lefts + rights + 1) == Net(old(graph[..]), lefts + rights + 1) - 1
  {
    ghost var g0 := graph[..];
    Augment(graph, previous, lefts + rights + 1, price, d, rank);
    ghost var g := graph[..];
    ShapeKeepsNetwork(g0, g, lefts, rights, pool, slot);
    ghost var lift := SomeLift(d, price);
    NextPricesFeasible(g0, g, d, price, lift);
    price' := NextPrices(d, price, lift);
    forall u | 0 < u <= lefts + rights
      ensures Net(g, u) == 0
    {
      assert Net(g0, u) == 0;
    }
  }

  lemma NothingToMatch(lefts: nat, rights: nat, pool: seq<Candidate>)
    requires forall k :: 0 <= k < |pool| ==> pool[k].left < lefts && pool[k].right < rights
    ensures lefts == 0 || rights == 0 || pool == [] ==> MinCostMaximum([], pool)
  {
    if pool != [] {
      assert pool[0].left < lefts && pool[0].right < rights;
    }
    forall other | IsMatching(other, pool)
      ensures other != [] ==> pool != []
    {
      if other != [] {
        assert other[0] in pool;
      }
    }
  }

  method SparseMinCostMatching(lefts: nat, rights: nat, pool: seq<Candidate>) returns (chosen: seq<Candidate>)
    requires forall k :: 0 <= k < |pool| ==> pool[k].left < lefts && pool[k].right < rights
    ensures MinCostMaximum(chosen, pool)
    ensures forall i, j :: 0 <= i < j < |chosen| ==> chosen[i].left < chosen[j].left
  {
    if lefts == 0 || rights == 0 || pool == [] {
      NothingToMatch(lefts, rights, pool);
      return [];
    }
    var graph, slot := BuildGraph(lefts, rights, pool);
    ghost var price: seq<int> := seq(graph.Length, _ => 0);
    forall u: nat, i: nat | ValidEdge(graph[..], u, i) && graph[u][i].to > u
      ensures graph[u][i].cost >= 0
    {
      assert EdgeInPlace(graph[..], lefts, rights, pool, slot, u, i);
    }
    IdleIsBalanced(graph[..], price);
    ghost var units: nat := 0;
    while true
      invariant graph.Length == |price| == lefts + rights + 2
      invariant FlowState(graph[..], lefts, rights, pool, slot) && Feasible(graph[..], price)
      invariant Net(graph[..], 0) == units && -Net(graph[..], lefts + rights + 1) == units
      invariant units <= lefts && units <= rights
      decreases lefts - units
    {
      var distance, previous, rank := ShortestPaths(graph, price);
      if previous[lefts + rights + 1].None? {
        ghost var picks;
        chosen, picks := ReadOff(graph, lefts, rights, pool, slot);
        StuckIsOptimal(graph[..], lefts, rights, pool, slot, chosen, picks, price, distance[..]);
        return;
      }
      price := AugmentOnce(graph, previous, lefts, rights, pool, slot, price, distance[..], rank);
      units := units + 1;
      FlowIsBounded(graph[..], lefts, rights, pool, slot);
    }
  }
}
