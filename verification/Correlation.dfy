/**
 `correlate_pair` and `correlate_adjacent`: partition both traces by flow key,
 match each partition, and label the edge by the evidence.

 A pairing names events by their position in the two traces. The result is
 compared with every pairing of the whole traces, not of one partition.
 */
module Correlation {
  import opened Common
  import opened FlowKeys
  import opened Arrange
  import opened Matching
  import opened Sweep
  import opened SparseMatching

  datatype TraceEvent = TraceEvent(
    handle: string, timestamp: u64, packetLen: nat, tuple: Option<PacketTuple>, tunnel: Option<PacketTuple>)

  datatype SensorTrace = SensorTrace(
    sensorId: string, startedUnix: u64, startedMonotonic: u64, clockUncertainty: u64, events: seq<TraceEvent>)

  datatype EvidenceLevel = Correlated | Candidates | Unknown

  datatype CorrelationEdge = CorrelationEdge(
    fromSensor: string, toSensor: string, level: EvidenceLevel, confidence: nat,
    sourceEvents: seq<string>, targetEvents: seq<string>, matches: nat)

  function GlobalTimestamp(trace: SensorTrace, event: TraceEvent): u64 {
    SatAdd(trace.startedUnix, SatSub(event.timestamp, trace.startedMonotonic))
  }

  /** The events that carry a tuple, on the shared clock. */
  function ComparableEvents(trace: SensorTrace, n: nat): (r: seq<ComparableEvent>)
    requires n <= |trace.events|
    ensures forall i :: 0 <= i < |r| ==> r[i].uncertainty == trace.clockUncertainty
  {
    if n == 0 then []
    else
      var e := trace.events[n - 1];
      var before := ComparableEvents(trace, n - 1);
      if e.tuple.Some? then
        before + [ComparableEvent(
          e.handle, GlobalTimestamp(trace, e), trace.clockUncertainty, e.packetLen, e.tuple.value, e.tunnel)]
      else before
  }

  function FlowOf(event: ComparableEvent): FlowKey {
    FromTuple(event.tuple)
  }

  // ----- pairings of whole traces -----

  type Pairing = seq<(nat, nat)>

  /** Same flow, and within the window plus both clock uncertainties. */
  predicate Admissible(left: seq<ComparableEvent>, right: seq<ComparableEvent>, window: u64, p: (nat, nat)) {
    && p.0 < |left| && p.1 < |right|
    && FlowOf(left[p.0]) == FlowOf(right[p.1])
    && Viable(left[p.0], right[p.1], window)
  }

  ghost predicate AllAdmissible(left: seq<ComparableEvent>, right: seq<ComparableEvent>, window: u64, pairs: Pairing) {
    forall p {:trigger p in pairs} :: p in pairs ==> Admissible(left, right, window, p)
  }

  ghost predicate Disjoint(pairs: Pairing) {
    forall i, j :: 0 <= i < j < |pairs| ==> pairs[i].0 != pairs[j].0 && pairs[i].1 != pairs[j].1
  }

  ghost predicate IsPairing(left: seq<ComparableEvent>, right: seq<ComparableEvent>, window: u64, pairs: Pairing) {
    AllAdmissible(left, right, window, pairs) && Disjoint(pairs)
  }

  function CostOf(left: seq<ComparableEvent>, right: seq<ComparableEvent>, window: u64, p: (nat, nat)): nat {
    if p.0 < |left| && p.1 < |right| then PairCost(left[p.0], right[p.1], window) else 0
  }

  function PairingCost(left: seq<ComparableEvent>, right: seq<ComparableEvent>, window: u64, pairs: Pairing): nat {
    if pairs == [] then 0
    else PairingCost(left, right, window, pairs[..|pairs| - 1]) + CostOf(left, right, window, pairs[|pairs| - 1])
  }

  predicate InFlow(left: seq<ComparableEvent>, p: (nat, nat), flow: FlowKey) {
    p.0 < |left| && FlowOf(left[p.0]) == flow
  }

  ghost predicate Confined(left: seq<ComparableEvent>, pairs: Pairing, flows: set<FlowKey>) {
    forall p {:trigger p in pairs} :: p in pairs ==> p.0 < |left| && FlowOf(left[p.0]) in flows
  }

  ghost predicate NoWorse(
    left: seq<ComparableEvent>, right: seq<ComparableEvent>, window: u64, best: Pairing, other: Pairing)
  {
    && |other| <= |best|
    && (|other| == |best| ==> PairingCost(left, right, window, best) <= PairingCost(left, right, window, other))
  }

  /** No pairing of the same flows is larger, and none as large is cheaper. */
  ghost predicate BestWithin(
    left: seq<ComparableEvent>, right: seq<ComparableEvent>, window: u64, flows: set<FlowKey>, best: Pairing)
  {
    && IsPairing(left, right, window, best) && Confined(left, best, flows)
    && forall other :: IsPairing(left, right, window, other) && Confined(left, other, flows) ==>
      NoWorse(left, right, window, best, other)
  }

  /** The same over all flows at once. */
  ghost predicate BestPairing(left: seq<ComparableEvent>, right: seq<ComparableEvent>, window: u64, best: Pairing) {
    && IsPairing(left, right, window, best)
    && forall other :: IsPairing(left, right, window, other) ==> NoWorse(left, right, window, best, other)
  }

  // ----- splitting a pairing by flow -----

  /** The pairs of `flow`, or those of every other flow. */
  function Part(left: seq<ComparableEvent>, pairs: Pairing, flow: FlowKey, inside: bool): Pairing {
    if pairs == [] then []
    else
      var before := Part(left, pairs[..|pairs| - 1], flow, inside);
      var last := pairs[|pairs| - 1];
      if InFlow(left, last, flow) == inside then before + [last] else before
  }

  lemma {:induction false} PartMembers(
    left: seq<ComparableEvent>, pairs: Pairing, flow: FlowKey, inside: bool, p: (nat, nat))
    ensures p in Part(left, pairs, flow, inside) <==> p in pairs && InFlow(left, p, flow) == inside
  {
    if pairs != [] {
      PartMembers(left, pairs[..|pairs| - 1], flow, inside, p);
      assert pairs == pairs[..|pairs| - 1] + [pairs[|pairs| - 1]];
    }
  }

  lemma {:induction false} PartDisjoint(left: seq<ComparableEvent>, pairs: Pairing, flow: FlowKey, inside: bool)
    requires Disjoint(pairs)
    ensures Disjoint(Part(left, pairs, flow, inside))
  {
    if pairs != [] {
      var front, last := pairs[..|pairs| - 1], pairs[|pairs| - 1];
      var before := Part(left, front, flow, inside);
      PartDisjoint(left, front, flow, inside);
      forall i | 0 <= i < |before|
        ensures before[i].0 != last.0 && before[i].1 != last.1
      {
        PartMembers(left, front, flow, inside, before[i]);
        var j :| 0 <= j < |front| && front[j] == before[i];
        assert pairs[j] == before[i];
      }
    }
  }

  lemma {:induction false} PartsAddUp(
    left: seq<ComparableEvent>, right: seq<ComparableEvent>, window: u64, pairs: Pairing, flow: FlowKey)
    ensures
      var (inner, outer) := (Part(left, pairs, flow, true), Part(left, pairs, flow, false));
      && |pairs| == |inner| + |outer|
      && PairingCost(left, right, window, pairs)
        == PairingCost(left, right, window, inner) + PairingCost(left, right, window, outer)
  {
    if pairs != [] {
      var front, last := pairs[..|pairs| - 1], pairs[|pairs| - 1];
      PartsAddUp(left, right, window, front, flow);
      var before := Part(left, front, flow, InFlow(left, last, flow));
      assert (before + [last])[..|before|] == before;
    }
  }

  lemma {:induction false} CostAppend(
    left: seq<ComparableEvent>, right: seq<ComparableEvent>, window: u64, a: Pairing, b: Pairing)
    ensures PairingCost(left, right, window, a + b)
      == PairingCost(left, right, window, a) + PairingCost(left, right, window, b)
  {
    if b == [] {
      assert a + b == a;
    } else {
      CostAppend(left, right, window, a, b[..|b| - 1]);
      assert (a + b)[..|a + b| - 1] == a + b[..|b| - 1];
    }
  }

  lemma UnionIsPairing(
    left: seq<ComparableEvent>, right: seq<ComparableEvent>, window: u64, done: set<FlowKey>, flow: FlowKey,
    best: Pairing, more: Pairing)
    requires flow !in done
    requires IsPairing(left, right, window, best) && Confined(left, best, done)
    requires IsPairing(left, right, window, more) && Confined(left, more, {flow})
    ensures IsPairing(left, right, window, best + more) && Confined(left, best + more, done + {flow})
  {
    forall i, j | 0 <= i < |best| && 0 <= j < |more|
      ensures best[i].0 != more[j].0 && best[i].1 != more[j].1
    {
      assert best[i] in best && more[j] in more;
    }
  }

  /** Best in each of two disjoint sets of flows is best in their union. */
  lemma BestOfUnion(
    left: seq<ComparableEvent>, right: seq<ComparableEvent>, window: u64, done: set<FlowKey>, flow: FlowKey,
    best: Pairing, more: Pairing)
    requires flow !in done
    requires BestWithin(left, right, window, done, best) && BestWithin(left, right, window, {flow}, more)
    ensures BestWithin(left, right, window, done + {flow}, best + more)
  {
    UnionIsPairing(left, right, window, done, flow, best, more);
    forall other | IsPairing(left, right, window, other) && Confined(left, other, done + {flow})
      ensures NoWorse(left, right, window, best + more, other)
    {
      var (inner, outer) := (Part(left, other, flow, true), Part(left, other, flow, false));
      SplitPairing(left, right, window, other, done, flow);
      assert NoWorse(left, right, window, best, outer) && NoWorse(left, right, window, more, inner);
      PartsAddUp(left, right, window, other, flow);
      CostAppend(left, right, window, best, more);
    }
  }

  lemma SplitPairing(
    left: seq<ComparableEvent>, right: seq<ComparableEvent>, window: u64, other: Pairing, done: set<FlowKey>,
    flow: FlowKey)
    requires IsPairing(left, right, window, other) && Confined(left, other, done + {flow})
    ensures IsPairing(left, right, window, Part(left, other, flow, true))
    ensures Confined(left, Part(left, other, flow, true), {flow})
    ensures IsPairing(left, right, window, Part(left, other, flow, false))
    ensures Confined(left, Part(left, other, flow, false), done)
  {
    PartDisjoint(left, other, flow, true);
    PartDisjoint(left, other, flow, false);
    var (inner, outer) := (Part(left, other, flow, true), Part(left, other, flow, false));
    forall p | p in inner
      ensures p in other && InFlow(left, p, flow)
    {
      PartMembers(left, other, flow, true, p);
    }
    forall p | p in outer
      ensures p in other && !InFlow(left, p, flow)
    {
      PartMembers(left, other, flow, false, p);
    }
  }

  // ----- one flow -----

  /** `sorted` lists the events of `flow`, and `index` says where in the trace each one is. */
  ghost predicate Lists(events: seq<ComparableEvent>, flow: FlowKey, sorted: seq<ComparableEvent>, index: seq<nat>) {
    && |index| == |sorted| && Distinct(index)
    && (forall a :: 0 <= a < |index| ==>
      index[a] < |events| && events[index[a]] == sorted[a] && FlowOf(sorted[a]) == flow)
    && (forall i :: 0 <= i < |events| && FlowOf(events[i]) == flow ==> i in index)
  }

  ghost predicate Translates(chosen: seq<Candidate>, pairs: Pairing, leftIndex: seq<nat>, rightIndex: seq<nat>) {
    && |pairs| == |chosen|
    && forall k :: 0 <= k < |pairs| ==>
      && chosen[k].left < |leftIndex| && chosen[k].right < |rightIndex|
      && pairs[k] == (leftIndex[chosen[k].left], rightIndex[chosen[k].right])
  }

  lemma {:induction false} SameCost(
    left: seq<ComparableEvent>, right: seq<ComparableEvent>, window: u64, chosen: seq<Candidate>, pairs: Pairing)
    requires |pairs| == |chosen|
    requires forall k :: 0 <= k < |pairs| ==> chosen[k].cost == CostOf(left, right, window, pairs[k])
    ensures TotalCost(chosen) == PairingCost(left, right, window, pairs)
  {
    if pairs != [] {
      SameCost(left, right, window, chosen[..|chosen| - 1], pairs[..|pairs| - 1]);
    }
  }

  ghost function IndexIn(s: seq<nat>, x: nat): (i: nat)
    requires x in s
    ensures i < |s| && s[i] == x
  {
    var i :| 0 <= i < |s| && s[i] == x;
    i
  }

  /** An admissible pair of this flow, as a candidate over the two sorted lists. */
  lemma AdmissibleIsCandidate(
    left: seq<ComparableEvent>, right: seq<ComparableEvent>, window: u64, flow: FlowKey,
    ls: seq<ComparableEvent>, li: seq<nat>, rs: seq<ComparableEvent>, ri: seq<nat>, p: (nat, nat))
    returns (c: Candidate)
    requires Lists(left, flow, ls, li) && Lists(right, flow, rs, ri)
    requires Admissible(left, right, window, p) && InFlow(left, p, flow)
    ensures c in AllPairs(ls, rs, window, |ls|)
    ensures c.left < |li| && c.right < |ri| && p == (li[c.left], ri[c.right])
    ensures c.cost == CostOf(left, right, window, p)
  {
    c := PairAt(ls, rs, window, IndexIn(li, p.0), IndexIn(ri, p.1));
    AllPairsHolds(ls, rs, window, |ls|, c);
  }

  lemma CandidateIsAdmissible(
    left: seq<ComparableEvent>, right: seq<ComparableEvent>, window: u64, flow: FlowKey,
    ls: seq<ComparableEvent>, li: seq<nat>, rs: seq<ComparableEvent>, ri: seq<nat>, c: Candidate)
    requires Lists(left, flow, ls, li) && Lists(right, flow, rs, ri) && c in AllPairs(ls, rs, window, |ls|)
    ensures c.left < |li| && c.right < |ri|
    ensures
      var p := (li[c.left], ri[c.right]);
      && Admissible(left, right, window, p) && InFlow(left, p, flow)
      && c.cost == CostOf(left, right, window, p)
      && c.strong == Strong(left[p.0], right[p.1])
  {
    AllPairsHolds(ls, rs, window, |ls|, c);
  }

  lemma {:induction false} ToCandidates(
    left: seq<ComparableEvent>, right: seq<ComparableEvent>, window: u64, flow: FlowKey,
    ls: seq<ComparableEvent>, li: seq<nat>, rs: seq<ComparableEvent>, ri: seq<nat>, pairs: Pairing)
    returns (chosen: seq<Candidate>)
    requires Lists(left, flow, ls, li) && Lists(right, flow, rs, ri)
    requires AllAdmissible(left, right, window, pairs) && Confined(left, pairs, {flow})
    ensures Translates(chosen, pairs, li, ri)
    ensures forall c :: c in chosen ==> c in AllPairs(ls, rs, window, |ls|)
    ensures forall k :: 0 <= k < |pairs| ==> chosen[k].cost == CostOf(left, right, window, pairs[k])
  {
    if pairs == [] {
      return [];
    }
    var n := |pairs| - 1;
    PrefixInFlow(left, right, window, flow, pairs, n);
    var before := ToCandidates(left, right, window, flow, ls, li, rs, ri, pairs[..n]);
    var c := AdmissibleIsCandidate(left, right, window, flow, ls, li, rs, ri, pairs[n]);
    chosen := before + [c];
  }

  lemma PrefixInFlow(
    left: seq<ComparableEvent>, right: seq<ComparableEvent>, window: u64, flow: FlowKey, pairs: Pairing, n: nat)
    requires AllAdmissible(left, right, window, pairs) && Confined(left, pairs, {flow}) && n < |pairs|
    ensures AllAdmissible(left, right, window, pairs[..n]) && Confined(left, pairs[..n], {flow})
    ensures Admissible(left, right, window, pairs[n]) && InFlow(left, pairs[n], flow)
  {
    assert pairs[n] in pairs && forall p :: p in pairs[..n] ==> p in pairs;
  }

  lemma TranslatesDisjoint(chosen: seq<Candidate>, pairs: Pairing, leftIndex: seq<nat>, rightIndex: seq<nat>)
    requires Translates(chosen, pairs, leftIndex, rightIndex) && Distinct(leftIndex) && Distinct(rightIndex)
    ensures Disjoint(pairs) <==> OneToOne(chosen)
  {
    forall i, j | 0 <= i < j < |pairs|
      ensures pairs[i].0 == pairs[j].0 <==> chosen[i].left == chosen[j].left
      ensures pairs[i].1 == pairs[j].1 <==> chosen[i].right == chosen[j].right
    {
    }
  }

  lemma FromCandidates(
    left: seq<ComparableEvent>, right: seq<ComparableEvent>, window: u64, flow: FlowKey,
    ls: seq<ComparableEvent>, li: seq<nat>, rs: seq<ComparableEvent>, ri: seq<nat>, chosen: seq<Candidate>,
    pairs: Pairing)
    requires Lists(left, flow, ls, li) && Lists(right, flow, rs, ri)
    requires IsMatching(chosen, AllPairs(ls, rs, window, |ls|)) && Translates(chosen, pairs, li, ri)
    ensures IsPairing(left, right, window, pairs) && Confined(left, pairs, {flow})
    ensures TotalCost(chosen) == PairingCost(left, right, window, pairs)
    ensures forall k :: 0 <= k < |pairs| ==>
      Admissible(left, right, window, pairs[k]) && chosen[k].strong == Strong(left[pairs[k].0], right[pairs[k].1])
  {
    TranslatesDisjoint(chosen, pairs, li, ri);
    forall k | 0 <= k < |pairs|
      ensures Admissible(left, right, window, pairs[k]) && InFlow(left, pairs[k], flow)
      ensures chosen[k].cost == CostOf(left, right, window, pairs[k])
      ensures chosen[k].strong == Strong(left[pairs[k].0], right[pairs[k].1])
    {
      CandidateIsAdmissible(left, right, window, flow, ls, li, rs, ri, chosen[k]);
    }
    SameCost(left, right, window, chosen, pairs);
  }

  lemma MatchingIsBestInFlow(
    left: seq<ComparableEvent>, right: seq<ComparableEvent>, window: u64, flow: FlowKey,
    ls: seq<ComparableEvent>, li: seq<nat>, rs: seq<ComparableEvent>, ri: seq<nat>, chosen: seq<Candidate>,
    pairs: Pairing)
    requires Lists(left, flow, ls, li) && Lists(right, flow, rs, ri)
    requires MinCostMaximum(chosen, AllPairs(ls, rs, window, |ls|)) && Translates(chosen, pairs, li, ri)
    ensures BestWithin(left, right, window, {flow}, pairs)
  {
    FromCandidates(left, right, window, flow, ls, li, rs, ri, chosen, pairs);
    forall other | IsPairing(left, right, window, other) && Confined(left, other, {flow})
      ensures NoWorse(left, right, window, pairs, other)
    {
      var candidates := ToCandidates(left, right, window, flow, ls, li, rs, ri, other);
      TranslatesDisjoint(candidates, other, li, ri);
      SameCost(left, right, window, candidates, other);
      assert IsMatching(candidates, AllPairs(ls, rs, window, |ls|));
    }
  }

  /** A flow seen on one side only admits no pair. */
  lemma OneSidedFlow(
    left: seq<ComparableEvent>, right: seq<ComparableEvent>, window: u64, flow: FlowKey, other: Pairing)
    requires IsPairing(left, right, window, other) && Confined(left, other, {flow})
    ensures other != [] ==> exists j :: 0 <= j < |right| && FlowOf(right[j]) == flow
  {
    if other != [] {
      var p := other[0];
      assert p in other && Admissible(left, right, window, p);
      assert FlowOf(right[p.1]) == flow;
    }
  }

  // ----- the two traces of an edge -----

  /** Where the events of each flow are, in trace order. */
  ghost predicate Grouped(
    events: seq<ComparableEvent>, n: nat, groups: map<FlowKey, seq<ComparableEvent>>, members: map<FlowKey, seq<nat>>)
  {
    && n <= |events| && groups.Keys == members.Keys
    && (forall flow :: flow in groups ==> Lists(events[..n], flow, groups[flow], members[flow]))
    && (forall i :: 0 <= i < n ==> FlowOf(events[i]) in groups)
  }

  method GroupByFlow(events: seq<ComparableEvent>)
    returns (groups: map<FlowKey, seq<ComparableEvent>>, ghost members: map<FlowKey, seq<nat>>)
    ensures Grouped(events, |events|, groups, members)
  {
    groups, members := map[], map[];
    for n := 0 to |events|
      invariant Grouped(events, n, groups, members)
    {
      var flow := FlowOf(events[n]);
      GroupOne(events, n, groups, members);
      ghost var at := if flow in members then members[flow] else [];
      groups := groups[flow := (if flow in groups then groups[flow] else []) + [events[n]]];
      members := members[flow := at + [n]];
    }
  }

  lemma GroupOne(
    events: seq<ComparableEvent>, n: nat, groups: map<FlowKey, seq<ComparableEvent>>, members: map<FlowKey, seq<nat>>)
    requires n < |events| && Grouped(events, n, groups, members)
    ensures
      var flow := FlowOf(events[n]);
      Grouped(events, n + 1,
        groups[flow := (if flow in groups then groups[flow] else []) + [events[n]]],
        members[flow := (if flow in members then members[flow] else []) + [n]])
  {
    var flow := FlowOf(events[n]);
    var (g, m) := (if flow in groups then groups[flow] else [], if flow in members then members[flow] else []);
    var (groups', members') := (groups[flow := g + [events[n]]], members[flow := m + [n]]);
    forall other | other in groups'
      ensures Lists(events[..n + 1], other, groups'[other], members'[other])
    {
      if other == flow {
        ListsOfFlow(events, n, groups, members);
        ListsMore(events, n, flow, g, m);
      } else {
        ListsMore(events, n, other, groups[other], members[other]);
      }
    }
  }

  lemma ListsOfFlow(
    events: seq<ComparableEvent>, n: nat, groups: map<FlowKey, seq<ComparableEvent>>, members: map<FlowKey, seq<nat>>)
    requires n < |events| && Grouped(events, n, groups, members)
    ensures
      var flow := FlowOf(events[n]);
      Lists(events[..n], flow, if flow in groups then groups[flow] else [],
        if flow in members then members[flow] else [])
  {
  }

  lemma ListsMore(events: seq<ComparableEvent>, n: nat, flow: FlowKey, g: seq<ComparableEvent>, m: seq<nat>)
    requires n < |events| && Lists(events[..n], flow, g, m)
    ensures
      if FlowOf(events[n]) == flow then Lists(events[..n + 1], flow, g + [events[n]], m + [n])
      else Lists(events[..n + 1], flow, g, m)
  {
    forall i | 0 <= i < n && FlowOf(events[i]) == flow
      ensures i in m
    {
      assert events[..n][i] == events[i];
    }
    forall a | 0 <= a < |m|
      ensures m[a] < n && events[..n + 1][m[a]] == g[a]
    {
      assert events[..n][m[a]] == g[a];
    }
  }

  function EventKey(event: ComparableEvent): Key {
    (event.timestamp, event.handle)
  }

  /** Sorting the events of a flow keeps track of where each came from. */
  lemma ArrangedLists(
    events: seq<ComparableEvent>, flow: FlowKey, group: seq<ComparableEvent>, members: seq<nat>,
    arranged: seq<ComparableEvent>, order: seq<nat>)
    returns (index: seq<nat>)
    requires Lists(events, flow, group, members) && Arranges(group, arranged, order)
    ensures Lists(events, flow, arranged, index)
  {
    index := seq(|order|, a requires 0 <= a < |order| => members[order[a]]);
    forall i | 0 <= i < |events| && FlowOf(events[i]) == flow
      ensures i in index
    {
      var b :| 0 <= b < |members| && members[b] == i;
      assert b in order;
      var a :| 0 <= a < |order| && order[a] == b;
      assert index[a] == i;
    }
  }

  /** The pairs matched within one flow, with what the match is worth as evidence. */
  ghost predicate Matched(
    left: seq<ComparableEvent>, right: seq<ComparableEvent>, pairs: Pairing,
    matched: seq<(ComparableEvent, ComparableEvent, bool)>)
  {
    && |matched| == |pairs|
    && forall k :: 0 <= k < |pairs| ==>
      && pairs[k].0 < |left| && pairs[k].1 < |right|
      && matched[k] == (left[pairs[k].0], right[pairs[k].1], Strong(left[pairs[k].0], right[pairs[k].1]))
  }

  method SortFlow(events: seq<ComparableEvent>, flow: FlowKey, group: seq<ComparableEvent>, ghost members: seq<nat>)
    returns (sorted: seq<ComparableEvent>, ghost index: seq<nat>)
    requires Lists(events, flow, group, members)
    ensures Lists(events, flow, sorted, index) && Sorted(sorted)
  {
    ghost var order;
    sorted, order := SortByKey(group, EventKey);
    index := ArrangedLists(events, flow, group, members, sorted, order);
    OrderedIsSorted(sorted);
  }

  lemma SameUncertainty(events: seq<ComparableEvent>, flow: FlowKey, sorted: seq<ComparableEvent>, index: seq<nat>)
    requires Lists(events, flow, sorted, index)
    requires forall i, j :: 0 <= i < j < |events| ==> events[i].uncertainty == events[j].uncertainty
    ensures forall i, j :: 0 <= i < j < |sorted| ==> sorted[i].uncertainty == sorted[j].uncertainty
  {
    forall i, j | 0 <= i < j < |sorted|
      ensures sorted[i].uncertainty == sorted[j].uncertainty
    {
      assert events[index[i]] == sorted[i] && events[index[j]] == sorted[j];
    }
  }

  lemma CandidatesInRange(ls: seq<ComparableEvent>, rs: seq<ComparableEvent>, window: u64, candidates: seq<Candidate>)
    requires forall k :: 0 <= k < |candidates| ==> candidates[k] in AllPairs(ls, rs, window, |ls|)
    ensures forall k :: 0 <= k < |candidates| ==> candidates[k].left < |ls| && candidates[k].right < |rs|
  {
    forall k | 0 <= k < |candidates|
      ensures candidates[k].left < |ls| && candidates[k].right < |rs|
    {
      AllPairsHolds(ls, rs, window, |ls|, candidates[k]);
    }
  }

  /** The events the chosen candidates name, and where those are in the two traces. */
  method LookUp(
    ls: seq<ComparableEvent>, ghost li: seq<nat>, rs: seq<ComparableEvent>, ghost ri: seq<nat>, chosen: seq<Candidate>)
    returns (matched: seq<(ComparableEvent, ComparableEvent, bool)>, ghost pairs: Pairing)
    requires |ls| == |li| && |rs| == |ri|
    requires forall k :: 0 <= k < |chosen| ==> chosen[k].left < |ls| && chosen[k].right < |rs|
    ensures Translates(chosen, pairs, li, ri)
    ensures |matched| == |chosen| && forall k :: 0 <= k < |chosen| ==>
      matched[k] == (ls[chosen[k].left], rs[chosen[k].right], chosen[k].strong)
  {
    pairs := seq(|chosen|, k requires 0 <= k < |chosen| => (li[chosen[k].left], ri[chosen[k].right]));
    matched := seq(|chosen|,
      k requires 0 <= k < |chosen| => (ls[chosen[k].left], rs[chosen[k].right], chosen[k].strong));
  }

  method MatchFlow(
    left: seq<ComparableEvent>, right: seq<ComparableEvent>, window: u64, flow: FlowKey,
    leftFlow: seq<ComparableEvent>, rightFlow: seq<ComparableEvent>, ghost leftMembers: seq<nat>,
    ghost rightMembers: seq<nat>)
    returns (matched: seq<(ComparableEvent, ComparableEvent, bool)>, ghost pairs: Pairing)
    requires Lists(left, flow, leftFlow, leftMembers) && Lists(right, flow, rightFlow, rightMembers)
    requires forall i, j :: 0 <= i < j < |left| ==> left[i].uncertainty == left[j].uncertainty
    ensures BestWithin(left, right, window, {flow}, pairs)
    ensures Matched(left, right, pairs, matched)
  {
    var ls, li := SortFlow(left, flow, leftFlow, leftMembers);
    var rs, ri := SortFlow(right, flow, rightFlow, rightMembers);
    SameUncertainty(left, flow, ls, li);
    var candidates := CorrelationCandidates(ls, rs, window);
    CandidatesInRange(ls, rs, window, candidates);
    var chosen := SparseMinCostMatching(|ls|, |rs|, candidates);
    CandidatesInRange(ls, rs, window, chosen);
    matched, pairs := LookUp(ls, li, rs, ri, chosen);
    ChosenAreMatched(left, right, window, flow, ls, li, rs, ri, chosen, pairs, matched);
    MatchingIsBestInFlow(left, right, window, flow, ls, li, rs, ri, chosen, pairs);
  }

  lemma ChosenAreMatched(
    left: seq<ComparableEvent>, right: seq<ComparableEvent>, window: u64, flow: FlowKey,
    ls: seq<ComparableEvent>, li: seq<nat>, rs: seq<ComparableEvent>, ri: seq<nat>, chosen: seq<Candidate>,
    pairs: Pairing,
    matched: seq<(ComparableEvent, ComparableEvent, bool)>)
    requires Lists(left, flow, ls, li) && Lists(right, flow, rs, ri)
    requires IsMatching(chosen, AllPairs(ls, rs, window, |ls|)) && Translates(chosen, pairs, li, ri)
    requires |matched| == |chosen| && forall k :: 0 <= k < |chosen| ==>
      && chosen[k].left < |ls| && chosen[k].right < |rs|
      && matched[k] == (ls[chosen[k].left], rs[chosen[k].right], chosen[k].strong)
    ensures Matched(left, right, pairs, matched)
  {
    FromCandidates(left, right, window, flow, ls, li, rs, ri, chosen, pairs);
    forall k | 0 <= k < |pairs|
      ensures pairs[k].0 < |left| && pairs[k].1 < |right|
      ensures matched[k] == (left[pairs[k].0], right[pairs[k].1], Strong(left[pairs[k].0], right[pairs[k].1]))
    {
      assert Admissible(left, right, window, pairs[k]);
      assert pairs[k] == (li[chosen[k].left], ri[chosen[k].right]);
    }
  }

  lemma OrderedIsSorted(events: seq<ComparableEvent>)
    requires Ordered(events, EventKey)
    ensures Sorted(events)
  {
    forall i, j | 0 <= i < j < |events|
      ensures events[i].timestamp <= events[j].timestamp
    {
      assert KeyLeq(EventKey(events[i]), EventKey(events[j]));
    }
  }

  lemma MatchedAppend(
    left: seq<ComparableEvent>, right: seq<ComparableEvent>, p: Pairing, q: Pairing,
    m: seq<(ComparableEvent, ComparableEvent, bool)>, n: seq<(ComparableEvent, ComparableEvent, bool)>)
    requires Matched(left, right, p, m) && Matched(left, right, q, n)
    ensures Matched(left, right, p + q, m + n)
  {
  }

  /** Flow by flow, over both traces. */
  method MatchFlows(left: seq<ComparableEvent>, right: seq<ComparableEvent>, window: u64)
    returns (matched: seq<(ComparableEvent, ComparableEvent, bool)>, ghost best: Pairing)
    requires forall i, j :: 0 <= i < j < |left| ==> left[i].uncertainty == left[j].uncertainty
    ensures BestPairing(left, right, window, best) && Matched(left, right, best, matched)
  {
    var leftByFlow, leftMembers := GroupByFlow(left);
    var rightByFlow, rightMembers := GroupByFlow(right);
    assert left[..|left|] == left && right[..|right|] == right;
    matched, best := [], [];
    var remaining := leftByFlow.Keys;
    ghost var done: set<FlowKey> := {};
    NothingIsBest(left, right, window);
    while remaining != {}
      invariant done + remaining == leftByFlow.Keys && done !! remaining
      invariant BestWithin(left, right, window, done, best) && Matched(left, right, best, matched)
      decreases remaining
    {
      var flow :| flow in remaining;
      var more := [];
      ghost var pairs: Pairing := [];
      if flow in rightByFlow {
        more, pairs := MatchFlow(
          left, right, window, flow, leftByFlow[flow], rightByFlow[flow], leftMembers[flow], rightMembers[flow]);
      } else {
        forall other | IsPairing(left, right, window, other) && Confined(left, other, {flow})
          ensures other == []
        {
          OneSidedFlow(left, right, window, flow, other);
        }
      }
      BestOfUnion(left, right, window, done, flow, best, pairs);
      MatchedAppend(left, right, best, pairs, matched, more);
      matched, best := matched + more, best + pairs;
      remaining, done := remaining - {flow}, done + {flow};
    }
    forall other | IsPairing(left, right, window, other)
      ensures NoWorse(left, right, window, best, other)
    {
      forall p: (nat, nat) | p in other
        ensures p.0 < |left| && FlowOf(left[p.0]) in done
      {
        assert Admissible(left, right, window, p);
      }
    }
  }

  lemma ConfinedNeedsFlows(left: seq<ComparableEvent>, pairs: Pairing, flows: set<FlowKey>)
    requires Confined(left, pairs, flows)
    ensures pairs != [] ==> flows != {}
  {
    if pairs != [] {
      assert pairs[0] in pairs;
      assert FlowOf(left[pairs[0].0]) in flows;
    }
  }

  lemma NothingIsBest(left: seq<ComparableEvent>, right: seq<ComparableEvent>, window: u64)
    ensures BestWithin(left, right, window, {}, [])
  {
    forall other | IsPairing(left, right, window, other) && Confined(left, other, {})
      ensures other == []
    {
      ConfinedNeedsFlows(left, other, {});
    }
  }

  const REPORTED_EVENTS := 8

  /** The first handles of a list of events, in the order given. */
  ghost predicate Reports(handles: seq<string>, events: seq<ComparableEvent>, side: seq<nat>, order: seq<nat>) {
    && |order| == |side|
    && |handles| == (if |order| < REPORTED_EVENTS then |order| else REPORTED_EVENTS)
    && forall k :: 0 <= k < |handles| ==>
      order[k] < |side| && side[order[k]] < |events| && handles[k] == events[side[order[k]]].handle
  }

  function Sources(pairs: Pairing): (r: seq<nat>) {
    Map(pairs, (p: (nat, nat)) => p.0)
  }

  function Targets(pairs: Pairing): (r: seq<nat>) {
    Map(pairs, (p: (nat, nat)) => p.1)
  }

  ghost predicate AllStrong(left: seq<ComparableEvent>, right: seq<ComparableEvent>, pairs: Pairing) {
    forall k :: 0 <= k < |pairs| ==>
      pairs[k].0 < |left| && pairs[k].1 < |right| && Strong(left[pairs[k].0], right[pairs[k].1])
  }

  /**
   What an edge claims: a best pairing of the two traces, its size, its first
   events by time and handle, and a level that says how strong its pairs are.
   */
  ghost predicate Claims(
    edge: CorrelationEdge, left: seq<ComparableEvent>, right: seq<ComparableEvent>, window: u64, best: Pairing,
    order: seq<nat>)
  {
    BestPairing(left, right, window, best) && Describes(edge, left, right, best, order)
  }

  ghost predicate Describes(
    edge: CorrelationEdge, left: seq<ComparableEvent>, right: seq<ComparableEvent>, best: Pairing, order: seq<nat>)
  {
    && edge.matches == |best|
    && edge.level == (if best == [] then Unknown else if AllStrong(left, right, best) then Correlated else Candidates)
    && edge.confidence == (match edge.level case Correlated => 9000 case Candidates => 5500 case Unknown => 0)
    && InTimeOrder(left, Sources(best), order)
    && Reports(edge.sourceEvents, left, Sources(best), order)
    && Reports(edge.targetEvents, right, Targets(best), order)
  }

  ghost predicate InTimeOrder(events: seq<ComparableEvent>, side: seq<nat>, order: seq<nat>) {
    && Distinct(order)
    && (forall i :: 0 <= i < |order| ==> order[i] < |side| && side[order[i]] < |events|)
    && (forall i, j :: 0 <= i < j < |order| ==>
      KeyLeq(EventKey(events[side[order[i]]]), EventKey(events[side[order[j]]])))
  }

  function MatchKey(m: (ComparableEvent, ComparableEvent, bool)): Key {
    EventKey(m.0)
  }

  method CorrelatePair(leftTrace: SensorTrace, rightTrace: SensorTrace, window: u64)
    returns (edge: CorrelationEdge, ghost best: Pairing, ghost order: seq<nat>)
    ensures edge.fromSensor == leftTrace.sensorId && edge.toSensor == rightTrace.sensorId
    ensures Claims(edge, ComparableEvents(leftTrace, |leftTrace.events|),
      ComparableEvents(rightTrace, |rightTrace.events|),
                   window, best, order)
  {
    var left := ComparableEvents(leftTrace, |leftTrace.events|);
    var right := ComparableEvents(rightTrace, |rightTrace.events|);
    var matched;
    matched, best := MatchFlows(left, right, window);
    if matched == [] {
      edge, order := UnknownEdge(leftTrace.sensorId, rightTrace.sensorId), [];
      NothingMatched(leftTrace.sensorId, rightTrace.sensorId, left, right, best);
      return;
    }
    var byTime;
    byTime, order := SortByKey(matched, MatchKey);
    edge := EdgeOf(leftTrace.sensorId, rightTrace.sensorId, byTime);
    EdgeIsJustified(edge, left, right, best, matched, byTime, order);
  }

  lemma NothingMatched(
    from: string, to: string, left: seq<ComparableEvent>, right: seq<ComparableEvent>, best: Pairing)
    requires |best| == 0
    ensures Describes(UnknownEdge(from, to), left, right, best, [])
  {
    NothingReported(left, Sources(best));
    NothingReported(right, Targets(best));
  }

  lemma NothingReported(events: seq<ComparableEvent>, side: seq<nat>)
    requires side == []
    ensures InTimeOrder(events, side, []) && Reports([], events, side, [])
  {
  }

  /** The edge for matches in time order. */
  method EdgeOf(from: string, to: string, byTime: seq<(ComparableEvent, ComparableEvent, bool)>)
    returns (edge: CorrelationEdge)
    ensures edge.fromSensor == from && edge.toSensor == to && edge.matches == |byTime| && Shows(edge, byTime)
    ensures edge.level == (if forall k :: 0 <= k < |byTime| ==> byTime[k].2 then Correlated else Candidates)
    ensures edge.confidence == if edge.level == Correlated then 9000 else 5500
  {
    var strong := CountStrong(byTime);
    var level := if strong == |byTime| then Correlated else Candidates;
    var shown := if |byTime| < REPORTED_EVENTS then |byTime| else REPORTED_EVENTS;
    edge := CorrelationEdge(
      from, to, level, if level == Correlated then 9000 else 5500,
      Map(byTime[..shown], SourceHandle), Map(byTime[..shown], TargetHandle), |byTime|);
  }

  function SourceHandle(m: (ComparableEvent, ComparableEvent, bool)): string {
    m.0.handle
  }

  function TargetHandle(m: (ComparableEvent, ComparableEvent, bool)): string {
    m.1.handle
  }

  /** The first handles of the matches in time order are what the edge reports. */
  ghost predicate Shows(edge: CorrelationEdge, byTime: seq<(ComparableEvent, ComparableEvent, bool)>) {
    && |edge.sourceEvents| == |edge.targetEvents|
    && |edge.sourceEvents| == (if |byTime| < REPORTED_EVENTS then |byTime| else REPORTED_EVENTS)
    && forall k :: 0 <= k < |edge.sourceEvents| ==>
      edge.sourceEvents[k] == byTime[k].0.handle && edge.targetEvents[k] == byTime[k].1.handle
  }

  lemma EdgeIsJustified(
    edge: CorrelationEdge, left: seq<ComparableEvent>, right: seq<ComparableEvent>, best: Pairing,
    matched: seq<(ComparableEvent, ComparableEvent, bool)>, byTime: seq<(ComparableEvent, ComparableEvent, bool)>,
    order: seq<nat>)
    requires Matched(left, right, best, matched) && matched != []
    requires Arranges(matched, byTime, order) && Ordered(byTime, MatchKey)
    requires edge.matches == |byTime| && Shows(edge, byTime)
    requires edge.level == (if forall k :: 0 <= k < |byTime| ==> byTime[k].2 then Correlated else Candidates)
    requires edge.confidence == if edge.level == Correlated then 9000 else 5500
    ensures Describes(edge, left, right, best, order)
  {
    StrongEverywhere(left, right, best, matched, byTime, order);
    OrderCarriesOver(left, right, best, matched, byTime, order);
    ReportsSources(edge.sourceEvents, left, best, byTime, order);
    ReportsTargets(edge.targetEvents, right, best, byTime, order);
  }

  lemma ReportsSources(
    handles: seq<string>, left: seq<ComparableEvent>, best: Pairing,
    byTime: seq<(ComparableEvent, ComparableEvent, bool)>, order: seq<nat>)
    requires |order| == |best| == |byTime|
    requires |handles| == if |byTime| < REPORTED_EVENTS then |byTime| else REPORTED_EVENTS
    requires forall k :: 0 <= k < |handles| ==>
      && handles[k] == byTime[k].0.handle && order[k] < |best| && best[order[k]].0 < |left|
      && byTime[k].0 == left[best[order[k]].0]
    ensures Reports(handles, left, Sources(best), order)
  {
  }

  lemma ReportsTargets(
    handles: seq<string>, right: seq<ComparableEvent>, best: Pairing,
    byTime: seq<(ComparableEvent, ComparableEvent, bool)>, order: seq<nat>)
    requires |order| == |best| == |byTime|
    requires |handles| == if |byTime| < REPORTED_EVENTS then |byTime| else REPORTED_EVENTS
    requires forall k :: 0 <= k < |handles| ==>
      && handles[k] == byTime[k].1.handle && order[k] < |best| && best[order[k]].1 < |right|
      && byTime[k].1 == right[best[order[k]].1]
    ensures Reports(handles, right, Targets(best), order)
  {
  }

  lemma OrderCarriesOver(
    left: seq<ComparableEvent>, right: seq<ComparableEvent>, best: Pairing,
    matched: seq<(ComparableEvent, ComparableEvent, bool)>, byTime: seq<(ComparableEvent, ComparableEvent, bool)>,
    order: seq<nat>)
    requires Matched(left, right, best, matched) && Arranges(matched, byTime, order) && Ordered(byTime, MatchKey)
    ensures InTimeOrder(left, Sources(best), order)
    ensures forall k :: 0 <= k < |byTime| ==>
      && order[k] < |best| && best[order[k]].0 < |left| && best[order[k]].1 < |right|
      && byTime[k].0 == left[best[order[k]].0] && byTime[k].1 == right[best[order[k]].1]
  {
    forall k | 0 <= k < |byTime|
      ensures byTime[k].0 == left[best[order[k]].0] && byTime[k].1 == right[best[order[k]].1]
    {
      assert byTime[k] == matched[order[k]];
    }
    forall i, j | 0 <= i < j < |order|
      ensures KeyLeq(EventKey(left[best[order[i]].0]), EventKey(left[best[order[j]].0]))
    {
      assert KeyLeq(MatchKey(byTime[i]), MatchKey(byTime[j]));
    }
  }

  function UnknownEdge(from: string, to: string): CorrelationEdge {
    CorrelationEdge(from, to, Unknown, 0, [], [], 0)
  }

  method CountStrong(matched: seq<(ComparableEvent, ComparableEvent, bool)>) returns (count: nat)
    ensures count <= |matched|
    ensures count == |matched| <==> forall k :: 0 <= k < |matched| ==> matched[k].2
  {
    count := 0;
    for n := 0 to |matched|
      invariant count <= n
      invariant count == n <==> forall k :: 0 <= k < n ==> matched[k].2
    {
      if matched[n].2 {
        count := count + 1;
      }
    }
  }

  lemma StrongEverywhere(
    left: seq<ComparableEvent>, right: seq<ComparableEvent>, best: Pairing,
    matched: seq<(ComparableEvent, ComparableEvent, bool)>, byTime: seq<(ComparableEvent, ComparableEvent, bool)>,
    order: seq<nat>)
    requires Matched(left, right, best, matched) && Arranges(matched, byTime, order)
    ensures (forall k :: 0 <= k < |byTime| ==> byTime[k].2) <==> AllStrong(left, right, best)
  {
    if forall k :: 0 <= k < |byTime| ==> byTime[k].2 {
      forall k | 0 <= k < |best|
        ensures Strong(left[best[k].0], right[best[k].1])
      {
        assert k in order;
        var a :| 0 <= a < |order| && order[a] == k;
        assert byTime[a] == matched[k];
      }
    }
    if AllStrong(left, right, best) {
      forall k | 0 <= k < |byTime|
        ensures byTime[k].2
      {
        assert byTime[k] == matched[order[k]];
      }
    }
  }

  /** An edge is Unknown exactly when the two traces admit no pair at all. */
  lemma UnknownMeansNoPair(
    edge: CorrelationEdge, left: seq<ComparableEvent>, right: seq<ComparableEvent>, window: u64, best: Pairing,
    order: seq<nat>)
    requires Claims(edge, left, right, window, best, order)
    ensures edge.level == Unknown <==> forall p: (nat, nat) :: !Admissible(left, right, window, p)
  {
    if best != [] {
      assert best[0] in best && Admissible(left, right, window, best[0]);
    } else {
      forall p: (nat, nat)
        ensures !Admissible(left, right, window, p)
      {
        OnePair(left, right, window, p);
        assert IsPairing(left, right, window, [p]) ==> NoWorse(left, right, window, best, [p]);
      }
    }
  }

  lemma OnePair(left: seq<ComparableEvent>, right: seq<ComparableEvent>, window: u64, p: (nat, nat))
    ensures Admissible(left, right, window, p) ==> IsPairing(left, right, window, [p])
  {
  }

  /**
   Correlating the same two traces again may pick another best pairing, but
   never another number of matches or another total cost.
   */
  lemma ClaimsAgree(
    edge: CorrelationEdge, other: CorrelationEdge, left: seq<ComparableEvent>, right: seq<ComparableEvent>, window: u64,
    best: Pairing, order: seq<nat>, otherBest: Pairing, otherOrder: seq<nat>)
    requires Claims(edge, left, right, window, best, order)
    requires Claims(other, left, right, window, otherBest, otherOrder)
    ensures edge.matches == other.matches
    ensures PairingCost(left, right, window, best) == PairingCost(left, right, window, otherBest)
    ensures edge.level == Unknown <==> other.level == Unknown
  {
    assert NoWorse(left, right, window, best, otherBest) && NoWorse(left, right, window, otherBest, best);
  }

  ghost predicate EdgeClaims(
    edge: CorrelationEdge, traces: map<string, SensorTrace>, from: string, to: string, window: u64)
  {
    if from in traces && to in traces then
      var (l, r) := (traces[from], traces[to]);
      && edge.fromSensor == l.sensorId && edge.toSensor == r.sensorId
      && exists best, order ::
        Claims(edge, ComparableEvents(l, |l.events|), ComparableEvents(r, |r.events|), window, best, order)
    else edge == UnknownEdge(from, to)
  }

  /** Adjacent sensors in mission order; a missing trace leaves the edge unknown. */
  method CorrelateAdjacent(targets: seq<string>, traces: map<string, SensorTrace>, window: u64)
    returns (edges: seq<CorrelationEdge>)
    ensures |edges| == if |targets| == 0 then 0 else |targets| - 1
    ensures forall k :: 0 <= k < |edges| ==> EdgeClaims(edges[k], traces, targets[k], targets[k + 1], window)
  {
    edges := [];
    if targets == [] {
      return;
    }
    for n := 1 to |targets|
      invariant |edges| == n - 1
      invariant forall k :: 0 <= k < |edges| ==> EdgeClaims(edges[k], traces, targets[k], targets[k + 1], window)
    {
      var (from, to) := (targets[n - 1], targets[n]);
      if from in traces && to in traces {
        var edge, best, order := CorrelatePair(traces[from], traces[to], window);
        edges := edges + [edge];
      } else {
        edges := edges + [UnknownEdge(from, to)];
      }
    }
  }
}
