/**
 There is something to correlate to: any two traces have a best pairing, any
 mission an edge for each pair of neighbours that says what it may claim.
 */
module CorrelationExists {
  import opened Common
  import opened Arrange
  import opened Sweep
  import opened Correlation
  import opened ArcState
  import ResidualGraph

  /** One-to-one pairs are no more than the events of the left trace. */
  lemma PairingIsBounded(left: seq<ComparableEvent>, right: seq<ComparableEvent>, window: u64, pairs: Pairing)
    requires IsPairing(left, right, window, pairs)
    ensures |pairs| <= |left|
  {
    if |pairs| > |left| {
      forall k | 0 <= k < |pairs|
        ensures Sources(pairs)[k] < |left|
      {
        assert pairs[k] in pairs && Admissible(left, right, window, pairs[k]);
      }
      var i, j := ResidualGraph.Pigeonhole(Sources(pairs), |left|);
    }
  }

  /** Going from a pairing to a better one ends: at a best one. */
  lemma {:induction false} BestExists(
    left: seq<ComparableEvent>, right: seq<ComparableEvent>, window: u64, pairs: Pairing)
    returns (best: Pairing)
    requires IsPairing(left, right, window, pairs)
    ensures BestPairing(left, right, window, best)
    decreases |left| - |pairs|, PairingCost(left, right, window, pairs)
  {
    PairingIsBounded(left, right, window, pairs);
    if other :| IsPairing(left, right, window, other) && !NoWorse(left, right, window, pairs, other) {
      PairingIsBounded(left, right, window, other);
      best := BestExists(left, right, window, other);
    } else {
      best := pairs;
    }
  }

  lemma {:induction false} OrderExists<T>(s: seq<T>, key: T -> Key, n: nat)
    returns (arranged: seq<T>, order: seq<nat>)
    requires n <= |s|
    ensures Arranges(s[..n], arranged, order) && Ordered(arranged, key)
  {
    if n == 0 {
      return [], [];
    }
    arranged, order := OrderExists(s, key, n - 1);
    var k := PlaceFor(arranged, key, s[n - 1], n - 1);
    InsertArranges(s, n - 1, arranged, order, k);
    InsertOrdered(arranged, k, s[n - 1], key);
    arranged, order := Insert(arranged, k, s[n - 1]), Insert(order, k, n - 1);
  }

  /** Where `x` may be inserted, counting down from `k`. */
  lemma {:induction false} PlaceFor<T>(s: seq<T>, key: T -> Key, x: T, k: nat) returns (place: nat)
    requires k <= |s| && (k < |s| ==> KeyLeq(key(x), key(s[k])))
    ensures place <= k
    ensures place > 0 ==> KeyLeq(key(s[place - 1]), key(x))
    ensures place < |s| ==> KeyLeq(key(x), key(s[place]))
  {
    place := k;
    if k > 0 && !KeyLeq(key(s[k - 1]), key(x)) {
      KeyLeqOrder(key(s[k - 1]), key(x), key(x));
      place := PlaceFor(s, key, x, k - 1);
    }
  }

  /** What the method `EdgeOf` makes of matches in time order. */
  lemma EdgeFor(from: string, to: string, byTime: seq<(ComparableEvent, ComparableEvent, bool)>)
    returns (edge: CorrelationEdge)
    ensures edge.fromSensor == from && edge.toSensor == to && edge.matches == |byTime| && Shows(edge, byTime)
    ensures edge.level == (if forall k :: 0 <= k < |byTime| ==> byTime[k].2 then Correlated else Candidates)
    ensures edge.confidence == if edge.level == Correlated then 9000 else 5500
  {
    var level := if forall k :: 0 <= k < |byTime| ==> byTime[k].2 then Correlated else Candidates;
    var shown := if |byTime| < REPORTED_EVENTS then |byTime| else REPORTED_EVENTS;
    edge := CorrelationEdge(
      from, to, level, if level == Correlated then 9000 else 5500,
      Map(byTime[..shown], SourceHandle), Map(byTime[..shown], TargetHandle), |byTime|);
  }

  lemma MatchesExist(left: seq<ComparableEvent>, right: seq<ComparableEvent>, pairs: Pairing)
    returns (matched: seq<(ComparableEvent, ComparableEvent, bool)>)
    requires forall k :: 0 <= k < |pairs| ==> pairs[k].0 < |left| && pairs[k].1 < |right|
    ensures Matched(left, right, pairs, matched)
  {
    matched := seq(|pairs|, k requires 0 <= k < |pairs| =>
      (left[pairs[k].0], right[pairs[k].1], Strong(left[pairs[k].0], right[pairs[k].1])));
  }

  /** Every pairing of two traces has an edge that describes it. */
  lemma EdgeExists(
    from: string, to: string, left: seq<ComparableEvent>, right: seq<ComparableEvent>, pairs: Pairing)
    returns (edge: CorrelationEdge, order: seq<nat>)
    requires forall k :: 0 <= k < |pairs| ==> pairs[k].0 < |left| && pairs[k].1 < |right|
    ensures edge.fromSensor == from && edge.toSensor == to && Describes(edge, left, right, pairs, order)
  {
    if pairs == [] {
      NothingMatched(from, to, left, right, pairs);
      return UnknownEdge(from, to), [];
    }
    var matched := MatchesExist(left, right, pairs);
    var byTime;
    byTime, order := OrderExists(matched, MatchKey, |matched|);
    assert matched[..|matched|] == matched;
    edge := EdgeFor(from, to, byTime);
    EdgeIsJustified(edge, left, right, pairs, matched, byTime, order);
  }

  /** Any two traces have an edge with its claims met. */
  lemma ClaimsExist(from: string, to: string, left: seq<ComparableEvent>, right: seq<ComparableEvent>, window: u64)
    returns (edge: CorrelationEdge, best: Pairing, order: seq<nat>)
    ensures edge.fromSensor == from && edge.toSensor == to && Claims(edge, left, right, window, best, order)
  {
    best := BestExists(left, right, window, []);
    forall k | 0 <= k < |best|
      ensures best[k].0 < |left| && best[k].1 < |right|
    {
      assert best[k] in best && Admissible(left, right, window, best[k]);
    }
    edge, order := EdgeExists(from, to, left, right, best);
  }

  lemma NeighboursHaveAnEdge(traces: map<string, SensorTrace>, from: string, to: string, window: u64)
    returns (edge: CorrelationEdge)
    ensures EdgeClaims(edge, traces, from, to, window)
  {
    if from in traces && to in traces {
      var (l, r) := (traces[from], traces[to]);
      var best, order;
      edge, best, order := ClaimsExist(l.sensorId, r.sensorId, ComparableEvents(l, |l.events|),
        ComparableEvents(r, |r.events|), window);
    } else {
      edge := UnknownEdge(from, to);
    }
  }

  lemma {:induction false} EdgesExist(
    targets: seq<string>, traces: map<string, SensorTrace>, window: u64, n: nat)
    returns (edges: seq<CorrelationEdge>)
    requires n < |targets|
    ensures |edges| == n
    ensures forall k :: 0 <= k < n ==> EdgeClaims(edges[k], traces, targets[k], targets[k + 1], window)
  {
    if n == 0 {
      return [];
    }
    edges := EdgesExist(targets, traces, window, n - 1);
    var edge := NeighboursHaveAnEdge(traces, targets[n - 1], targets[n], window);
    edges := edges + [edge];
  }

  /** Whatever the targets, the traces and the window, there are edges that say what correlating them may say. */
  lemma EveryMissionCorrelates(targets: seq<string>, traces: map<string, SensorTrace>, window: u64)
    ensures exists edges :: Correlates(edges, targets, traces, window)
  {
    if targets == [] {
      assert Correlates([], targets, traces, window);
    } else {
      var edges := EdgesExist(targets, traces, window, |targets| - 1);
      assert Correlates(edges, targets, traces, window);
    }
  }

  ghost function SomeEdges(targets: seq<string>, traces: map<string, SensorTrace>, window: u64)
    : (edges: seq<CorrelationEdge>)
    ensures Correlates(edges, targets, traces, window)
  {
    EveryMissionCorrelates(targets, traces, window);
    var edges :| Correlates(edges, targets, traces, window);
    edges
  }

  /** Any services can be given a way to correlate that is sound. */
  lemma SoundServicesExist(services: Services)
    ensures exists sound: Services ::
      && CorrelatesSoundly(sound)
      && sound.replay == services.replay && sound.hash == services.hash && sound.parse == services.parse
  {
    var sound := services.(correlate := SomeEdges);
    assert CorrelatesSoundly(sound);
  }
}
