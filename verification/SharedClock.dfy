/**
 Two hosts, one clock: what becomes of the timestamps of a trace when it is
 compared with another, and what the smallest comparisons come to.
 */
module SharedClock {
  import opened Common
  import opened FlowKeys
  import opened Sweep
  import opened Correlation
  import CorrelationExists

  // ----- the events of a trace on the shared clock -----

  /** The unix time of an event: when the capture started, and the time since. */
  predicate IsUnixTime(trace: SensorTrace, e: TraceEvent, unix: nat) {
    e.timestamp >= trace.startedMonotonic && unix + trace.startedMonotonic == trace.startedUnix + e.timestamp
  }

  /** An event taken over: everything it carries, at its unix time unless that is before the start or beyond 64 bits. */
  predicate TakenOver(trace: SensorTrace, e: TraceEvent, c: ComparableEvent) {
    && e.tuple == Some(c.tuple) && c.tunnel == e.tunnel && c.handle == e.handle && c.packetLen == e.packetLen
    && c.uncertainty == trace.clockUncertainty
    && (e.timestamp < trace.startedMonotonic ==> c.timestamp == trace.startedUnix)
    && (e.timestamp >= trace.startedMonotonic ==>
          var unix := trace.startedUnix + (e.timestamp - trace.startedMonotonic);
          c.timestamp == if unix < 0x1_0000_0000_0000_0000 then unix else 0xFFFF_FFFF_FFFF_FFFF)
  }

  /** Exactly the events with a tuple are compared, in order: `from` says which each one is. */
  lemma {:induction false} ComparesEventsWithTuples(trace: SensorTrace, n: nat) returns (from: seq<nat>)
    requires n <= |trace.events|
    ensures |from| == |ComparableEvents(trace, n)|
    ensures forall k :: 0 <= k < |from| ==>
      from[k] < n && TakenOver(trace, trace.events[from[k]], ComparableEvents(trace, n)[k])
    ensures forall j, k :: 0 <= j < k < |from| ==> from[j] < from[k]
    ensures forall i :: 0 <= i < n && trace.events[i].tuple.Some? ==> i in from
  {
    if n == 0 {
      return [];
    }
    from := ComparesEventsWithTuples(trace, n - 1);
    if trace.events[n - 1].tuple.Some? {
      from := from + [n - 1];
    }
  }

  /** The same trace on a host whose monotonic clock reads `d` more. */
  function MonotonicShifted(trace: SensorTrace, d: nat): SensorTrace
    requires trace.startedMonotonic + d <= U64_MAX
    requires forall i :: 0 <= i < |trace.events| ==> trace.events[i].timestamp + d <= U64_MAX
  {
    trace.(startedMonotonic := trace.startedMonotonic + d, events := seq(|trace.events|,
      i requires 0 <= i < |trace.events| => trace.events[i].(timestamp := trace.events[i].timestamp + d)))
  }

  /** Where a host's monotonic clock stands does not matter. */
  lemma {:induction false} MonotonicOriginIsFree(trace: SensorTrace, d: nat, n: nat)
    requires n <= |trace.events| && trace.startedMonotonic + d <= U64_MAX
    requires forall i :: 0 <= i < |trace.events| ==> trace.events[i].timestamp + d <= U64_MAX
    ensures ComparableEvents(MonotonicShifted(trace, d), n) == ComparableEvents(trace, n)
  {
    if n > 0 {
      MonotonicOriginIsFree(trace, d, n - 1);
    }
  }

  /** Starting `d` later in unix time moves every event by `d`, as long as nothing saturates. */
  lemma {:induction false} UnixOriginMoves(trace: SensorTrace, d: nat, n: nat)
    requires n <= |trace.events| && trace.startedUnix + d <= U64_MAX
    requires forall i :: 0 <= i < |trace.events| ==> trace.startedUnix + trace.events[i].timestamp + d <= U64_MAX
    ensures
      var (before, after) :=
        (ComparableEvents(trace, n), ComparableEvents(trace.(startedUnix := trace.startedUnix + d), n));
      && |after| == |before|
      && forall k :: 0 <= k < |before| ==>
        before[k].timestamp + d <= U64_MAX && after[k] == before[k].(timestamp := before[k].timestamp + d)
  {
    if n > 0 {
      UnixOriginMoves(trace, d, n - 1);
    }
  }

  // ----- one event at each sensor -----

  /** The same two endpoints in either direction, by the same protocols. */
  predicate SameConversation(a: PacketTuple, b: PacketTuple) {
    && a.l3Protocol == b.l3Protocol && a.l4Protocol == b.l4Protocol
    && (|| (a.source == b.source && a.sourcePort == b.sourcePort
            && a.destination == b.destination && a.destinationPort == b.destinationPort)
        || (a.source == b.destination && a.sourcePort == b.destinationPort
            && a.destination == b.source && a.destinationPort == b.sourcePort))
  }

  lemma ConversationIsFlow(a: PacketTuple, b: PacketTuple)
    ensures SameConversation(a, b) <==> FromTuple(a) == FromTuple(b)
  {
    var (p, q) := ((a.source, a.sourcePort), (a.destination, a.destinationPort));
    var (r, s) := ((b.source, b.sourcePort), (b.destination, b.destinationPort));
    SameFlow(a, b);
    SamePair(p, q, r, s);
  }

  /** The two observations are of one packet as far as they tell: same length, same headers outside or in a tunnel. */
  predicate LooksAlike(a: TraceEvent, b: TraceEvent) {
    && a.packetLen == b.packetLen
    && a.tuple.Some? && b.tuple.Some?
    && (a.tuple == b.tuple || a.tunnel == b.tuple || b.tunnel == a.tuple)
  }

  lemma OneEvent(trace: SensorTrace, unix: nat)
    requires |trace.events| == 1 && trace.events[0].tuple.Some?
    requires IsUnixTime(trace, trace.events[0], unix) && unix <= U64_MAX
    ensures
      var e := trace.events[0];
      ComparableEvents(trace, 1)
      == [ComparableEvent(e.handle, unix, trace.clockUncertainty, e.packetLen, e.tuple.value, e.tunnel)]
  {
    assert ComparableEvents(trace, 0) == [];
  }

  lemma OneDescription(
    edge: CorrelationEdge, left: seq<ComparableEvent>, right: seq<ComparableEvent>, best: Pairing, order: seq<nat>,
    j: nat)
    requires |left| == 1 && j < |right| && best == [(0, j)] && Describes(edge, left, right, best, order)
    ensures edge.matches == 1 && edge.sourceEvents == [left[0].handle] && edge.targetEvents == [right[j].handle]
    ensures edge.level == if Strong(left[0], right[j]) then Correlated else Candidates
    ensures edge.confidence == if edge.level == Correlated then 9000 else 5500
  {
    assert order == [0];
    assert AllStrong(left, right, best) <==> Strong(left[best[0].0], right[best[0].1]);
    assert Sources(best) == [0] && Targets(best) == [j];
  }

  /** A pairing with a single left event is empty or a single pair. */
  lemma SinglePair(left: seq<ComparableEvent>, right: seq<ComparableEvent>, window: u64, pairs: Pairing)
    requires |left| == 1 && IsPairing(left, right, window, pairs)
    ensures pairs == [] || (|pairs| == 1 && pairs[0].0 == 0 && Admissible(left, right, window, pairs[0]))
  {
    CorrelationExists.PairingIsBounded(left, right, window, pairs);
    if pairs != [] {
      assert pairs[0] in pairs;
    }
  }

  lemma NoneIfNothing(
    left: seq<ComparableEvent>, right: seq<ComparableEvent>, window: u64, best: Pairing, p: (nat, nat))
    requires BestPairing(left, right, window, best) && Admissible(left, right, window, p)
    ensures best != [] && NoWorse(left, right, window, best, [p])
  {
    OnePair(left, right, window, p);
  }

  /** The best pairing of a single event with a single event. */
  lemma OnlyPair(c: ComparableEvent, d: ComparableEvent, window: u64, best: Pairing)
    requires BestPairing([c], [d], window, best)
    ensures best == if FlowOf(c) == FlowOf(d) && Viable(c, d, window) then [(0, 0)] else []
  {
    SinglePair([c], [d], window, best);
    if FlowOf(c) == FlowOf(d) && Viable(c, d, window) {
      NoneIfNothing([c], [d], window, best, (0, 0));
    }
    if best != [] {
      assert best == [best[0]];
    }
  }

  lemma NothingDescribed(
    edge: CorrelationEdge, left: seq<ComparableEvent>, right: seq<ComparableEvent>, best: Pairing, order: seq<nat>)
    requires |best| == 0 && Describes(edge, left, right, best, order)
    ensures edge == UnknownEdge(edge.fromSensor, edge.toSensor)
  {
    assert |Sources(best)| == 0 && |Targets(best)| == 0;
    assert |order| == 0;
    assert |edge.sourceEvents| == 0 && |edge.targetEvents| == 0;
  }

  /** What an edge says of a single pair, or of none. */
  ghost predicate IsEdgeOf(edge: CorrelationEdge, c: ComparableEvent, d: ComparableEvent, paired: bool) {
    if paired then
      && edge.matches == 1 && edge.sourceEvents == [c.handle] && edge.targetEvents == [d.handle]
      && edge.level == (if Strong(c, d) then Correlated else Candidates)
      && edge.confidence == (if Strong(c, d) then 9000 else 5500)
    else
      edge == UnknownEdge(edge.fromSensor, edge.toSensor)
  }

  lemma DescribesOneOrNone(
    left: seq<ComparableEvent>, right: seq<ComparableEvent>, edge: CorrelationEdge, best: Pairing, order: seq<nat>)
    requires |left| == 1 && |right| == 1 && Describes(edge, left, right, best, order)
    requires best == [] || best == [(0, 0)]
    ensures IsEdgeOf(edge, left[0], right[0], best != [])
  {
    if best == [] {
      NothingDescribed(edge, left, right, best, order);
    } else {
      OneDescription(edge, left, right, best, order, 0);
    }
  }

  /** One event against one: a match if they may be paired, and nothing otherwise. */
  lemma OneAgainstOne(
    c: ComparableEvent, d: ComparableEvent, window: u64, edge: CorrelationEdge, best: Pairing, order: seq<nat>)
    requires BestPairing([c], [d], window, best) && Describes(edge, [c], [d], best, order)
    ensures IsEdgeOf(edge, c, d, FlowOf(c) == FlowOf(d) && Viable(c, d, window))
  {
    OnlyPair(c, d, window, best);
    DescribesOneOrNone([c], [d], edge, best, order);
  }

  /**
   Two sensors with one observation each. The edge is Unknown unless both are of
   one conversation and their unix times differ by no more than the window and
   both uncertainties; then it is one match, Correlated if the two look alike.
   */
  lemma OneEventEach(
    l: SensorTrace, r: SensorTrace, u: nat, v: nat, window: u64, edge: CorrelationEdge, best: Pairing,
    order: seq<nat>)
    requires |l.events| == 1 && |r.events| == 1 && l.events[0].tuple.Some? && r.events[0].tuple.Some?
    requires IsUnixTime(l, l.events[0], u) && IsUnixTime(r, r.events[0], v) && u <= U64_MAX && v <= U64_MAX
    requires window + l.clockUncertainty + r.clockUncertainty <= U64_MAX
    requires Claims(edge, ComparableEvents(l, 1), ComparableEvents(r, 1), window, best, order)
    ensures
      var (a, b) := (l.events[0], r.events[0]);
      var slack := window + l.clockUncertainty + r.clockUncertainty;
      if SameConversation(a.tuple.value, b.tuple.value) && u <= v + slack && v <= u + slack then
        && edge.matches == 1 && edge.sourceEvents == [a.handle] && edge.targetEvents == [b.handle]
        && edge.level == (if LooksAlike(a, b) then Correlated else Candidates)
        && edge.confidence == (if LooksAlike(a, b) then 9000 else 5500)
      else
        edge.level == Unknown && edge.matches == 0 && edge.confidence == 0
        && edge.sourceEvents == [] && edge.targetEvents == []
  {
    OneEvent(l, u);
    OneEvent(r, v);
    ConversationIsFlow(l.events[0].tuple.value, r.events[0].tuple.value);
    OneAgainstOne(ComparableEvents(l, 1)[0], ComparableEvents(r, 1)[0], window, edge, best, order);
  }

  // ----- a choice of two -----

  /**
   How far a pair is from a perfect match: in time, a millisecond for every byte, and the window if it does not look
   alike.
   */
  function Distance(a: TraceEvent, b: TraceEvent, u: nat, v: nat, window: nat): nat {
    (if u < v then v - u else u - v)
    + 1_000_000 * (if a.packetLen < b.packetLen then b.packetLen - a.packetLen else a.packetLen - b.packetLen)
    + if LooksAlike(a, b) then 0 else window
  }

  lemma DistanceIsCost(
    l: SensorTrace, a: TraceEvent, r: SensorTrace, b: TraceEvent, c: ComparableEvent, d: ComparableEvent, u: nat,
    v: nat, window: u64)
    requires TakenOver(l, a, c) && TakenOver(r, b, d)
    requires IsUnixTime(l, a, u) && IsUnixTime(r, b, v) && u <= U64_MAX && v <= U64_MAX
    requires Distance(a, b, u, v, window) <= U64_MAX
    ensures PairCost(c, d, window) == Distance(a, b, u, v, window) && (Strong(c, d) <==> LooksAlike(a, b))
  {
  }

  lemma CheaperIsBest(
    left: seq<ComparableEvent>, right: seq<ComparableEvent>, window: u64, near: nat, far: nat, best: Pairing)
    requires |left| == 1 && |right| == 2 && near < 2 && far == 1 - near && BestPairing(left, right, window, best)
    requires Admissible(left, right, window, (0, near))
    requires PairCost(left[0], right[near], window) < PairCost(left[0], right[far], window)
    ensures best == [(0, near)]
  {
    SinglePair(left, right, window, best);
    NoneIfNothing(left, right, window, best, (0, near));
    CostOfOne(left, right, window, (0, near));
    CostOfOne(left, right, window, best[0]);
    assert best == [best[0]];
  }

  lemma CostOfOne(left: seq<ComparableEvent>, right: seq<ComparableEvent>, window: u64, p: (nat, nat))
    requires Admissible(left, right, window, p)
    ensures PairingCost(left, right, window, [p]) == PairCost(left[p.0], right[p.1], window)
  {
    assert [p][..0] == [];
  }

  lemma CheaperIsShown(
    left: seq<ComparableEvent>, right: seq<ComparableEvent>, window: u64, near: nat, edge: CorrelationEdge,
    best: Pairing, order: seq<nat>)
    requires |left| == 1 && |right| == 2 && near < 2 && Claims(edge, left, right, window, best, order)
    requires Admissible(left, right, window, (0, near))
    requires PairCost(left[0], right[near], window) < PairCost(left[0], right[1 - near], window)
    ensures edge.matches == 1 && edge.targetEvents == [right[near].handle]
    ensures edge.level == if Strong(left[0], right[near]) then Correlated else Candidates
  {
    CheaperIsBest(left, right, window, near, 1 - near, best);
    OneDescription(edge, left, right, best, order, near);
  }

  lemma NearerOfTwo(
    l: SensorTrace, r: SensorTrace, a: TraceEvent, b: TraceEvent, other: TraceEvent, left: seq<ComparableEvent>,
    right: seq<ComparableEvent>, u: nat, v: nat, w: nat, window: u64, near: nat, edge: CorrelationEdge, best: Pairing,
    order: seq<nat>)
    requires |left| == 1 && |right| == 2 && near < 2
    requires TakenOver(l, a, left[0]) && TakenOver(r, b, right[near]) && TakenOver(r, other, right[1 - near])
    requires IsUnixTime(l, a, u) && IsUnixTime(r, b, v) && IsUnixTime(r, other, w)
    requires u <= U64_MAX && v <= U64_MAX && w <= U64_MAX
    requires Distance(a, b, u, v, window) < Distance(a, other, u, w, window) <= U64_MAX
    requires Admissible(left, right, window, (0, near)) && Claims(edge, left, right, window, best, order)
    ensures edge.matches == 1 && edge.targetEvents == [b.handle]
    ensures edge.level == if LooksAlike(a, b) then Correlated else Candidates
  {
    DistanceIsCost(l, a, r, b, left[0], right[near], u, v, window);
    DistanceIsCost(l, a, r, other, left[0], right[1 - near], u, w, window);
    CheaperIsShown(left, right, window, near, edge, best, order);
  }

  /** One observation here and two there, of which the nearer would do: the edge shows that one. */
  lemma NearerIsMatched(
    l: SensorTrace, r: SensorTrace, u: nat, v: nat, w: nat, window: u64, near: nat, edge: CorrelationEdge,
    best: Pairing, order: seq<nat>)
    requires |l.events| == 1 && |r.events| == 2 && near < 2
    requires l.events[0].tuple.Some? && r.events[0].tuple.Some? && r.events[1].tuple.Some?
    requires IsUnixTime(l, l.events[0], u) && IsUnixTime(r, r.events[near], v)
    requires IsUnixTime(r, r.events[1 - near], w) && u <= U64_MAX && v <= U64_MAX && w <= U64_MAX
    requires Distance(l.events[0], r.events[near], u, v, window)
      < Distance(l.events[0], r.events[1 - near], u, w, window) <= U64_MAX
    requires Claims(edge, ComparableEvents(l, 1), ComparableEvents(r, 2), window, best, order)
    requires Admissible(ComparableEvents(l, 1), ComparableEvents(r, 2), window, (0, near))
    ensures edge.matches == 1 && edge.targetEvents == [r.events[near].handle]
    ensures edge.level == if LooksAlike(l.events[0], r.events[near]) then Correlated else Candidates
  {
    TwoEvents(l, r);
    NearerOfTwo(l, r, l.events[0], r.events[near], r.events[1 - near], ComparableEvents(l, 1), ComparableEvents(r, 2),
      u, v, w, window, near, edge, best, order);
  }

  lemma TwoEvents(l: SensorTrace, r: SensorTrace)
    requires |l.events| == 1 && |r.events| == 2
    requires l.events[0].tuple.Some? && r.events[0].tuple.Some? && r.events[1].tuple.Some?
    ensures
      var (left, right) := (ComparableEvents(l, 1), ComparableEvents(r, 2));
      && |left| == 1 && |right| == 2 && TakenOver(l, l.events[0], left[0])
      && TakenOver(r, r.events[0], right[0]) && TakenOver(r, r.events[1], right[1])
  {
    assert ComparableEvents(l, 0) == [] && ComparableEvents(r, 0) == [];
    assert |ComparableEvents(r, 1)| == 1;
  }

  // ----- any number of events -----

  lemma AllStrongMeans(left: seq<ComparableEvent>, right: seq<ComparableEvent>, best: Pairing)
    ensures AllStrong(left, right, best) <==> forall p: (nat, nat) :: p in best ==>
      p.0 < |left| && p.1 < |right| && Strong(left[p.0], right[p.1])
  {
    if AllStrong(left, right, best) {
      forall p: (nat, nat) | p in best
        ensures p.0 < |left| && p.1 < |right| && Strong(left[p.0], right[p.1])
      {
        var k :| 0 <= k < |best| && best[k] == p;
      }
    } else {
      var k :| 0 <= k < |best| && !(best[k].0 < |left| && best[k].1 < |right|
                                    && Strong(left[best[k].0], right[best[k].1]));
      assert best[k] in best;
    }
  }

  /**
   What an edge says of its pairs: Unknown without any, Correlated if all of them
   look alike, and otherwise a candidate; the first eight are shown.
   */
  lemma EdgeMeans(
    edge: CorrelationEdge, left: seq<ComparableEvent>, right: seq<ComparableEvent>, best: Pairing, order: seq<nat>)
    requires Describes(edge, left, right, best, order)
    ensures edge.matches == |best| && (edge.level == Unknown <==> best == [])
    ensures edge.level == Correlated <==> best != [] && forall p: (nat, nat) :: p in best ==>
      p.0 < |left| && p.1 < |right| && Strong(left[p.0], right[p.1])
    ensures edge.confidence == match edge.level case Correlated => 9000 case Candidates => 5500 case Unknown => 0
    ensures |edge.sourceEvents| == |edge.targetEvents| == if |best| < 8 then |best| else 8
  {
    AllStrongMeans(left, right, best);
    assert |Sources(best)| == |Targets(best)| == |best|;
  }
}
