/**
 Candidate discovery: the two-pointer time sweep `correlation_candidates`, proved
 to list exactly the pairs the quadratic filter lists, in the same order.
 */
module Sweep {
  import opened Common
  import opened FlowKeys
  import opened Matching

  datatype ComparableEvent = ComparableEvent(
    handle: string, timestamp: u64, uncertainty: u64, packetLen: nat, tuple: PacketTuple, tunnel: Option<PacketTuple>)

  const NANOS_PER_BYTE: u64 := 1_000_000

  function Tolerance(left: ComparableEvent, right: ComparableEvent, window: u64): u64 {
    SatAdd(SatAdd(left.uncertainty, right.uncertainty), window)
  }

  predicate Viable(left: ComparableEvent, right: ComparableEvent, window: u64) {
    AbsDiff(left.timestamp, right.timestamp) <= Tolerance(left, right, window)
  }

  predicate TuplesCompatible(left: ComparableEvent, right: ComparableEvent) {
    left.tuple == right.tuple || left.tunnel == Some(right.tuple) || right.tunnel == Some(left.tuple)
  }

  predicate Strong(left: ComparableEvent, right: ComparableEvent) {
    left.packetLen == right.packetLen && TuplesCompatible(left, right)
  }

  function PairCost(left: ComparableEvent, right: ComparableEvent, window: u64): u64 {
    var lengthGap := AbsDiff(left.packetLen, right.packetLen);
    var lengthPenalty := if lengthGap * NANOS_PER_BYTE > U64_MAX then U64_MAX else lengthGap * NANOS_PER_BYTE;
    var evidencePenalty := if Strong(left, right) then 0 else window;
    SatAdd(SatAdd(AbsDiff(left.timestamp, right.timestamp), lengthPenalty), evidencePenalty)
  }

  function PairAt(left: seq<ComparableEvent>, right: seq<ComparableEvent>, window: u64, i: nat, j: nat): Candidate
    requires i < |left| && j < |right|
  {
    Candidate(i, j, PairCost(left[i], right[j], window), Strong(left[i], right[j]))
  }

  /** The viable pairs of left event `i` with the first `n` right events. */
  function Row(left: seq<ComparableEvent>, right: seq<ComparableEvent>, window: u64, i: nat, n: nat): seq<Candidate>
    requires i < |left| && n <= |right|
  {
    if n == 0 then []
    else if Viable(left[i], right[n - 1], window) then
      Row(left, right, window, i, n - 1) + [PairAt(left, right, window, i, n - 1)]
    else Row(left, right, window, i, n - 1)
  }

  /** The quadratic filter over the first `m` left events and all right events. */
  function AllPairs(left: seq<ComparableEvent>, right: seq<ComparableEvent>, window: u64, m: nat): seq<Candidate>
    requires m <= |left|
  {
    if m == 0 then [] else AllPairs(left, right, window, m - 1) + Row(left, right, window, m - 1, |right|)
  }

  lemma {:induction false} RowHolds(
    left: seq<ComparableEvent>, right: seq<ComparableEvent>, window: u64, i: nat, n: nat, c: Candidate)
    requires i < |left| && n <= |right|
    ensures c in Row(left, right, window, i, n) <==>
      && c.left == i && c.right < n && Viable(left[i], right[c.right], window)
      && c == PairAt(left, right, window, i, c.right)
  {
    if n > 0 {
      RowHolds(left, right, window, i, n - 1, c);
    }
  }

  /** The filter keeps a pair exactly when its delta is within both uncertainties and the window. */
  lemma {:induction false} AllPairsHolds(
    left: seq<ComparableEvent>, right: seq<ComparableEvent>, window: u64, m: nat, c: Candidate)
    requires m <= |left|
    ensures c in AllPairs(left, right, window, m) <==>
      && c.left < m && c.right < |right| && Viable(left[c.left], right[c.right], window)
      && c == PairAt(left, right, window, c.left, c.right)
  {
    if m > 0 {
      AllPairsHolds(left, right, window, m - 1, c);
      RowHolds(left, right, window, m - 1, |right|, c);
    }
  }

  lemma {:induction false} RowWithout(
    left: seq<ComparableEvent>, right: seq<ComparableEvent>, window: u64, i: nat, from: nat, n: nat)
    requires i < |left| && from <= n <= |right|
    requires forall j :: from <= j < n ==> !Viable(left[i], right[j], window)
    ensures Row(left, right, window, i, n) == Row(left, right, window, i, from)
  {
    if from < n {
      RowWithout(left, right, window, i, from, n - 1);
    }
  }

  predicate Sorted(events: seq<ComparableEvent>) {
    forall i, j :: 0 <= i < j < |events| ==> events[i].timestamp <= events[j].timestamp
  }

  function MaxUncertainty(events: seq<ComparableEvent>): (m: u64)
    ensures forall i :: 0 <= i < |events| ==> events[i].uncertainty <= m
  {
    if events == [] then 0
    else
      var rest := MaxUncertainty(events[..|events| - 1]);
      var last := events[|events| - 1].uncertainty;
      if last > rest then last else rest
  }

  function BroadWindow(left: ComparableEvent, maxRight: u64, window: u64): u64 {
    SatAdd(SatAdd(left.uncertainty, maxRight), window)
  }

  /** Outside the broad window a pair is not viable, whichever way the additions saturate. */
  lemma OutsideIsNotViable(left: ComparableEvent, right: ComparableEvent, maxRight: u64, window: u64)
    requires right.uncertainty <= maxRight
    requires
      var broad := BroadWindow(left, maxRight, window);
      right.timestamp < SatSub(left.timestamp, broad) || right.timestamp > SatAdd(left.timestamp, broad)
    ensures !Viable(left, right, window)
  {
  }

  /** The scan of one left event: right events from `first` until one lies beyond the window. */
  method ScanRow(
    left: seq<ComparableEvent>, right: seq<ComparableEvent>, window: u64, i: nat, first: nat, maxRight: u64)
    returns (row: seq<Candidate>)
    requires i < |left| && first <= |right| && Sorted(right)
    requires forall j :: 0 <= j < |right| ==> right[j].uncertainty <= maxRight
    requires forall j :: 0 <= j < first ==>
      right[j].timestamp < SatSub(left[i].timestamp, BroadWindow(left[i], maxRight, window))
    ensures row == Row(left, right, window, i, |right|)
  {
    var upper := SatAdd(left[i].timestamp, BroadWindow(left[i], maxRight, window));
    forall j | 0 <= j < first
      ensures !Viable(left[i], right[j], window)
    {
      OutsideIsNotViable(left[i], right[j], maxRight, window);
    }
    RowWithout(left, right, window, i, 0, first);
    row := [];
    var j := first;
    while j < |right|
      invariant first <= j <= |right|
      invariant row == Row(left, right, window, i, j)
    {
      if right[j].timestamp > upper {
        forall k | j <= k < |right|
          ensures !Viable(left[i], right[k], window)
        {
          assert right[j].timestamp <= right[k].timestamp;
          OutsideIsNotViable(left[i], right[k], maxRight, window);
        }
        RowWithout(left, right, window, i, j, |right|);
        return;
      }
      if Viable(left[i], right[j], window) {
        row := row + [PairAt(left, right, window, i, j)];
      }
      j := j + 1;
    }
  }

  /** The lower cursor may skip the right events that precede every remaining window. */
  ghost predicate Behind(
    left: seq<ComparableEvent>, right: seq<ComparableEvent>, window: u64, maxRight: u64, i: nat, first: nat)
  {
    && first <= |right|
    && forall k, j :: i <= k < |left| && 0 <= j < first ==>
      right[j].timestamp < SatSub(left[k].timestamp, BroadWindow(left[k], maxRight, window))
  }

  /** The cursor moves past a right event that lies below the window of left event `i`, and so of every later one. */
  lemma MoveCursor(
    left: seq<ComparableEvent>, right: seq<ComparableEvent>, window: u64, maxRight: u64, i: nat, first: nat)
    requires Sorted(left) && i < |left| && Behind(left, right, window, maxRight, i, first) && first < |right|
    requires forall i, j :: 0 <= i < j < |left| ==> left[i].uncertainty == left[j].uncertainty
    requires right[first].timestamp < SatSub(left[i].timestamp, BroadWindow(left[i], maxRight, window))
    ensures Behind(left, right, window, maxRight, i, first + 1)
  {
    LowerNeverFalls(left, window, maxRight, i);
  }

  method CorrelationCandidates(left: seq<ComparableEvent>, right: seq<ComparableEvent>, window: u64)
    returns (candidates: seq<Candidate>)
    requires Sorted(left) && Sorted(right)
    requires forall i, j :: 0 <= i < j < |left| ==> left[i].uncertainty == left[j].uncertainty
    ensures candidates == AllPairs(left, right, window, |left|)
  {
    var maxRight := MaxUncertainty(right);
    var firstPossible := 0;
    candidates := [];
    for i := 0 to |left|
      invariant Behind(left, right, window, maxRight, i, firstPossible)
      invariant candidates == AllPairs(left, right, window, i)
    {
      var lower := SatSub(left[i].timestamp, BroadWindow(left[i], maxRight, window));
      while firstPossible < |right| && right[firstPossible].timestamp < lower
        invariant Behind(left, right, window, maxRight, i, firstPossible)
      {
        MoveCursor(left, right, window, maxRight, i, firstPossible);
        firstPossible := firstPossible + 1;
      }
      var row := ScanRow(left, right, window, i, firstPossible, maxRight);
      candidates := candidates + row;
    }
  }

  lemma LowerNeverFalls(left: seq<ComparableEvent>, window: u64, maxRight: u64, i: nat)
    requires Sorted(left) && i < |left|
    requires forall i, j :: 0 <= i < j < |left| ==> left[i].uncertainty == left[j].uncertainty
    ensures forall k :: i <= k < |left| ==>
      SatSub(left[i].timestamp, BroadWindow(left[i], maxRight, window))
        <= SatSub(left[k].timestamp, BroadWindow(left[k], maxRight, window))
  {
    forall k | i <= k < |left|
      ensures left[i].timestamp <= left[k].timestamp && left[i].uncertainty == left[k].uncertainty
    {
    }
  }
}
