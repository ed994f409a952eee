/**
 `reliability_delta` and its ledgers: what one segment's footer reports is the
 difference of two checkpoints, and the differences of a whole run add up again.
 */
module ReliabilityDelta {
  import opened Arrange
  import opened Reliability

  function Since(now: nat, before: nat): nat {
    if now < before then 0 else now - before
  }

  /** The lines of `current`, less what `previous` had; lines with nothing new are dropped. */
  function Delta<K(==)>(current: Ledger<K>, previous: Ledger<K>): Ledger<K> {
    if current == [] then []
    else
      var count := Since(current[0].count, CountAt(previous, current[0].site));
      if count == 0 then Delta(current[1..], previous)
      else [Line(current[0].site, count)] + Delta(current[1..], previous)
  }

  /** The same lines in whatever order. */
  ghost predicate Rearranges<K(!new)>(l: Ledger<K>, lines: Ledger<K>) {
    UniqueSites(l) && forall line :: line in l <==> line in lines
  }

  method SortedDelta<K(==,!new)>(
    current: Ledger<K>, previous: Ledger<K>, rank: Line<K> -> Key) returns (segment: Ledger<K>)
    requires UniqueSites(current)
    ensures Rearranges(segment, Delta(current, previous)) && Ordered(segment, rank)
  {
    var lines := Delta(current, previous);
    ghost var order;
    DeltaLines(current, previous);
    segment, order := SortByKey(lines, rank);
    forall line ensures line in segment <==> line in lines {
      if line in lines {
        var i :| 0 <= i < |lines| && lines[i] == line;
        assert i in order;
      }
    }
  }

  /** Sites of a difference come from the later checkpoint, once each, and never with nothing lost. */
  lemma {:induction false} DeltaLines<K>(current: Ledger<K>, previous: Ledger<K>)
    requires UniqueSites(current)
    ensures UniqueSites(Delta(current, previous))
    ensures forall line :: line in Delta(current, previous) ==>
      line.count > 0 && exists i :: 0 <= i < |current| && current[i].site == line.site
  {
    if current != [] {
      DeltaLines(current[1..], previous);
      var rest := Delta(current[1..], previous);
      forall line | line in rest ensures line.count > 0 && exists i ::
        0 < i < |current| && current[i].site == line.site {
        var i :| 0 <= i < |current[1..]| && current[1..][i].site == line.site;
        assert current[i + 1].site == line.site;
      }
    }
  }

  lemma {:induction false} CountOfDelta<K>(current: Ledger<K>, previous: Ledger<K>, site: K)
    requires UniqueSites(current)
    ensures CountAt(Delta(current, previous), site) == Since(CountAt(current, site), CountAt(previous, site))
  {
    if current != [] {
      var rest := Delta(current[1..], previous);
      var count := Since(current[0].count, CountAt(previous, current[0].site));
      CountOfDelta(current[1..], previous, site);
      DeltaLines(current[1..], previous);
      if count != 0 {
        assert ([Line(current[0].site, count)] + rest)[1..] == rest;
      }
      FirstSiteOnce(current);
    }
  }

  /** Order does not matter: ledgers with the same lines count the same. */
  lemma CountsSurviveReordering<K(!new)>(l: Ledger<K>, lines: Ledger<K>, site: K)
    requires UniqueSites(lines) && Rearranges(l, lines)
    ensures CountAt(l, site) == CountAt(lines, site)
  {
    LineOfCount(l, site);
    LineOfCount(lines, site);
    if CountAt(l, site) > 0 {
      CountOfLine(lines, Line(site, CountAt(l, site)));
    } else if CountAt(lines, site) > 0 {
      CountOfLine(l, Line(site, CountAt(lines, site)));
    }
  }

  // ----- two checkpoints -----

  ghost predicate NeverLess<K(!new)>(before: Ledger<K>, now: Ledger<K>) {
    forall site :: CountAt(before, site) <= CountAt(now, site)
  }

  /** A later ledger and a difference, in whatever order, as bags of losses. */
  lemma DeltaBag<K(!new)>(before: Ledger<K>, now: Ledger<K>, segment: Ledger<K>)
    requires UniqueSites(before) && UniqueSites(now) && NeverLess(before, now)
    requires Rearranges(segment, Delta(now, before))
    ensures Losses(before) <= Losses(now) && Losses(segment) == Losses(now) - Losses(before)
    ensures Total(segment) + Total(before) == Total(now)
  {
    DeltaLines(now, before);
    forall site
      ensures Losses(segment)[site] + Losses(before)[site] == Losses(now)[site]
    {
      CountsSurviveReordering(segment, Delta(now, before), site);
      CountOfDelta(now, before, site);
      LossesAt(segment, site);
      LossesAt(before, site);
      LossesAt(now, site);
    }
    assert Losses(segment) + Losses(before) == Losses(now);
    TotalIsLosses(segment);
    TotalIsLosses(before);
    TotalIsLosses(now);
  }

  /** How far a breakdown with its unattributed rest lags behind the total. */
  function Lag<K>(l: Ledger<K>, unattributed: nat, total: nat): int {
    total - Total(l) - unattributed
  }

  /**
   A segment's breakdown stays within the segment's total exactly when the
   earlier checkpoint lagged no further behind than the later one, and
   otherwise exceeds it by the difference.
   */
  lemma SegmentFitsIff<K(!new)>(
    before: Ledger<K>, now: Ledger<K>, segment: Ledger<K>,
    unattributed: nat, unattributedNow: nat, total: nat, totalNow: nat)
    requires UniqueSites(before) && UniqueSites(now) && NeverLess(before, now)
    requires unattributed <= unattributedNow && total <= totalNow
    requires Rearranges(segment, Delta(now, before))
    ensures Total(segment) + Since(unattributedNow, unattributed) <= Since(totalNow, total)
       <==> Lag(before, unattributed, total) <= Lag(now, unattributedNow, totalNow)
    ensures Total(segment) + Since(unattributedNow, unattributed) - Since(totalNow, total)
         == Lag(before, unattributed, total) - Lag(now, unattributedNow, totalNow)
  {
    DeltaBag(before, now, segment);
  }

  // ----- the whole record -----

  function Difference(current: Reliability, previous: Reliability): Reliability {
    Reliability(
      Since(current.reserveFailures, previous.reserveFailures),
      Since(current.readFailures, previous.readFailures),
      Since(current.filteredEvents, previous.filteredEvents),
      Since(current.recursionMisses, previous.recursionMisses),
      Since(current.decodeFailures, previous.decodeFailures),
      Since(current.enrichmentFailures, previous.enrichmentFailures),
      Since(current.outputFailures, previous.outputFailures),
      CpuDelta(current.lossByCpu, previous.lossByCpu),
      Delta(current.lossByProbe, previous.lossByProbe),
      Since(current.unattributedReserveFailures, previous.unattributedReserveFailures),
      Delta(current.lossBySkb, previous.lossBySkb),
      Since(current.unattributedSkbLosses, previous.unattributedSkbLosses))
  }

  /** What `reliability_delta` returns: the difference, with each ledger in some order. */
  ghost predicate IsDelta(segment: Reliability, current: Reliability, previous: Reliability) {
    var difference := Difference(current, previous);
    && segment == difference.(lossByProbe := segment.lossByProbe, lossBySkb := segment.lossBySkb)
    && Rearranges(segment.lossByProbe, difference.lossByProbe)
    && Rearranges(segment.lossBySkb, difference.lossBySkb)
  }

  predicate AddsTo(part: nat, before: nat, now: nat) {
    before <= now ==> before + part == now
  }

  /** What a segment counts and what had been counted before make up what has been counted since. */
  lemma FieldsAddUp(segment: Reliability, now: Reliability, before: Reliability, cpu: nat)
    requires IsDelta(segment, now, before) && UniqueCpus(now.lossByCpu)
    ensures AddsTo(segment.reserveFailures, before.reserveFailures, now.reserveFailures)
    ensures AddsTo(segment.readFailures, before.readFailures, now.readFailures)
    ensures AddsTo(segment.filteredEvents, before.filteredEvents, now.filteredEvents)
    ensures AddsTo(segment.recursionMisses, before.recursionMisses, now.recursionMisses)
    ensures AddsTo(segment.decodeFailures, before.decodeFailures, now.decodeFailures)
    ensures AddsTo(segment.enrichmentFailures, before.enrichmentFailures, now.enrichmentFailures)
    ensures AddsTo(segment.outputFailures, before.outputFailures, now.outputFailures)
    ensures AddsTo(
      segment.unattributedReserveFailures, before.unattributedReserveFailures, now.unattributedReserveFailures)
    ensures AddsTo(segment.unattributedSkbLosses, before.unattributedSkbLosses, now.unattributedSkbLosses)
    ensures
      var (part, earlier, later) :=
        (CpuAt(segment.lossByCpu, cpu), CpuAt(before.lossByCpu, cpu), CpuAt(now.lossByCpu, cpu));
      AddsTo(part.0, earlier.0, later.0) && AddsTo(part.1, earlier.1, later.1)
  {
    CpuDeltaCounts(now.lossByCpu, before.lossByCpu, cpu);
  }

  method SegmentReliability(
    current: Reliability, previous: Reliability, probeRank: Line<Site> -> Key, packetRank: Line<SkbKey> -> Key)
    returns (segment: Reliability)
    requires UniqueSites(current.lossByProbe) && UniqueSites(current.lossBySkb)
    ensures IsDelta(segment, current, previous)
    ensures Ordered(segment.lossByProbe, probeRank) && Ordered(segment.lossBySkb, packetRank)
  {
    var probes := SortedDelta(current.lossByProbe, previous.lossByProbe, probeRank);
    var packets := SortedDelta(current.lossBySkb, previous.lossBySkb, packetRank);
    segment := Difference(current, previous).(lossByProbe := probes, lossBySkb := packets);
  }

  /** Counts at the boundaries of a run: nothing at the start, and no site ever loses any. */
  ghost predicate Checkpoints<K(!new)>(checkpoints: seq<Ledger<K>>) {
    && checkpoints != [] && checkpoints[0] == []
    && (forall t :: 0 <= t < |checkpoints| ==> UniqueSites(checkpoints[t]))
    && (forall t, u :: 0 <= t < u < |checkpoints| ==> NeverLess(checkpoints[t], checkpoints[u]))
  }

  /** One segment's ledger per interval between checkpoints, each in some order. */
  ghost predicate Segments<K(!new)>(segments: seq<Ledger<K>>, checkpoints: seq<Ledger<K>>) {
    && |segments| + 1 == |checkpoints|
    && forall t :: 0 <= t < |segments| ==> Rearranges(segments[t], Delta(checkpoints[t + 1], checkpoints[t]))
  }

  function SumAt<K(==)>(segments: seq<Ledger<K>>, site: K): nat {
    if segments == [] then 0 else SumAt(segments[..|segments| - 1], site) + CountAt(segments[|segments| - 1], site)
  }

  lemma {:induction false} DeltasTelescope<K(!new)>(segments: seq<Ledger<K>>, checkpoints: seq<Ledger<K>>, site: K)
    requires Checkpoints(checkpoints) && Segments(segments, checkpoints)
    ensures SumAt(segments, site) == CountAt(checkpoints[|segments|], site)
  {
    if segments != [] {
      var n := |segments| - 1;
      var before, now := checkpoints[n], checkpoints[n + 1];
      DeltasTelescope(segments[..n], checkpoints[..n + 1], site);
      DeltaLines(now, before);
      CountsSurviveReordering(segments[n], Delta(now, before), site);
      CountOfDelta(now, before, site);
      assert NeverLess(before, now);
    }
  }

  lemma NoZeroLines<K(!new)>(segments: seq<Ledger<K>>, checkpoints: seq<Ledger<K>>, t: nat, line: Line<K>)
    requires Checkpoints(checkpoints) && Segments(segments, checkpoints) && t < |segments| && line in segments[t]
    ensures line.count > 0
  {
    DeltaLines(checkpoints[t + 1], checkpoints[t]);
  }

  // ----- totals -----

  ghost function AllLosses<K(!new)>(segments: seq<Ledger<K>>): multiset<K> {
    if segments == [] then multiset{} else AllLosses(segments[..|segments| - 1]) + Losses(segments[|segments| - 1])
  }

  function SumOfTotals<K>(segments: seq<Ledger<K>>): nat {
    if segments == [] then 0 else SumOfTotals(segments[..|segments| - 1]) + Total(segments[|segments| - 1])
  }

  lemma {:induction false} AllLossesAt<K(!new)>(segments: seq<Ledger<K>>, site: K)
    requires forall t :: 0 <= t < |segments| ==> UniqueSites(segments[t])
    ensures AllLosses(segments)[site] == SumAt(segments, site)
  {
    if segments != [] {
      AllLossesAt(segments[..|segments| - 1], site);
      LossesAt(segments[|segments| - 1], site);
    }
  }

  /** The segments of a run, added up, are the last checkpoint: site by site and in total. */
  lemma SegmentsAddUp<K(!new)>(segments: seq<Ledger<K>>, checkpoints: seq<Ledger<K>>)
    requires Checkpoints(checkpoints) && Segments(segments, checkpoints)
    ensures AllLosses(segments) == Losses(checkpoints[|segments|])
    ensures SumOfTotals(segments) == Total(checkpoints[|segments|])
  {
    var last := checkpoints[|segments|];
    forall site ensures AllLosses(segments)[site] == Losses(last)[site] {
      SiteAddsUp(segments, checkpoints, site);
    }
    assert AllLosses(segments) == Losses(last);
    TotalIsLosses(last);
    SumsMatch(segments);
  }

  lemma SiteAddsUp<K(!new)>(segments: seq<Ledger<K>>, checkpoints: seq<Ledger<K>>, site: K)
    requires Checkpoints(checkpoints) && Segments(segments, checkpoints)
    ensures AllLosses(segments)[site] == Losses(checkpoints[|segments|])[site]
  {
    DeltasTelescope(segments, checkpoints, site);
    forall t | 0 <= t < |segments| ensures UniqueSites(segments[t]) {
      assert Rearranges(segments[t], Delta(checkpoints[t + 1], checkpoints[t]));
    }
    AllLossesAt(segments, site);
    LossesAt(checkpoints[|segments|], site);
  }

  lemma {:induction false} SumsMatch<K(!new)>(segments: seq<Ledger<K>>)
    ensures |AllLosses(segments)| == SumOfTotals(segments)
  {
    if segments != [] {
      SumsMatch(segments[..|segments| - 1]);
      TotalIsLosses(segments[|segments| - 1]);
    }
  }

  // ----- counters, and the bound they put on a ledger -----

  ghost predicate Counts(counter: seq<nat>) {
    && counter != [] && counter[0] == 0
    && forall t, u :: 0 <= t < u < |counter| ==> counter[t] <= counter[u]
  }

  /** What the segments of a run report of a counter, added up. */
  function SumOfDeltas(counter: seq<nat>): nat
    requires counter != []
  {
    var n := |counter| - 1;
    if n == 0 then 0 else SumOfDeltas(counter[..n]) + Since(counter[n], counter[n - 1])
  }

  lemma {:induction false} CounterTelescopes(counter: seq<nat>)
    requires Counts(counter)
    ensures SumOfDeltas(counter) == counter[|counter| - 1]
  {
    var n := |counter| - 1;
    if n > 0 {
      CounterTelescopes(counter[..n]);
    }
  }

  /** If a ledger and its unattributed rest fit the total at the end of the run, the summed segments fit too. */
  lemma SummedSegmentsFit<K(!new)>(
    segments: seq<Ledger<K>>, checkpoints: seq<Ledger<K>>, unattributed: seq<nat>, total: seq<nat>)
    requires Checkpoints(checkpoints) && Segments(segments, checkpoints)
    requires Counts(unattributed) && Counts(total) && |unattributed| == |total| == |checkpoints|
    requires Total(checkpoints[|segments|]) + unattributed[|segments|] <= total[|segments|]
    ensures SumOfTotals(segments) + SumOfDeltas(unattributed) <= SumOfDeltas(total)
  {
    SegmentsAddUp(segments, checkpoints);
    CounterTelescopes(unattributed);
    CounterTelescopes(total);
  }

  // ----- per CPU -----

  function CpuAt(l: seq<CpuLine>, cpu: nat): (nat, nat) {
    if l == [] then (0, 0)
    else if l[0].cpu == cpu then (l[0].reserveFailures, l[0].readFailures)
    else CpuAt(l[1..], cpu)
  }

  ghost predicate UniqueCpus(l: seq<CpuLine>) {
    forall i, j :: 0 <= i < j < |l| ==> l[i].cpu != l[j].cpu
  }

  function CpuDelta(current: seq<CpuLine>, previous: seq<CpuLine>): seq<CpuLine> {
    if current == [] then []
    else
      var now, before := current[0], CpuAt(previous, current[0].cpu);
      var line := CpuLine(now.cpu, Since(now.reserveFailures, before.0), Since(now.readFailures, before.1));
      if line.reserveFailures == 0 && line.readFailures == 0 then CpuDelta(current[1..], previous)
      else [line] + CpuDelta(current[1..], previous)
  }

  lemma {:induction false} CpuAbsent(l: seq<CpuLine>, cpu: nat)
    requires forall i :: 0 <= i < |l| ==> l[i].cpu != cpu
    ensures CpuAt(l, cpu) == (0, 0)
  {
    if l != [] {
      CpuAbsent(l[1..], cpu);
    }
  }

  /** CPU by CPU the difference of both counts; a CPU with neither is left out. */
  lemma {:induction false} CpuDeltaCounts(current: seq<CpuLine>, previous: seq<CpuLine>, cpu: nat)
    requires UniqueCpus(current)
    ensures CpuAt(CpuDelta(current, previous), cpu)
         == (Since(CpuAt(current, cpu).0, CpuAt(previous, cpu).0), Since(CpuAt(current, cpu).1, CpuAt(previous, cpu).1))
    ensures forall line :: line in CpuDelta(current, previous) ==> line.reserveFailures + line.readFailures > 0
  {
    if current != [] {
      var rest := CpuDelta(current[1..], previous);
      CpuDeltaCounts(current[1..], previous, cpu);
      CpuAbsent(current[1..], current[0].cpu);
      if CpuDelta(current, previous) != rest {
        assert CpuDelta(current, previous)[1..] == rest;
      }
    }
  }

  ghost predicate CpuCheckpoints(checkpoints: seq<seq<CpuLine>>) {
    && checkpoints != [] && checkpoints[0] == []
    && (forall t :: 0 <= t < |checkpoints| ==> UniqueCpus(checkpoints[t]))
    && (forall t, u :: 0 <= t < u < |checkpoints| ==> CpuNeverLess(checkpoints[t], checkpoints[u]))
  }

  ghost predicate CpuNeverLess(before: seq<CpuLine>, now: seq<CpuLine>) {
    forall cpu :: CpuAt(before, cpu).0 <= CpuAt(now, cpu).0 && CpuAt(before, cpu).1 <= CpuAt(now, cpu).1
  }

  function CpuSum(checkpoints: seq<seq<CpuLine>>, cpu: nat): (nat, nat)
    requires checkpoints != []
  {
    var n := |checkpoints| - 1;
    if n == 0 then (0, 0)
    else
      var (before, here) := (CpuSum(checkpoints[..n], cpu), CpuAt(CpuDelta(checkpoints[n], checkpoints[n - 1]), cpu));
      (before.0 + here.0, before.1 + here.1)
  }

  lemma CpuPrefix(checkpoints: seq<seq<CpuLine>>)
    requires CpuCheckpoints(checkpoints) && |checkpoints| > 1
    ensures CpuCheckpoints(checkpoints[..|checkpoints| - 1])
  {
  }

  lemma CpuStep(before: seq<CpuLine>, now: seq<CpuLine>, cpu: nat)
    requires UniqueCpus(now) && CpuNeverLess(before, now)
    ensures CpuAt(CpuDelta(now, before), cpu).0 + CpuAt(before, cpu).0 == CpuAt(now, cpu).0
    ensures CpuAt(CpuDelta(now, before), cpu).1 + CpuAt(before, cpu).1 == CpuAt(now, cpu).1
  {
    CpuDeltaCounts(now, before, cpu);
  }

  lemma {:induction false} CpuDeltasTelescope(checkpoints: seq<seq<CpuLine>>, cpu: nat)
    requires CpuCheckpoints(checkpoints)
    ensures CpuSum(checkpoints, cpu) == CpuAt(checkpoints[|checkpoints| - 1], cpu)
  {
    var n := |checkpoints| - 1;
    if n > 0 {
      CpuPrefix(checkpoints);
      CpuDeltasTelescope(checkpoints[..n], cpu);
      CpuStep(checkpoints[n - 1], checkpoints[n], cpu);
    }
  }
}
