/**
 Footers of rotated segments: the difference of two successive checkpoints of
 one run, and what the verdict on a packet is worth when it is read from one.
 */
module SegmentVerdict {
  import opened Common
  import opened Reliability
  import opened ReliabilityDelta
  import opened LossBooks
  import opened LossLedger
  import opened LossReadout
  import opened LossVerdict

  /** One capture has read its last counter before the next begins. */
  ghost predicate Precedes(a: Capture, b: Capture) {
    && a.probes.to <= b.probes.from && a.packets.to <= b.probes.from
    && forall i :: 0 <= i < |a.at| ==> a.at[i] <= b.probes.from
  }

  /** Two checkpoints of one run, the first taken before the second. */
  ghost predicate Successors(run: seq<World>, a: Capture, before: Reliability, b: Capture, now: Reliability) {
    IsFooter(run, a, before) && IsFooter(run, b, now) && Precedes(a, b)
  }

  lemma PacketCheckpointsGrow(run: seq<World>, a: Capture, before: Reliability, b: Capture, now: Reliability)
    requires Successors(run, a, before, b, now)
    ensures Losses(before.lossBySkb) <= Filed(run[b.packets.from].skb) <= Losses(now.lossBySkb)
    ensures CountedLosses(run, a) <= CountedLosses(run, b) && GivenUpLosses(run, a) <= GivenUpLosses(run, b)
    ensures Losses(before.lossBySkb) <= CountedLosses(run, a) && Losses(now.lossBySkb) <= CountedLosses(run, b)
  {
    var h := SkbHistory(run);
    PacketTotals(run, a, before);
    PacketTotals(run, b, now);
    ReadoutsGrow(h, PacketReadout(run, a), PacketReadout(run, b));
    LedgerNeverExceeds(h, PacketReadout(run, a));
    LedgerNeverExceeds(h, PacketReadout(run, b));
    assert h[b.packets.from] == run[b.packets.from].skb;
  }

  lemma ProbeCheckpointsGrow(run: seq<World>, a: Capture, before: Reliability, b: Capture, now: Reliability)
    requires Successors(run, a, before, b, now)
    ensures Losses(before.lossByProbe) <= Losses(now.lossByProbe)
    ensures before.unattributedReserveFailures <= now.unattributedReserveFailures
  {
    var h := SiteHistory(run);
    ProbeTotals(run, a, before);
    ProbeTotals(run, b, now);
    var (r, later) := (ProbeReadout(run, a), ProbeReadout(run, b));
    ReadoutsGrow(h, r, later);
    SmallerBag(Unfiled(CountedBy(h, r)), Unfiled(CountedBy(h, later)));
  }

  lemma BagsNeverLess<K(!new)>(before: Ledger<K>, now: Ledger<K>)
    requires UniqueSites(before) && UniqueSites(now) && Losses(before) <= Losses(now)
    ensures NeverLess(before, now)
  {
    forall site
      ensures CountAt(before, site) <= CountAt(now, site)
    {
      LossesAt(before, site);
      LossesAt(now, site);
    }
  }

  /** Successive readouts of one run are checkpoints as `reliability_delta` needs them: nothing ever shrinks. */
  lemma CheckpointsGrow(run: seq<World>, a: Capture, before: Reliability, b: Capture, now: Reliability)
    requires Successors(run, a, before, b, now)
    ensures UniqueSites(before.lossBySkb) && UniqueSites(now.lossBySkb) && NeverLess(before.lossBySkb, now.lossBySkb)
    ensures UniqueSites(before.lossByProbe) && UniqueSites(now.lossByProbe)
    ensures NeverLess(before.lossByProbe, now.lossByProbe)
    ensures before.reserveFailures <= now.reserveFailures
    ensures before.unattributedSkbLosses <= now.unattributedSkbLosses
    ensures before.unattributedReserveFailures <= now.unattributedReserveFailures
  {
    PacketCheckpointsGrow(run, a, before, b, now);
    ProbeCheckpointsGrow(run, a, before, b, now);
    BagsNeverLess(before.lossBySkb, now.lossBySkb);
    BagsNeverLess(before.lossByProbe, now.lossByProbe);
    PacketTotals(run, a, before);
    PacketTotals(run, b, now);
    SmallerBag(CountedLosses(run, a), CountedLosses(run, b));
    SmallerBag(GivenUpLosses(run, a), GivenUpLosses(run, b));
  }

  /** What was lost between the two readings of the counters. */
  ghost function SegmentLosses(run: seq<World>, a: Capture, b: Capture): multiset<SkbKey>
    requires IsCapture(run, a) && IsCapture(run, b)
  {
    CountedLosses(run, b) - CountedLosses(run, a)
  }

  /** Losses the counters had seen and the ledger had not. */
  ghost function Late(run: seq<World>, c: Capture, footer: Reliability): multiset<SkbKey>
    requires IsCapture(run, c)
  {
    CountedLosses(run, c) - Losses(footer.lossBySkb)
  }

  // ----- the verdict of a segment -----

  /** In bags: the segment's ledger, its losses and what each checkpoint was late with. */
  lemma LateDecides(
    ledger: multiset<SkbKey>, ledger': multiset<SkbKey>, lost: multiset<SkbKey>, lost': multiset<SkbKey>, identity: nat)
    requires ledger <= ledger' && lost <= lost' && ledger <= lost && ledger' <= lost'
    ensures |Of(ledger' - ledger, identity)| == |Of(lost' - lost, identity)|
       <==> |Of(lost' - ledger', identity)| == |Of(lost - ledger, identity)|
  {
    OfMinus(ledger, ledger', identity);
    OfMinus(lost, lost', identity);
    OfMinus(ledger, lost, identity);
    OfMinus(ledger', lost', identity);
  }

  lemma SegmentLedger(
    run: seq<World>, a: Capture, before: Reliability, b: Capture, now: Reliability, segment: Reliability)
    requires Successors(run, a, before, b, now) && IsDelta(segment, now, before)
    ensures Losses(before.lossBySkb) <= Losses(now.lossBySkb)
    ensures Losses(segment.lossBySkb) == Losses(now.lossBySkb) - Losses(before.lossBySkb)
  {
    CheckpointsGrow(run, a, before, b, now);
    DeltaBag(before.lossBySkb, now.lossBySkb, segment.lossBySkb);
  }

  /**
   A fully attributed segment rules exactly on a packet if and only if the
   ledger was late with as many of that packet's losses at the later checkpoint
   as at the earlier one.
   */
  lemma SegmentVerdictExactIff(
    run: seq<World>, a: Capture, before: Reliability, b: Capture, now: Reliability, segment: Reliability, identity: nat)
    requires Successors(run, a, before, b, now) && IsDelta(segment, now, before)
    requires segment.LossIsFullyAttributed()
    ensures VerdictExact(segment, SegmentLosses(run, a, b), identity)
       <==> |Of(Late(run, b, now), identity)| == |Of(Late(run, a, before), identity)|
  {
    SegmentLedger(run, a, before, b, now, segment);
    PacketCheckpointsGrow(run, a, before, b, now);
    VerdictCompares(segment, SegmentLosses(run, a, b), identity);
    LateDecides(
      Losses(before.lossBySkb), Losses(now.lossBySkb), CountedLosses(run, a), CountedLosses(run, b), identity);
  }

  lemma OnlyGivenUpIsLate(run: seq<World>, c: Capture, footer: Reliability)
    requires IsFooter(run, c, footer) && AddsUp(footer)
    ensures Late(run, c, footer) == GivenUpLosses(run, c)
  {
    AddsUpIffComplete(run, c, footer);
    var (ledger, rest) := (Losses(footer.lossBySkb), GivenUpLosses(run, c));
    assert ledger + rest - ledger == rest;
  }

  /** What a reader can check: if both checkpoints add up, the segment between them rules exactly. */
  lemma SettledSegmentRulesExactly(
    run: seq<World>, a: Capture, before: Reliability, b: Capture, now: Reliability, segment: Reliability, identity: nat)
    requires Successors(run, a, before, b, now) && IsDelta(segment, now, before)
    requires segment.LossIsFullyAttributed() && AddsUp(before) && AddsUp(now)
    ensures VerdictExact(segment, SegmentLosses(run, a, b), identity)
  {
    SegmentVerdictExactIff(run, a, before, b, now, segment, identity);
    SameGivenUp(run, a, before, b, now, segment);
    OnlyGivenUpIsLate(run, a, before);
    OnlyGivenUpIsLate(run, b, now);
  }

  /** And so does a segment that says nothing was lost in it, whatever either checkpoint was late with. */
  lemma EmptySegmentRulesExactly(
    run: seq<World>, a: Capture, before: Reliability, b: Capture, now: Reliability, segment: Reliability, identity: nat)
    requires Successors(run, a, before, b, now) && IsDelta(segment, now, before)
    requires segment.LossIsFullyAttributed() && AddsUp(segment) && segment.reserveFailures == 0
    ensures VerdictExact(segment, SegmentLosses(run, a, b), identity)
  {
    SegmentTotal(run, a, before, b, now, segment);
    TotalIsLosses(segment.lossBySkb);
    assert SegmentLosses(run, a, b) == multiset{} && Losses(segment.lossBySkb) == multiset{};
    VerdictCompares(segment, SegmentLosses(run, a, b), identity);
  }

  lemma SameGivenUp(
    run: seq<World>, a: Capture, before: Reliability, b: Capture, now: Reliability, segment: Reliability)
    requires Successors(run, a, before, b, now) && IsDelta(segment, now, before)
    requires segment.unattributedSkbLosses == 0
    ensures GivenUpLosses(run, a) == GivenUpLosses(run, b)
  {
    PacketCheckpointsGrow(run, a, before, b, now);
    PacketTotals(run, a, before);
    PacketTotals(run, b, now);
    SmallerBag(GivenUpLosses(run, a), GivenUpLosses(run, b));
  }

  /** Quiet at both ends is enough. */
  lemma QuietSegmentRulesExactly(
    run: seq<World>, a: Capture, before: Reliability, b: Capture, now: Reliability, segment: Reliability, identity: nat)
    requires Successors(run, a, before, b, now) && IsDelta(segment, now, before)
    requires segment.LossIsFullyAttributed() && IsQuiet(run, a) && IsQuiet(run, b)
    ensures VerdictExact(segment, SegmentLosses(run, a, b), identity)
  {
    QuietAddsUp(run, a, before);
    QuietAddsUp(run, b, now);
    SettledSegmentRulesExactly(run, a, before, b, now, segment, identity);
  }

  /** A segment that rules exactly on every packet adds up itself; `LateFilingMisleads` shows the converse fails. */
  lemma ExactSegmentAddsUp(
    run: seq<World>, a: Capture, before: Reliability, b: Capture, now: Reliability, segment: Reliability)
    requires Successors(run, a, before, b, now) && IsDelta(segment, now, before)
    requires segment.LossIsFullyAttributed()
    requires forall identity: nat :: VerdictExact(segment, SegmentLosses(run, a, b), identity)
    ensures AddsUp(segment)
  {
    forall identity: nat
      ensures |Of(Losses(segment.lossBySkb), identity)| == |Of(SegmentLosses(run, a, b), identity)|
    {
      VerdictCompares(segment, SegmentLosses(run, a, b), identity);
    }
    PacketwiseSizes(Losses(segment.lossBySkb), SegmentLosses(run, a, b));
    TotalIsLosses(segment.lossBySkb);
    SegmentTotal(run, a, before, b, now, segment);
  }

  lemma SegmentTotal(
    run: seq<World>, a: Capture, before: Reliability, b: Capture, now: Reliability, segment: Reliability)
    requires Successors(run, a, before, b, now) && IsDelta(segment, now, before)
    ensures segment.reserveFailures == |SegmentLosses(run, a, b)|
  {
    PacketCheckpointsGrow(run, a, before, b, now);
    PacketTotals(run, a, before);
    PacketTotals(run, b, now);
    CountsOfDifference(CountedLosses(run, a), CountedLosses(run, b), before.reserveFailures, now.reserveFailures);
  }

  lemma CountsOfDifference<K>(a: multiset<K>, b: multiset<K>, before: nat, now: nat)
    requires a <= b && |a| == before && |b| == now
    ensures |b - a| == Since(now, before)
  {
    SizeOfDifference(a, b);
  }

  /** A packet the segment clears had nothing filed between the earlier ledger and the start of the later walk. */
  lemma SegmentClearedMeansNothingFiled(
    run: seq<World>, a: Capture, before: Reliability, b: Capture, now: Reliability, segment: Reliability, identity: nat)
    requires Successors(run, a, before, b, now) && IsDelta(segment, now, before)
    requires Verdict(Some(segment), identity) == NothingLost
    ensures Of(Filed(run[b.packets.from].skb), identity) == Of(Losses(before.lossBySkb), identity)
  {
    SegmentLedger(run, a, before, b, now, segment);
    PacketCheckpointsGrow(run, a, before, b, now);
    LedgerSums(segment.lossBySkb, identity);
    NothingBetween(Losses(before.lossBySkb), Filed(run[b.packets.from].skb), Losses(now.lossBySkb), identity);
  }

  lemma NothingBetween(past: multiset<SkbKey>, filed: multiset<SkbKey>, here: multiset<SkbKey>, identity: nat)
    requires past <= filed <= here && |Of(here - past, identity)| == 0
    ensures Of(filed, identity) == Of(past, identity)
  {
    OfMinus(past, here, identity);
    OfGrows(past, filed, identity);
    OfGrows(filed, here, identity);
    SmallerBag(Of(past, identity), Of(filed, identity));
  }

  // ----- the size of a segment's breakdowns -----

  function ProbeLag(footer: Reliability): int {
    Lag(footer.lossByProbe, footer.unattributedReserveFailures, footer.reserveFailures)
  }

  function PacketLag(footer: Reliability): int {
    Lag(footer.lossBySkb, footer.unattributedSkbLosses, footer.reserveFailures)
  }

  /**
   A segment's breakdown stays within its total exactly when the earlier
   checkpoint lagged no further behind than the later one; otherwise it exceeds
   the total by the difference. A checkpoint itself never lags by less than nothing.
   */
  lemma SegmentFitsIffLagGrew(
    run: seq<World>, a: Capture, before: Reliability, b: Capture, now: Reliability, segment: Reliability)
    requires Successors(run, a, before, b, now) && IsDelta(segment, now, before)
    ensures 0 <= ProbeLag(before) && 0 <= ProbeLag(now) && 0 <= PacketLag(before) && 0 <= PacketLag(now)
    ensures ProbeLag(segment) == ProbeLag(now) - ProbeLag(before)
    ensures PacketLag(segment) == PacketLag(now) - PacketLag(before)
    ensures Total(segment.lossByProbe) + segment.unattributedReserveFailures <= segment.reserveFailures
       <==> ProbeLag(before) <= ProbeLag(now)
    ensures Total(segment.lossBySkb) + segment.unattributedSkbLosses <= segment.reserveFailures
       <==> PacketLag(before) <= PacketLag(now)
  {
    CheckpointsGrow(run, a, before, b, now);
    SiteAttributionFits(run, a, before);
    SiteAttributionFits(run, b, now);
    AttributionFits(run, a, before, 0);
    AttributionFits(run, b, now, 0);
    SegmentFitsIff(
      before.lossByProbe, now.lossByProbe, segment.lossByProbe, before.unattributedReserveFailures,
      now.unattributedReserveFailures, before.reserveFailures, now.reserveFailures);
    SegmentFitsIff(
      before.lossBySkb, now.lossBySkb, segment.lossBySkb, before.unattributedSkbLosses,
      now.unattributedSkbLosses, before.reserveFailures, now.reserveFailures);
  }

  // ----- all the segments of a run -----

  /** What the first segment is measured against: the default record. */
  function NothingLostYet(): Reliability {
    Reliability(0, 0, 0, 0, 0, 0, 0, [], [], 0, [], 0)
  }

  /** A reading at the very first moment, when the tables are empty. */
  function AtStart(cpus: nat): Capture {
    Capture(Walk([], 0, 0), Walk([], 0, 0), Zeros(cpus))
  }

  lemma {:induction false} IdleTotals(cpus: seq<Cpu>)
    requires forall c :: 0 <= c < |cpus| ==> cpus[c] == Cpu(0, 0, 0, Idle)
    ensures ReserveFailures(cpus) == UnattributedReserve(cpus) == UnattributedSkb(cpus) == 0
  {
    if cpus != [] {
      IdleTotals(cpus[..|cpus| - 1]);
    }
  }

  lemma StartIsCheckpoint(run: seq<World>)
    requires IsRun(run)
    ensures IsFooter(run, AtStart(|run[0].kernel.cpus|), NothingLostYet())
  {
    var c := AtStart(|run[0].kernel.cpus|);
    assert SkbReadings(run, c.packets.samples) == [] && SiteReadings(run, c.probes.samples) == [];
    assert IsCapture(run, c);
    IdleTotals(CpusRead(run, c));
  }

  /** The checkpoints of one run: the default record, then one readout at each boundary and one at the end. */
  ghost predicate IsLog(run: seq<World>, captures: seq<Capture>, footers: seq<Reliability>) {
    && |captures| == |footers| > 0 && footers[0] == NothingLostYet()
    && AllRead(run, captures, footers) && InOrder(captures)
  }

  ghost predicate AllRead(run: seq<World>, captures: seq<Capture>, footers: seq<Reliability>) {
    |captures| == |footers| && forall t :: 0 <= t < |footers| ==> IsFooter(run, captures[t], footers[t])
  }

  ghost predicate InOrder(captures: seq<Capture>) {
    forall t, u :: 0 <= t < u < |captures| ==> Precedes(captures[t], captures[u])
  }

  /** Every run has a log to begin with: the default record, which is what a reading at the very start would say. */
  lemma StartIsLog(run: seq<World>)
    requires IsRun(run)
    ensures IsLog(run, [AtStart(|run[0].kernel.cpus|)], [NothingLostYet()])
  {
    StartIsCheckpoint(run);
  }

  lemma PrecedesOn(a: Capture, b: Capture, c: Capture)
    requires Precedes(a, b) && Precedes(b, c) && b.probes.from <= b.probes.to
    ensures Precedes(a, c)
  {
  }

  /** And one more readout, begun when the last is over, goes onto any log. */
  lemma LogGrows(
    run: seq<World>, captures: seq<Capture>, footers: seq<Reliability>, c: Capture, footer: Reliability)
    requires IsLog(run, captures, footers) && IsFooter(run, c, footer) && Precedes(captures[|captures| - 1], c)
    ensures IsLog(run, captures + [c], footers + [footer])
  {
    OneMoreRead(run, captures, footers, c, footer);
    OneMoreInOrder(captures, c);
  }

  lemma OneMoreRead(
    run: seq<World>, captures: seq<Capture>, footers: seq<Reliability>, c: Capture, footer: Reliability)
    requires AllRead(run, captures, footers) && IsFooter(run, c, footer)
    ensures AllRead(run, captures + [c], footers + [footer])
  {
  }

  lemma OneMoreInOrder(captures: seq<Capture>, c: Capture)
    requires InOrder(captures) && captures != []
    requires var last := captures[|captures| - 1]; last.probes.from <= last.probes.to && Precedes(last, c)
    ensures InOrder(captures + [c])
  {
    var last := |captures| - 1;
    forall t | 0 <= t < last
      ensures Precedes(captures[t], c)
    {
      PrecedesOn(captures[t], captures[last], c);
    }
  }

  function PacketLedger(footer: Reliability): Ledger<SkbKey> { footer.lossBySkb }

  function ProbeLedger(footer: Reliability): Ledger<Site> { footer.lossByProbe }

  function Failures(footer: Reliability): nat { footer.reserveFailures }

  function UnfiledPackets(footer: Reliability): nat { footer.unattributedSkbLosses }

  function UnfiledProbes(footer: Reliability): nat { footer.unattributedReserveFailures }

  /** The readouts of a run meet every assumption made of checkpoints. */
  lemma LogCheckpoints(run: seq<World>, captures: seq<Capture>, footers: seq<Reliability>)
    requires IsLog(run, captures, footers)
    ensures Checkpoints(Map(footers, PacketLedger)) && Checkpoints(Map(footers, ProbeLedger))
    ensures Counts(Map(footers, Failures)) && Counts(Map(footers, UnfiledPackets))
    ensures Counts(Map(footers, UnfiledProbes))
  {
    forall t, u | 0 <= t < u < |footers|
      ensures NeverLess(footers[t].lossBySkb, footers[u].lossBySkb)
      ensures NeverLess(footers[t].lossByProbe, footers[u].lossByProbe)
      ensures footers[t].reserveFailures <= footers[u].reserveFailures
      ensures footers[t].unattributedSkbLosses <= footers[u].unattributedSkbLosses
      ensures footers[t].unattributedReserveFailures <= footers[u].unattributedReserveFailures
    {
      CheckpointsGrow(run, captures[t], footers[t], captures[u], footers[u]);
    }
  }

  lemma {:induction false} DeltasSum(counter: seq<nat>, parts: seq<nat>)
    requires |parts| + 1 == |counter|
    requires forall t :: 0 <= t < |parts| ==> parts[t] == Since(counter[t + 1], counter[t])
    ensures SumOfDeltas(counter) == SlotSum(parts)
  {
    if parts != [] {
      DeltasSum(counter[..|parts|], parts[..|parts| - 1]);
    }
  }

  /** The segments of a run. */
  ghost predicate AreSegments(segments: seq<Reliability>, footers: seq<Reliability>) {
    && |segments| + 1 == |footers|
    && forall t :: 0 <= t < |segments| ==> IsDelta(segments[t], footers[t + 1], footers[t])
  }

  lemma CountersSum(segments: seq<Reliability>, footers: seq<Reliability>)
    requires AreSegments(segments, footers)
    ensures SumOfDeltas(Map(footers, Failures)) == SlotSum(Map(segments, Failures))
    ensures SumOfDeltas(Map(footers, UnfiledPackets)) == SlotSum(Map(segments, UnfiledPackets))
    ensures SumOfDeltas(Map(footers, UnfiledProbes)) == SlotSum(Map(segments, UnfiledProbes))
  {
    DeltasSum(Map(footers, Failures), Map(segments, Failures));
    DeltasSum(Map(footers, UnfiledPackets), Map(segments, UnfiledPackets));
    DeltasSum(Map(footers, UnfiledProbes), Map(segments, UnfiledProbes));
  }

  /** Added up over a run, the segments' packet ledgers are the last checkpoint's, within the summed totals. */
  lemma PacketSegmentsAddUp(
    run: seq<World>, captures: seq<Capture>, footers: seq<Reliability>, segments: seq<Reliability>)
    requires IsLog(run, captures, footers) && AreSegments(segments, footers)
    ensures AllLosses(Map(segments, PacketLedger)) == Losses(footers[|segments|].lossBySkb)
    ensures SumOfTotals(Map(segments, PacketLedger)) + SlotSum(Map(segments, UnfiledPackets))
         <= SlotSum(Map(segments, Failures))
  {
    var (ledgers, parts) := (Map(footers, PacketLedger), Map(segments, PacketLedger));
    LogCheckpoints(run, captures, footers);
    CountersSum(segments, footers);
    assert Segments(parts, ledgers);
    SegmentsAddUp(parts, ledgers);
    AttributionFits(run, captures[|segments|], footers[|segments|], 0);
    SummedSegmentsFit(parts, ledgers, Map(footers, UnfiledPackets), Map(footers, Failures));
  }

  /** And so do their probe breakdowns, although one segment's may exceed its own total. */
  lemma ProbeSegmentsAddUp(
    run: seq<World>, captures: seq<Capture>, footers: seq<Reliability>, segments: seq<Reliability>)
    requires IsLog(run, captures, footers) && AreSegments(segments, footers)
    ensures AllLosses(Map(segments, ProbeLedger)) == Losses(footers[|segments|].lossByProbe)
    ensures SumOfTotals(Map(segments, ProbeLedger)) + SlotSum(Map(segments, UnfiledProbes))
         <= SlotSum(Map(segments, Failures))
  {
    var (ledgers, parts) := (Map(footers, ProbeLedger), Map(segments, ProbeLedger));
    LogCheckpoints(run, captures, footers);
    CountersSum(segments, footers);
    assert Segments(parts, ledgers);
    SegmentsAddUp(parts, ledgers);
    SiteAttributionFits(run, captures[|segments|], footers[|segments|]);
    SummedSegmentsFit(parts, ledgers, Map(footers, UnfiledProbes), Map(footers, Failures));
  }
}
