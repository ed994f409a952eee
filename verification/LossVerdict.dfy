/**
 The footer of a whole capture and the verdict it gives on a packet.

 A capture walks the probe table, then the packet table, and then reads every CPU's
 counters, all while the kernel keeps running.
 */
module LossVerdict {
  import opened Common
  import opened Reliability
  import opened LossBooks
  import opened LossLedger
  import opened LossReadout

  datatype Walk<K> = Walk(samples: seq<Sample<K>>, from: nat, to: nat)

  /** CPU `i`'s counters are read at moment `at[i]`. */
  datatype Capture = Capture(probes: Walk<Site>, packets: Walk<SkbKey>, at: seq<nat>)

  ghost predicate IsCapture(run: seq<World>, c: Capture) {
    && IsRun(run)
    && WalksSites(run, c.probes.samples, c.probes.from, c.probes.to)
    && WalksSkb(run, c.packets.samples, c.packets.from, c.packets.to)
    && c.probes.to <= c.packets.from
    && |c.at| == |run[0].kernel.cpus|
    && forall i :: 0 <= i < |c.at| ==> c.packets.to <= c.at[i] < |run|
  }

  lemma CpuCountIsFixed(run: seq<World>, t: nat)
    requires IsRun(run) && t < |run|
    ensures |run[t].kernel.cpus| == |run[t].skb| == |run[t].sites| == |run[0].kernel.cpus|
  {
    RunIsHistory(run);
    RunInvariant(run, t);
    RunInvariant(run, 0);
    GrowsOver(SkbHistory(run), 0, t);
  }

  /** The CPUs as their counters were read. */
  ghost function CpusRead(run: seq<World>, c: Capture): (cpus: seq<Cpu>)
    requires IsCapture(run, c)
    ensures |cpus| == |c.at|
    ensures forall i :: 0 <= i < |c.at| ==> i < |run[c.at[i]].kernel.cpus| && cpus[i] == run[c.at[i]].kernel.cpus[i]
  {
    assert forall i :: 0 <= i < |c.at| ==> i < |run[c.at[i]].kernel.cpus| by {
      forall i | 0 <= i < |c.at| ensures i < |run[c.at[i]].kernel.cpus| {
        CpuCountIsFixed(run, c.at[i]);
      }
    }
    seq(|c.at|, i requires 0 <= i < |c.at| => run[c.at[i]].kernel.cpus[i])
  }

  // ----- putting a footer together -----

  /** Only CPUs that lost something have a line; `readLosses` are their read failures. */
  function LossByCpu(cpus: seq<Cpu>, readLosses: seq<nat>): seq<CpuLine>
    requires |cpus| == |readLosses|
  {
    if cpus == [] then []
    else
      var n := |cpus| - 1;
      LossByCpu(cpus[..n], readLosses[..n])
      + if cpus[n].reserveFailures == 0 && readLosses[n] == 0 then []
        else [CpuLine(n, cpus[n].reserveFailures, readLosses[n])]
  }

  /** The counters' totals beside the breakdowns as collected; the kernel's failure path does not touch `others`. */
  function IntoReliability(
    cpus: seq<Cpu>, readLosses: seq<nat>, byProbe: Ledger<Site>, bySkb: Ledger<SkbKey>,
    others: Reliability): Reliability
    requires |cpus| == |readLosses|
  {
    others.(
      reserveFailures := ReserveFailures(cpus), readFailures := SlotSum(readLosses),
        lossByCpu := LossByCpu(cpus, readLosses),
      lossByProbe := byProbe, unattributedReserveFailures := UnattributedReserve(cpus),
      lossBySkb := bySkb, unattributedSkbLosses := UnattributedSkb(cpus))
  }

  /** `footer` says what the capture read. */
  ghost predicate IsFooter(run: seq<World>, c: Capture, footer: Reliability) {
    && IsCapture(run, c)
    && Losses(footer.lossByProbe) == Bag(Latest(SiteReadings(run, c.probes.samples))) && UniqueSites(footer.lossByProbe)
    && Losses(footer.lossBySkb) == Bag(Latest(SkbReadings(run, c.packets.samples))) && UniqueSites(footer.lossBySkb)
    && footer.reserveFailures == ReserveFailures(CpusRead(run, c))
    && footer.unattributedReserveFailures == UnattributedReserve(CpusRead(run, c))
    && footer.unattributedSkbLosses == UnattributedSkb(CpusRead(run, c))
  }

  /** From readings to footer: revisits collapsed, ledgers listed in order, counters added up. */
  method ReadFooter(
    ghost run: seq<World>, ghost c: Capture,
    probes: seq<(Site, nat)>, packets: seq<(SkbKey, nat)>, cpus: seq<Cpu>, readLosses: seq<nat>, others: Reliability)
    returns (footer: Reliability)
    requires IsCapture(run, c) && cpus == CpusRead(run, c) && |readLosses| == |cpus|
    requires probes == SiteReadings(run, c.probes.samples) && packets == SkbReadings(run, c.packets.samples)
    ensures IsFooter(run, c, footer)
    ensures forall i, j :: 0 <= i < j < |footer.lossByProbe| ==>
      HeaviestFirst(footer.lossByProbe[i], footer.lossByProbe[j])
    ensures forall i, j :: 0 <= i < j < |footer.lossBySkb| ==> ByKey(footer.lossBySkb[i], footer.lossBySkb[j])
    ensures forall i, j :: 0 <= i < j < |footer.lossByProbe| ==>
      footer.lossByProbe[i].count >= footer.lossByProbe[j].count
    ensures forall i, j :: 0 <= i < j < |footer.lossBySkb| ==>
      footer.lossBySkb[i].site.identity <= footer.lossBySkb[j].site.identity
    ensures CpuFailures(footer.lossByCpu) == footer.reserveFailures
    ensures forall cpu: nat, reserve: nat, read: nat :: CpuLine(cpu, reserve, read) in footer.lossByCpu <==>
      && cpu < |cpus| && cpus[cpu].reserveFailures == reserve && readLosses[cpu] == read && reserve + read > 0
    ensures footer.readFailures == SlotSum(readLosses)
    ensures footer.recursionMisses == others.recursionMisses && footer.decodeFailures == others.decodeFailures
    ensures footer.enrichmentFailures == others.enrichmentFailures && footer.outputFailures == others.outputFailures
  {
    var sites := Collect(probes);
    var byProbe := ToLedger(sites, HeaviestFirst);
    var keys := Collect(packets);
    var bySkb := ToLedger(keys, ByKey);
    footer := IntoReliability(cpus, readLosses, byProbe, bySkb, others);
    CpuLinesAddUp(cpus, readLosses);
    forall cpu: nat, reserve: nat, read: nat
      ensures CpuLine(cpu, reserve, read) in footer.lossByCpu <==>
        && cpu < |cpus| && cpus[cpu].reserveFailures == reserve && readLosses[cpu] == read && reserve + read > 0
    {
      CpuLinesAreLosses(cpus, readLosses, CpuLine(cpu, reserve, read));
    }
  }

  /** A line for every CPU that lost something, with both its counts, and for no other. */
  lemma {:induction false} CpuLinesAreLosses(cpus: seq<Cpu>, readLosses: seq<nat>, line: CpuLine)
    requires |cpus| == |readLosses|
    ensures line in LossByCpu(cpus, readLosses) <==>
      && line.cpu < |cpus| && cpus[line.cpu].reserveFailures == line.reserveFailures
      && readLosses[line.cpu] == line.readFailures && line.reserveFailures + line.readFailures > 0
  {
    if cpus != [] {
      CpuLinesAreLosses(cpus[..|cpus| - 1], readLosses[..|cpus| - 1], line);
    }
  }

  function CpuFailures(lines: seq<CpuLine>): nat {
    if lines == [] then 0 else CpuFailures(lines[..|lines| - 1]) + lines[|lines| - 1].reserveFailures
  }

  lemma {:induction false} CpuLinesAddUp(cpus: seq<Cpu>, readLosses: seq<nat>)
    requires |cpus| == |readLosses|
    ensures CpuFailures(LossByCpu(cpus, readLosses)) == ReserveFailures(cpus)
  {
    if cpus != [] {
      var n := |cpus| - 1;
      var front, lines := LossByCpu(cpus[..n], readLosses[..n]), LossByCpu(cpus, readLosses);
      CpuLinesAddUp(cpus[..n], readLosses[..n]);
      if lines != front {
        assert lines[..|lines| - 1] == front;
      }
    }
  }

  // ----- a footer as readouts of the two books -----

  ghost function PacketReadout(run: seq<World>, c: Capture): (r: Readout<SkbKey>)
    requires IsCapture(run, c)
    ensures IsReadout(SkbHistory(run), r) && r.from == c.packets.from && r.to == c.packets.to && r.at == c.at
  {
    CpuCountIsFixed(run, 0);
    SkbWalkIsWalk(run, c.packets.samples, c.packets.from, c.packets.to);
    WalkIsReadout(SkbHistory(run), c.packets.samples, c.packets.from, c.packets.to, c.at);
    Readout(Bag(Latest(SkbReadings(run, c.packets.samples))), c.packets.from, c.packets.to, c.at)
  }

  ghost function ProbeReadout(run: seq<World>, c: Capture): (r: Readout<Site>)
    requires IsCapture(run, c)
    ensures IsReadout(SiteHistory(run), r) && r.from == c.probes.from && r.to == c.probes.to && r.at == c.at
  {
    CpuCountIsFixed(run, 0);
    SiteWalkIsWalk(run, c.probes.samples, c.probes.from, c.probes.to);
    WalkIsReadout(SiteHistory(run), c.probes.samples, c.probes.from, c.probes.to, c.at);
    Readout(Bag(Latest(SiteReadings(run, c.probes.samples))), c.probes.from, c.probes.to, c.at)
  }

  /** The losses each CPU had suffered when its counters were read. */
  ghost function CountedLosses(run: seq<World>, c: Capture): multiset<SkbKey>
    requires IsCapture(run, c)
  {
    Lost(CountedBy(SkbHistory(run), PacketReadout(run, c)))
  }

  /** Those of them that had been given up as unattributed. */
  ghost function GivenUpLosses(run: seq<World>, c: Capture): multiset<SkbKey>
    requires IsCapture(run, c)
  {
    Unfiled(CountedBy(SkbHistory(run), PacketReadout(run, c)))
  }

  /** The footer's numbers are the sizes of the bags of the packet readout. */
  lemma PacketTotals(run: seq<World>, c: Capture, footer: Reliability)
    requires IsFooter(run, c, footer)
    ensures Losses(footer.lossBySkb) == PacketReadout(run, c).ledger
    ensures Total(footer.lossBySkb) == |PacketReadout(run, c).ledger|
    ensures footer.reserveFailures == |CountedLosses(run, c)|
    ensures footer.unattributedSkbLosses == |GivenUpLosses(run, c)|
  {
    var (counted, cpus) := (CountedBy(SkbHistory(run), PacketReadout(run, c)), CpusRead(run, c));
    forall i | 0 <= i < |c.at|
      ensures cpus[i].reserveFailures == |counted[i].lost| && cpus[i].unattributedSkb == |counted[i].unfiled|
    {
      RunInvariant(run, c.at[i]);
      CpusMatch(run[c.at[i]]);
    }
    ReserveSum(cpus, counted);
    UnattributedSkbSum(cpus, counted);
    TotalIsLosses(footer.lossBySkb);
  }

  lemma ProbeTotals(run: seq<World>, c: Capture, footer: Reliability)
    requires IsFooter(run, c, footer)
    ensures Losses(footer.lossByProbe) == ProbeReadout(run, c).ledger
    ensures Total(footer.lossByProbe) == |ProbeReadout(run, c).ledger|
    ensures footer.reserveFailures == |Lost(CountedBy(SiteHistory(run), ProbeReadout(run, c)))|
    ensures footer.unattributedReserveFailures == |Unfiled(CountedBy(SiteHistory(run), ProbeReadout(run, c)))|
  {
    var (counted, cpus) := (CountedBy(SiteHistory(run), ProbeReadout(run, c)), CpusRead(run, c));
    forall i | 0 <= i < |c.at|
      ensures cpus[i].reserveFailures == |counted[i].lost| && cpus[i].unattributedReserve == |counted[i].unfiled|
    {
      RunInvariant(run, c.at[i]);
      CpusMatch(run[c.at[i]]);
    }
    ReserveSum(cpus, counted);
    UnattributedReserveSum(cpus, counted);
    TotalIsLosses(footer.lossByProbe);
  }

  /** Attribution is read before totals, so whatever happens in between it never exceeds them, for any packet. */
  lemma AttributionFits(run: seq<World>, c: Capture, footer: Reliability, identity: nat)
    requires IsFooter(run, c, footer)
    ensures Total(footer.lossBySkb) + footer.unattributedSkbLosses <= footer.reserveFailures
    ensures LossesForSkb(footer.lossBySkb, identity) <= |Of(CountedLosses(run, c), identity)|
  {
    PacketTotals(run, c, footer);
    var r := PacketReadout(run, c);
    LedgerNeverExceeds(SkbHistory(run), r);
    LedgerSums(footer.lossBySkb, identity);
    OfGrows(r.ledger, CountedLosses(run, c), identity);
  }

  /** The per-probe breakdown never exceeds the total it refines either. */
  lemma SiteAttributionFits(run: seq<World>, c: Capture, footer: Reliability)
    requires IsFooter(run, c, footer)
    ensures Total(footer.lossByProbe) + footer.unattributedReserveFailures <= footer.reserveFailures
  {
    ProbeTotals(run, c, footer);
    LedgerNeverExceeds(SiteHistory(run), ProbeReadout(run, c));
  }

  // ----- the verdict -----

  /** The verdict is right about `identity`: cleared when it lost nothing, and otherwise the exact count. */
  ghost predicate VerdictExact(footer: Reliability, losses: multiset<SkbKey>, identity: nat) {
    var lost := |Of(losses, identity)|;
    Verdict(Some(footer), identity) == if lost == 0 then NothingLost else ObservationsLost(lost)
  }

  lemma VerdictCompares(footer: Reliability, losses: multiset<SkbKey>, identity: nat)
    requires footer.LossIsFullyAttributed()
    ensures VerdictExact(footer, losses, identity)
       <==> |Of(Losses(footer.lossBySkb), identity)| == |Of(losses, identity)|
  {
    LedgerSums(footer.lossBySkb, identity);
  }

  /** A ledger that misses some of the losses rules wrongly on some packet. */
  lemma VerdictsExactIffComplete(footer: Reliability, losses: multiset<SkbKey>)
    requires footer.LossIsFullyAttributed() && Losses(footer.lossBySkb) <= losses
    ensures (forall identity: nat :: VerdictExact(footer, losses, identity)) <==> Losses(footer.lossBySkb) == losses
  {
    var ledger := Losses(footer.lossBySkb);
    forall identity: nat
      ensures VerdictExact(footer, losses, identity) <==> |Of(ledger, identity)| == |Of(losses, identity)|
    {
      VerdictCompares(footer, losses, identity);
    }
    if forall identity: nat :: VerdictExact(footer, losses, identity) {
      PacketwiseEqual(ledger, losses);
    }
  }

  /** The ledger and the losses given up account for the whole total: numbers any reader of the footer can compare. */
  predicate AddsUp(footer: Reliability) {
    Total(footer.lossBySkb) + footer.unattributedSkbLosses == footer.reserveFailures
  }

  lemma AddsUpIffComplete(run: seq<World>, c: Capture, footer: Reliability)
    requires IsFooter(run, c, footer)
    ensures AddsUp(footer) <==> CountedLosses(run, c) == Losses(footer.lossBySkb) + GivenUpLosses(run, c)
  {
    PacketTotals(run, c, footer);
    ExactIffSumsAgree(SkbHistory(run), PacketReadout(run, c));
  }

  /**
   When is the verdict right? For the footer of a whole capture with every loss
   attributed, it is right about every packet exactly when the ledger adds up to
   the total, which `loss_is_fully_attributed` does not ask.
   */
  lemma VerdictExactIffLedgerAddsUp(run: seq<World>, c: Capture, footer: Reliability)
    requires IsFooter(run, c, footer) && footer.LossIsFullyAttributed()
    ensures (forall identity: nat :: VerdictExact(footer, CountedLosses(run, c), identity))
       <==> Total(footer.lossBySkb) == footer.reserveFailures
  {
    PacketTotals(run, c, footer);
    AddsUpIffComplete(run, c, footer);
    LedgerNeverExceeds(SkbHistory(run), PacketReadout(run, c));
    VerdictsExactIffComplete(footer, CountedLosses(run, c));
  }

  /** No loss is being filed when the walk begins, and none is suffered until the counters have been read. */
  ghost predicate IsQuiet(run: seq<World>, c: Capture)
    requires IsCapture(run, c)
  {
    var start := run[c.packets.from].skb;
    Pending(start) == multiset{} && CountedLosses(run, c) == Lost(start)
  }

  lemma QuietAddsUp(run: seq<World>, c: Capture, footer: Reliability)
    requires IsFooter(run, c, footer) && IsQuiet(run, c)
    ensures AddsUp(footer)
  {
    PacketTotals(run, c, footer);
    assert SkbHistory(run)[c.packets.from] == run[c.packets.from].skb;
    QuietIsExact(SkbHistory(run), PacketReadout(run, c));
  }

  /** In a quiet capture the verdict is exact. */
  lemma QuietVerdictIsExact(run: seq<World>, c: Capture, footer: Reliability, identity: nat)
    requires IsFooter(run, c, footer) && IsQuiet(run, c) && footer.LossIsFullyAttributed()
    ensures VerdictExact(footer, CountedLosses(run, c), identity)
  {
    QuietAddsUp(run, c, footer);
    VerdictExactIffLedgerAddsUp(run, c, footer);
  }

  lemma SettledIsInLedger(run: seq<World>, c: Capture, footer: Reliability)
    requires IsFooter(run, c, footer) && footer.LossIsFullyAttributed()
    ensures var start := run[c.packets.from].skb; Lost(start) - Pending(start) <= Losses(footer.lossBySkb)
  {
    PacketTotals(run, c, footer);
    assert GivenUpLosses(run, c) == multiset{};
    assert SkbHistory(run)[c.packets.from] == run[c.packets.from].skb;
    SettledIsReported(SkbHistory(run), PacketReadout(run, c));
  }

  /** Whatever is in flight, a cleared packet had no settled loss when the walk began. */
  lemma ClearedMeansNothingSettled(run: seq<World>, c: Capture, footer: Reliability, identity: nat)
    requires IsFooter(run, c, footer) && Verdict(Some(footer), identity) == NothingLost
    ensures var start := run[c.packets.from].skb; Of(Lost(start) - Pending(start), identity) == multiset{}
  {
    SettledIsInLedger(run, c, footer);
    LedgerSums(footer.lossBySkb, identity);
    var start := run[c.packets.from].skb;
    OfGrows(Lost(start) - Pending(start), Losses(footer.lossBySkb), identity);
  }

  // ----- losses the kernel never files -----

  /** Where an observation can be lost without ever being filed against its packet. */
  datatype Stage = Recursion | Decoding | Enrichment | Output

  /** An observation of a packet that was lost there. */
  datatype Hole = Hole(stage: Stage, identity: nat)

  function HolesAt(holes: seq<Hole>, stage: Stage): nat {
    if holes == [] then 0
    else HolesAt(holes[..|holes| - 1], stage) + if holes[|holes| - 1].stage == stage then 1 else 0
  }

  /** The footer's other counters are those of the losses at the other stages. */
  predicate CountsHoles(footer: Reliability, holes: seq<Hole>) {
    && footer.recursionMisses == HolesAt(holes, Recursion) && footer.decodeFailures == HolesAt(holes, Decoding)
    && footer.enrichmentFailures == HolesAt(holes, Enrichment) && footer.outputFailures == HolesAt(holes, Output)
  }

  lemma {:induction false} HolesCount(holes: seq<Hole>)
    ensures holes == [] <==>
      && HolesAt(holes, Recursion) == 0 && HolesAt(holes, Decoding) == 0
      && HolesAt(holes, Enrichment) == 0 && HolesAt(holes, Output) == 0
  {
    if holes != [] {
      assert HolesAt(holes, holes[|holes| - 1].stage) > 0;
    }
  }

  /**
   What the verdict says of the losses themselves: it is withheld exactly when
   some loss, of whatever packet, was given up or happened outside the failure
   path, and a packet is cleared only if nothing of the kind happened at all.
   */
  lemma VerdictSaysWhatWasLost(
    run: seq<World>, c: Capture, footer: Reliability, holes: seq<Hole>, identity: nat)
    requires IsFooter(run, c, footer) && CountsHoles(footer, holes)
    ensures Verdict(Some(footer), identity) == NotKnown <==> holes != [] || GivenUpLosses(run, c) != multiset{}
    ensures Verdict(Some(footer), identity) == NothingLost ==>
      holes == [] && GivenUpLosses(run, c) == multiset{} && (IsQuiet(run, c) ==>
        Of(CountedLosses(run, c), identity) == multiset{})
    ensures IsQuiet(run, c) && holes == [] && GivenUpLosses(run, c) == multiset{} ==>
      Verdict(Some(footer), identity)
      == var lost := |Of(CountedLosses(run, c), identity)|; if lost == 0 then NothingLost else ObservationsLost(lost)
  {
    PacketTotals(run, c, footer);
    HolesCount(holes);
    WithheldExactly(Some(footer), identity);
    if IsQuiet(run, c) && Verdict(Some(footer), identity) != NotKnown {
      QuietVerdictIsExact(run, c, footer, identity);
    }
  }

  /** A capture is complete exactly when no observation of any packet was lost anywhere. */
  lemma CompleteMeansNothingLost(run: seq<World>, c: Capture, footer: Reliability, holes: seq<Hole>)
    requires IsFooter(run, c, footer) && CountsHoles(footer, holes)
    ensures footer.Complete() <==> CountedLosses(run, c) == multiset{} && holes == []
    ensures footer.Complete() ==> forall identity: nat :: Verdict(Some(footer), identity) == NothingLost
  {
    PacketTotals(run, c, footer);
    HolesCount(holes);
    AttributionFits(run, c, footer, 0);
    forall identity: nat
      ensures footer.Complete() ==> Verdict(Some(footer), identity) == NothingLost
    {
      if footer.Complete() {
        AttributionFits(run, c, footer, identity);
        WithheldExactly(Some(footer), identity);
      }
    }
  }
}
