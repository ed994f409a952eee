/** Runs of the kernel on which a verdict or a breakdown is off although nothing in its footer says so. */
module LossWitness {
  import opened Common
  import opened Reliability
  import opened ReliabilityDelta
  import opened LossBooks
  import opened LossLedger
  import opened LossReadout
  import opened LossVerdict
  import opened SegmentVerdict

  function NoLosses<K>(): Account<K> {
    Account(multiset{}, multiset{}, multiset{}, multiset{})
  }

  /** A kernel with a single CPU. */
  function Single(
    cpu: Cpu, table: map<SkbKey, nat>, sites: map<Site, seq<nat>>, skb: Account<SkbKey>, site: Account<Site>): World
  {
    World(Kernel([cpu], table, sites), [skb], [site])
  }

  /** The account of a CPU that lost `p`, filed it, and then lost `q`. */
  function FirstLost(p: SkbKey): Account<SkbKey> { Suffer(NoLosses(), p) }
  function FirstFiled(p: SkbKey): Account<SkbKey> { File(FirstLost(p), p) }
  function SiteLost(p: SkbKey): Account<Site> { Suffer(NoLosses(), p.site) }
  function SiteFiled(p: SkbKey): Account<Site> { File(SiteLost(p), p.site) }

  function OneSlot(p: SkbKey): map<Site, seq<nat>> { map[p.site := SetSlot(Zeros(1), 0, 1)] }

  /** The moments of one CPU that loses `p`, files it in the packet table and then in the probe table, and loses `q`. */
  function Idling(): World { Single(Cpu(0, 0, 0, Idle), map[], map[], NoLosses(), NoLosses()) }

  function LosingFirst(p: SkbKey, op: SkbOp): World {
    Single(Cpu(1, 0, 0, FilingSkb(op, p)), map[], map[], FirstLost(p), SiteLost(p))
  }

  function FilingFirst(p: SkbKey, op: SiteOp): World {
    Single(Cpu(1, 0, 0, FilingSite(op, p.site)), map[p := 1], map[], FirstFiled(p), SiteLost(p))
  }

  function FiledFirst(p: SkbKey): World {
    Single(Cpu(1, 0, 0, Idle), map[p := 1], OneSlot(p), FirstFiled(p), SiteFiled(p))
  }

  function LosingSecond(p: SkbKey, q: SkbKey): World {
    Single(
      Cpu(2, 0, 0, FilingSkb(LookupSkb, q)), map[p := 1], OneSlot(p),
      Suffer(FirstFiled(p), q), Suffer(SiteFiled(p), q.site))
  }

  function Moment(p: SkbKey, q: SkbKey, t: nat): World {
    match t
    case 0 => Idling()
    case 1 => LosingFirst(p, LookupSkb)
    case 2 => LosingFirst(p, InsertSkb)
    case 3 => FilingFirst(p, LookupSite)
    case 4 => FilingFirst(p, InsertSite)
    case 5 => FiledFirst(p)
    case _ => LosingSecond(p, q)
  }

  function LateRun(p: SkbKey, q: SkbKey): (run: seq<World>)
    ensures |run| == 7 && forall t :: 0 <= t < 7 ==> run[t] == Moment(p, q, t)
  {
    seq(7, t requires 0 <= t < 7 => Moment(p, q, t))
  }

  lemma Fails(
    cpu: Cpu, table: map<SkbKey, nat>, sites: map<Site, seq<nat>>, skb: Account<SkbKey>, site: Account<Site>,
    key: SkbKey)
    requires cpu.pc == Idle
    ensures Follows(
      Single(cpu, table, sites, skb, site),
        Single(Begin(cpu, key), table, sites, Suffer(skb, key), Suffer(site, key.site)))
  {
    var w := Single(cpu, table, sites, skb, site);
    assert Enabled(w, Fail(0, key));
    assert Apply(w, Fail(0, key)) == Single(Begin(cpu, key), table, sites, Suffer(skb, key), Suffer(site, key.site));
  }

  lemma FilesSkb(
    cpu: Cpu, table: map<SkbKey, nat>, sites: map<Site, seq<nat>>, skb: Account<SkbKey>, site: Account<Site>)
    requires cpu.pc.FilingSkb?
    ensures
      var (op, key) := (cpu.pc.skbOp, cpu.pc.key);
      var (cpu', table') := StepSkb(cpu, table, op, key);
      Follows(Single(cpu, table, sites, skb, site), Single(cpu', table', sites, SkbEntry(skb, table, op, key), site))
  {
    var (op, key) := (cpu.pc.skbOp, cpu.pc.key);
    var (cpu', table') := StepSkb(cpu, table, op, key);
    var w := Single(cpu, table, sites, skb, site);
    assert Enabled(w, Go(0));
    assert Apply(w, Go(0)) == Single(cpu', table', sites, SkbEntry(skb, table, op, key), site);
  }

  lemma LooksUp(p: SkbKey)
    ensures Follows(LosingFirst(p, LookupSkb), LosingFirst(p, InsertSkb))
  {
    FilesSkb(Cpu(1, 0, 0, FilingSkb(LookupSkb, p)), map[], map[], FirstLost(p), SiteLost(p));
  }

  lemma Inserts(p: SkbKey)
    ensures Follows(LosingFirst(p, InsertSkb), FilingFirst(p, LookupSite))
  {
    var empty: map<SkbKey, nat> := map[];
    assert |empty| == 0;
    FilesSkb(Cpu(1, 0, 0, FilingSkb(InsertSkb, p)), empty, map[], FirstLost(p), SiteLost(p));
  }

  lemma LooksUpSite(p: SkbKey)
    ensures Follows(FilingFirst(p, LookupSite), FilingFirst(p, InsertSite))
  {
    var w := FilingFirst(p, LookupSite);
    assert Enabled(w, Go(0)) && Apply(w, Go(0)) == FilingFirst(p, InsertSite);
  }

  lemma InsertsSite(p: SkbKey)
    ensures Follows(FilingFirst(p, InsertSite), FiledFirst(p))
  {
    var empty: map<Site, seq<nat>> := map[];
    assert |empty| == 0;
    var w := FilingFirst(p, InsertSite);
    assert Enabled(w, Go(0)) && Apply(w, Go(0)) == FiledFirst(p);
  }

  lemma LoseFirst(p: SkbKey)
    ensures Follows(Idling(), LosingFirst(p, LookupSkb))
  {
    Fails(Cpu(0, 0, 0, Idle), map[], map[], NoLosses(), NoLosses(), p);
  }

  lemma LoseSecond(p: SkbKey, q: SkbKey)
    ensures Follows(FiledFirst(p), LosingSecond(p, q))
  {
    Fails(Cpu(1, 0, 0, Idle), map[p := 1], OneSlot(p), FirstFiled(p), SiteFiled(p), q);
  }

  lemma MomentsFollow(p: SkbKey, q: SkbKey, t: nat)
    requires t < 6
    ensures Follows(Moment(p, q, t), Moment(p, q, t + 1))
  {
    match t
    case 0 => LoseFirst(p);
    case 1 => LooksUp(p);
    case 2 => Inserts(p);
    case 3 => LooksUpSite(p);
    case 4 => InsertsSite(p);
    case 5 => LoseSecond(p, q);
  }

  lemma LateRunIsRun(p: SkbKey, q: SkbKey)
    ensures IsRun(LateRun(p, q))
  {
    var run := LateRun(p, q);
    forall t | 0 <= t < 6
      ensures Follows(run[t], run[t + 1])
    {
      MomentsFollow(p, q, t);
    }
  }

  // ----- what is read along the way -----

  lemma {:induction false} OneReading<K(!new)>(key: K)
    ensures Bag(Latest([(key, 1)])) == multiset{key} && Losses([Line(key, 1)]) == multiset{key}
  {
    var none: seq<(K, nat)> := [];
    assert [(key, 1)][..0] == none;
    assert Latest([(key, 1)]) == map[key := 1];
    assert Bag(map[key := 1]) == multiset{key};
    assert Losses([Line(key, 1)][1..]) == multiset{};
    assert Copies(key, 1) == multiset{key};
  }

  lemma OnlyCpu(cpu: Cpu)
    ensures ReserveFailures([cpu]) == cpu.reserveFailures
    ensures UnattributedSkb([cpu]) == cpu.unattributedSkb && UnattributedReserve([cpu]) == cpu.unattributedReserve
  {
    assert [cpu][..0] == [];
  }

  lemma SingleRead(run: seq<World>, c: Capture, cpu: Cpu)
    requires IsCapture(run, c) && |c.at| == 1 && run[c.at[0]].kernel.cpus == [cpu]
    ensures ReserveFailures(CpusRead(run, c)) == cpu.reserveFailures
    ensures UnattributedSkb(CpusRead(run, c)) == cpu.unattributedSkb
    ensures UnattributedReserve(CpusRead(run, c)) == cpu.unattributedReserve
  {
    assert CpusRead(run, c) == [cpu];
    OnlyCpu(cpu);
  }

  lemma SingleCounted(run: seq<World>, c: Capture, account: Account<SkbKey>)
    requires IsCapture(run, c) && |c.at| == 1 && run[c.at[0]].skb == [account]
    ensures CountedLosses(run, c) == account.lost
  {
    OneCpuCounted(SkbHistory(run), PacketReadout(run, c));
  }

  /** Nothing filed yet: both walks find nothing, the counter reads one. */
  function Early(): Capture { Capture(Walk([], 1, 1), Walk([], 1, 1), [1]) }

  function EarlyFooter(): Reliability { NothingLostYet().(reserveFailures := 1, lossByCpu := [CpuLine(0, 1, 0)]) }

  lemma EarlyIsRead(p: SkbKey, q: SkbKey)
    ensures IsFooter(LateRun(p, q), Early(), EarlyFooter())
    ensures CountedLosses(LateRun(p, q), Early()) == multiset{p}
  {
    var run := LateRun(p, q);
    LateRunIsRun(p, q);
    assert run[0] == Idling() && run[1] == LosingFirst(p, LookupSkb);
    assert IsCapture(run, Early());
    assert SkbReadings(run, []) == [] && SiteReadings(run, []) == [];
    SingleRead(run, Early(), Cpu(1, 0, 0, FilingSkb(LookupSkb, p)));
    SingleCounted(run, Early(), FirstLost(p));
  }

  /** Both walks find the first loss filed. */
  function AfterFiling(p: SkbKey, t: nat): Capture {
    Capture(Walk([Sample(p.site, t)], t, t), Walk([Sample(p, t)], t, t), [t])
  }

  function LateFooter(p: SkbKey, failures: nat): Reliability {
    NothingLostYet().(
      reserveFailures := failures, lossByCpu := [CpuLine(0, failures, 0)],
      lossByProbe := [Line(p.site, 1)], lossBySkb := [Line(p, 1)])
  }

  /** A single CPU has filed `p` in both tables. */
  ghost predicate FirstIsFiled(run: seq<World>, p: SkbKey, t: nat, cpu: Cpu) {
    && IsRun(run) && |run[0].kernel.cpus| == 1 && t < |run|
    && run[t].kernel == Kernel([cpu], map[p := 1], OneSlot(p))
    && cpu.unattributedSkb == cpu.unattributedReserve == 0
  }

  lemma LateIsCapture(run: seq<World>, p: SkbKey, t: nat, cpu: Cpu)
    requires FirstIsFiled(run, p, t, cpu)
    ensures IsCapture(run, AfterFiling(p, t))
  {
    assert AfterFiling(p, t).packets.samples[0] == Sample(p, t);
    assert AfterFiling(p, t).probes.samples[0] == Sample(p.site, t);
  }

  lemma LateReadings(run: seq<World>, p: SkbKey, t: nat, cpu: Cpu)
    requires FirstIsFiled(run, p, t, cpu)
    ensures SkbReadings(run, [Sample(p, t)]) == [(p, 1)] && SiteReadings(run, [Sample(p.site, t)]) == [(p.site, 1)]
  {
    assert SlotSum([1]) == 1 by {
      var none: seq<nat> := [];
      assert [1][..0] == none;
    }
    assert OneSlot(p)[p.site] == [1];
  }

  lemma LateIsRead(run: seq<World>, p: SkbKey, t: nat, cpu: Cpu)
    requires FirstIsFiled(run, p, t, cpu)
    ensures IsFooter(run, AfterFiling(p, t), LateFooter(p, cpu.reserveFailures))
  {
    LateIsCapture(run, p, t, cpu);
    LateReadings(run, p, t, cpu);
    SingleRead(run, AfterFiling(p, t), cpu);
    OneReading(p);
    OneReading(p.site);
  }

  lemma FirstIsFiledLate(p: SkbKey, q: SkbKey)
    ensures FirstIsFiled(LateRun(p, q), p, 5, Cpu(1, 0, 0, Idle))
    ensures FirstIsFiled(LateRun(p, q), p, 6, Cpu(2, 0, 0, FilingSkb(LookupSkb, q)))
  {
    var run := LateRun(p, q);
    LateRunIsRun(p, q);
    assert run[0] == Idling() && run[5] == FiledFirst(p) && run[6] == LosingSecond(p, q);
  }

  lemma TwoLost(p: SkbKey, q: SkbKey)
    ensures Suffer(FirstFiled(p), q).lost == multiset{p, q}
  {
  }

  lemma LateAccount(p: SkbKey, q: SkbKey)
    ensures LateRun(p, q)[6].skb == [Suffer(FirstFiled(p), q)]
  {
    assert LateRun(p, q)[6] == LosingSecond(p, q);
  }

  // ----- the three witnesses -----

  /**
   Without quiet the verdict can mislead: a CPU has counted its failure but not
   yet filed it when the walk and the counter read both happen. The footer has
   nothing unattributed, its ledger is empty, and the packet is cleared.
   */
  lemma UnsettledLossMisleads(key: SkbKey) returns (run: seq<World>, c: Capture, footer: Reliability)
    ensures IsFooter(run, c, footer) && footer.LossIsFullyAttributed()
    ensures Verdict(Some(footer), key.identity) == NothingLost && CountedLosses(run, c) == multiset{key}
    ensures !AddsUp(footer)
  {
    run, c, footer := LateRun(key, key), Early(), EarlyFooter();
    EarlyIsRead(key, key);
  }

  /** The difference of the two checkpoints is the filing of the earlier loss. */
  lemma LateDelta(p: SkbKey, failures: nat) returns (segment: Reliability)
    requires failures > 0
    ensures IsDelta(segment, LateFooter(p, failures), EarlyFooter())
    ensures segment.reserveFailures == failures - 1 && segment.LossIsFullyAttributed()
    ensures segment.unattributedReserveFailures == 0
    ensures segment.lossBySkb == [Line(p, 1)] && segment.lossByProbe == [Line(p.site, 1)]
  {
    segment := Difference(LateFooter(p, failures), EarlyFooter());
    OneLine(p);
    OneLine(p.site);
  }

  lemma OneLine<K(!new)>(key: K)
    ensures Delta([Line(key, 1)], []) == [Line(key, 1)] && Total([Line(key, 1)]) == 1
    ensures UniqueSites([Line(key, 1)])
  {
    var none: Ledger<K> := [];
    assert [Line(key, 1)][1..] == none;
    assert CountAt(none, key) == 0;
    assert Delta(none, none) == none;
  }

  lemma LateVerdict(segment: Reliability, p: SkbKey, identity: nat)
    requires segment.LossIsFullyAttributed() && segment.lossBySkb == [Line(p, 1)]
    ensures Verdict(Some(segment), identity) == if p.identity == identity then ObservationsLost(1) else NothingLost
  {
    var none: Ledger<SkbKey> := [];
    assert [Line(p, 1)][1..] == none;
    assert LossesForSkb(none, identity) == 0;
  }

  lemma LateSuccessors(p: SkbKey, q: SkbKey, t: nat, cpu: Cpu)
    requires 1 < t && FirstIsFiled(LateRun(p, q), p, t, cpu)
    ensures Successors(LateRun(p, q), Early(), EarlyFooter(), AfterFiling(p, t), LateFooter(p, cpu.reserveFailures))
  {
    EarlyIsRead(p, q);
    LateIsRead(LateRun(p, q), p, t, cpu);
  }

  lemma LateSuccessorsAfterFiling(p: SkbKey, q: SkbKey)
    ensures Successors(LateRun(p, q), Early(), EarlyFooter(), AfterFiling(p, 5), LateFooter(p, 1))
  {
    FirstIsFiledLate(p, q);
    LateSuccessors(p, q, 5, Cpu(1, 0, 0, Idle));
  }

  lemma LateSuccessorsAtTheEnd(p: SkbKey, q: SkbKey)
    ensures Successors(LateRun(p, q), Early(), EarlyFooter(), AfterFiling(p, 6), LateFooter(p, 2))
  {
    FirstIsFiledLate(p, q);
    LateSuccessors(p, q, 6, Cpu(2, 0, 0, FilingSkb(LookupSkb, q)));
  }

  lemma LostSince(run: seq<World>, a: Capture, b: Capture, account: Account<SkbKey>, p: SkbKey, q: SkbKey)
    requires IsCapture(run, a) && IsCapture(run, b) && |b.at| == 1 && run[b.at[0]].skb == [account]
    requires CountedLosses(run, a) == multiset{p} && account.lost == multiset{p, q}
    ensures SegmentLosses(run, a, b) == multiset{q}
  {
    SingleCounted(run, b, account);
    AllButFirst(p, q);
  }

  lemma AllButFirst(p: SkbKey, q: SkbKey)
    ensures multiset{p, q} - multiset{p} == multiset{q}
  {
  }

  lemma LateLosses(p: SkbKey, q: SkbKey)
    requires IsCapture(LateRun(p, q), Early()) && IsCapture(LateRun(p, q), AfterFiling(p, 6))
    ensures SegmentLosses(LateRun(p, q), Early(), AfterFiling(p, 6)) == multiset{q}
  {
    EarlyIsRead(p, q);
    LateAccount(p, q);
    TwoLost(p, q);
    LostSince(LateRun(p, q), Early(), AfterFiling(p, 6), Suffer(FirstFiled(p), q), p, q);
  }

  /**
   A segment can add up and still mislead: `p` was lost before the segment and
   filed within it, `q` was lost within it and not yet filed. The segment's
   footer charges `p` and clears `q`.
   */
  lemma LateFilingMisleads(p: SkbKey, q: SkbKey)
    returns (run: seq<World>, a: Capture, before: Reliability, b: Capture, now: Reliability, segment: Reliability)
    requires p.identity != q.identity
    ensures Successors(run, a, before, b, now) && IsDelta(segment, now, before)
    ensures segment.LossIsFullyAttributed() && AddsUp(segment) && segment.reserveFailures == 1
    ensures SegmentLosses(run, a, b) == multiset{q}
    ensures Verdict(Some(segment), p.identity) == ObservationsLost(1)
    ensures Verdict(Some(segment), q.identity) == NothingLost
  {
    run, a, before, b, now := LateRun(p, q), Early(), EarlyFooter(), AfterFiling(p, 6), LateFooter(p, 2);
    LateSuccessorsAtTheEnd(p, q);
    LateLosses(p, q);
    segment := LateDelta(p, 2);
    OneLine(p);
    LateVerdict(segment, p, p.identity);
    LateVerdict(segment, p, q.identity);
  }

  /**
   Two runs with the same checkpoints, and so the same segment: in one the packet
   lost before is lost again, and every packet is ruled on exactly; in the other
   a second packet is lost, and both are ruled on wrongly. No test of the
   footers tells the two apart.
   */
  lemma FootersDoNotDecide(p: SkbKey, q: SkbKey)
    returns (
      run: seq<World>, other: seq<World>, a: Capture, before: Reliability, b: Capture, now: Reliability,
      segment: Reliability)
    requires p.identity != q.identity
    ensures Successors(run, a, before, b, now) && Successors(other, a, before, b, now) && IsDelta(segment, now, before)
    ensures segment.LossIsFullyAttributed() && AddsUp(segment)
    ensures forall identity: nat :: VerdictExact(segment, SegmentLosses(run, a, b), identity)
    ensures !VerdictExact(segment, SegmentLosses(other, a, b), p.identity)
    ensures !VerdictExact(segment, SegmentLosses(other, a, b), q.identity)
  {
    run, other, a, before, b, now :=
      LateRun(p, p), LateRun(p, q), Early(), EarlyFooter(), AfterFiling(p, 6), LateFooter(p, 2);
    LateSuccessorsAtTheEnd(p, p);
    LateSuccessorsAtTheEnd(p, q);
    LateLosses(p, p);
    LateLosses(p, q);
    segment := LateDelta(p, 2);
    OneLine(p);
    forall identity: nat
      ensures VerdictExact(segment, multiset{p}, identity)
    {
      LateVerdict(segment, p, identity);
      OfOne(p, identity);
    }
    LateVerdict(segment, p, p.identity);
    LateVerdict(segment, p, q.identity);
    OfOne(q, p.identity);
    OfOne(q, q.identity);
  }

  /** One segment's breakdowns can exceed its own total: a loss counted before the segment and filed within it. */
  lemma OneSegmentMayExceed(p: SkbKey)
    returns (run: seq<World>, a: Capture, before: Reliability, b: Capture, now: Reliability, segment: Reliability)
    ensures Successors(run, a, before, b, now) && IsDelta(segment, now, before)
    ensures Total(segment.lossByProbe) + segment.unattributedReserveFailures > segment.reserveFailures
    ensures Total(segment.lossBySkb) + segment.unattributedSkbLosses > segment.reserveFailures
  {
    run, a, before, b, now := LateRun(p, p), Early(), EarlyFooter(), AfterFiling(p, 5), LateFooter(p, 1);
    LateSuccessorsAfterFiling(p, p);
    segment := LateDelta(p, 1);
    OneLine(p);
    OneLine(p.site);
  }
}
