/**
 The bounded probe loop that writes a route stream: what it sends and when it
 stops, and when the validator accepts what it wrote.
 */
module ProbeLoop {
  import opened Common
  import opened RouteTrace

  // ----- one probe and one hop -----

  /** One probe: what is observed, and the counters it moves. */
  method SendProbe(sequence: nat, reception: Reception, target: nat, counters: Counters)
    returns (observation: Probe, counters': Counters)
    ensures observation == ProbeOf(sequence, reception, target) && counters' == AfterProbe(counters, reception, target)
  {
    counters' := counters.(attempted := counters.attempted + 1);
    if reception.NotSent? {
      counters' := counters'.(localErrors := counters'.localErrors + 1);
      return Probe(sequence, LocalError, None, None), counters';
    }
    counters' := counters'.(sent := counters'.sent + 1);
    if reception.Silence? {
      counters' := counters'.(timeouts := counters'.timeouts + 1);
      observation := Probe(sequence, Timeout, None, None);
    } else if reception.error.None? {
      counters' := counters'.(localErrors := counters'.localErrors + 1);
      observation := Probe(sequence, LocalError, None, None);
    } else {
      var e := reception.error.value;
      observation := Probe(sequence, ClassifyIcmp(e, target), e.responder, Some((e.kind, e.code)));
      counters' := counters'.(replies := counters'.replies + 1);
      if observation.outcome == DestinationReached {
        counters' := counters'.(reached := true);
      }
    }
  }

  /** The budget checks numbered from `from` up to `to` find time left. */
  predicate InTime(late: nat -> bool, from: nat, to: nat) {
    forall c :: from <= c < to ==> !late(c)
  }

  /** The counters have moved on by these observations, which are the next probes. */
  predicate Observed(
    network: Network, target: nat, before: Counters, observations: seq<Probe>, counters: Counters)
  {
    && counters == Counted(network, counters.attempted, target)
    && counters.attempted == before.attempted + |observations|
    && Probes(network, counters.attempted, target) == Probes(network, before.attempted, target) + observations
  }

  lemma OneMoreObserved(
    network: Network, target: nat, before: Counters, observations: seq<Probe>, counters: Counters)
    requires Observed(network, target, before, observations, counters)
    ensures
      var n := counters.attempted + 1;
      Observed(network, target, before, observations + [ProbeOf(n, network(n), target)],
        AfterProbe(counters, network(n), target))
  {
    ProbesSnoc(network, counters.attempted, target);
  }

  /** The probes of one hop, up to the plan's number or the end of the time budget. */
  method ProbeHop(plan: Plan, network: Network, target: nat, late: nat -> bool, checks: nat, counters: Counters)
    returns (observations: seq<Probe>, counters': Counters, checks': nat, exhausted: bool)
    requires counters == Counted(network, counters.attempted, target)
    ensures counters' == Counted(network, counters'.attempted, target)
    ensures |observations| <= plan.probesPerHop && (!exhausted ==> |observations| == plan.probesPerHop)
    ensures counters'.attempted == counters.attempted + |observations|
    ensures Probes(network, counters'.attempted, target) == Probes(network, counters.attempted, target) + observations
    ensures checks' == checks + |observations| + if exhausted then 1 else 0
    ensures InTime(late, checks, checks + |observations|) && (exhausted ==> late(checks + |observations|))
    ensures exhausted ==> |observations| < plan.probesPerHop
  {
    observations, counters', checks', exhausted := [], counters, checks, false;
    var probe := 0;
    while probe < plan.probesPerHop
      invariant 0 <= probe <= plan.probesPerHop && |observations| == probe
      invariant checks' == checks + probe && InTime(late, checks, checks') && !exhausted
      invariant Observed(network, target, counters, observations, counters')
    {
      checks' := checks' + 1;
      if late(checks' - 1) {
        exhausted := true;
        break;
      }
      var sequence := counters'.attempted + 1;
      OneMoreObserved(network, target, counters, observations, counters');
      var observation;
      observation, counters' := SendProbe(sequence, network(sequence), target, counters');
      observations := observations + [observation];
      probe := probe + 1;
    }
  }

  lemma RecordsGrow(records: seq<Record>, record: Record, plan: Plan, traceId: string, handle: HopHandle)
    requires ValidHops(records, plan, traceId, handle)
    requires record.HopRecord? && record.schema == ROUTE_CONTRACT_VERSION && record.traceId == traceId
    requires ValidHop(record.hop, LastTtl(records), plan, traceId, handle)
    ensures ValidHops(records + [record], plan, traceId, handle)
    ensures AllProbes(HopsOf(records + [record])) == AllProbes(HopsOf(records)) + record.hop.probes
  {
    assert (records + [record])[..|records|] == records;
    assert HopsOf(records + [record])[..|records|] == HopsOf(records);
  }

  /**
   The stream a run writes: valid hops that hold exactly the probes made, and a
   footer with what the loop counted.
   */
  ghost predicate IsTraceOf(
    records: seq<Record>, plan: Plan, traceId: string, target: nat, network: Network, n: nat, handle: HopHandle)
  {
    && |records| >= 2
    && records[0] == TraceStart(ROUTE_CONTRACT_VERSION, traceId, target, plan)
    && var middle, end, c := records[1..|records| - 1], records[|records| - 1], Counted(network, n, target);
       ValidHops(middle, plan, traceId, handle)
       && AllProbes(HopsOf(middle)) == Probes(network, n, target)
       && end.TraceEnd? && end.schema == ROUTE_CONTRACT_VERSION && end.traceId == traceId
       && end.destinationReached == c.reached
       && end.reliability == Reliability(
         plan.maxPackets, c.attempted, c.sent, c.replies, c.timeouts, c.localErrors, true)
  }

  /** The number of probes a stream's footer reports. */
  function Attempted(records: seq<Record>): nat {
    if records != [] && records[|records| - 1].TraceEnd? then records[|records| - 1].reliability.attempted else 0
  }

  /** What holds of the hops written so far and of the counters. */
  ghost predicate InStep(
    hops: seq<Record>, counters: Counters, plan: Plan, traceId: string, target: nat, network: Network,
    handle: HopHandle)
  {
    && counters == Counted(network, counters.attempted, target)
    && ValidHops(hops, plan, traceId, handle)
    && AllProbes(HopsOf(hops)) == Probes(network, counters.attempted, target)
  }

  function HopOf(hop: Hop, traceId: string): Record {
    HopRecord(ROUTE_CONTRACT_VERSION, traceId, hop)
  }

  /** A hop's record goes onto the stream with the probes it observed. */
  lemma HopAdded(
    hops: seq<Record>, before: Counters, hop: Hop, counters: Counters, plan: Plan, traceId: string, target: nat,
    network: Network, handle: HopHandle)
    requires InStep(hops, before, plan, traceId, target, network, handle)
    requires LastTtl(hops) < hop.ttl <= plan.maxHops && 0 < |hop.probes| <= plan.probesPerHop
    requires hop.handle == handle(traceId, hop.ttl, hop.probes)
    requires counters == Counted(network, counters.attempted, target)
    requires Probes(network, counters.attempted, target) == Probes(network, before.attempted, target) + hop.probes
    ensures InStep(hops + [HopOf(hop, traceId)], counters, plan, traceId, target, network, handle)
    ensures LastTtl(hops + [HopOf(hop, traceId)]) == hop.ttl
  {
    RecordsGrow(hops, HopOf(hop, traceId), plan, traceId, handle);
  }

  /** The probes of so many hops. */
  function Planned(hops: nat, probesPerHop: nat): nat {
    if hops == 0 then 0 else Planned(hops - 1, probesPerHop) + probesPerHop
  }

  lemma {:induction false} PlannedGrows(a: nat, b: nat, probesPerHop: nat)
    requires a <= b
    ensures Planned(a, probesPerHop) <= Planned(b, probesPerHop)
  {
    if a < b {
      PlannedGrows(a, b - 1, probesPerHop);
    }
  }

  lemma {:induction false} PlannedIsProduct(hops: nat, probesPerHop: nat)
    ensures Planned(hops, probesPerHop) == hops * probesPerHop
  {
    if hops > 0 {
      PlannedIsProduct(hops - 1, probesPerHop);
    }
  }

  lemma PlannedStep(ttl: nat, maxHops: nat, probesPerHop: nat)
    requires 0 < ttl <= maxHops
    ensures Planned(ttl - 1, probesPerHop) + probesPerHop
      == Planned(ttl, probesPerHop) <= Planned(maxHops, probesPerHop)
  {
    PlannedGrows(ttl, maxHops, probesPerHop);
  }

  /** The loop before hop `ttl`: everything so far is in step, and attempted as planned unless time ran out. */
  ghost predicate Underway(
    hops: seq<Record>, counters: Counters, exhausted: bool, ttl: nat, plan: Plan, traceId: string, target: nat,
    network: Network, handle: HopHandle)
  {
    && InStep(hops, counters, plan, traceId, target, network, handle) && 0 < ttl && LastTtl(hops) < ttl
    && counters.attempted <= Planned(ttl - 1, plan.probesPerHop)
    && (!exhausted ==> counters.attempted == Planned(ttl - 1, plan.probesPerHop))
  }

  lemma HopDone(
    hops: seq<Record>, before: Counters, exhausted: bool, hop: Hop, counters: Counters, cut: bool, plan: Plan,
    traceId: string, target: nat, network: Network, handle: HopHandle)
    requires Underway(hops, before, exhausted, hop.ttl, plan, traceId, target, network, handle)
    requires hop.ttl <= plan.maxHops && 0 < |hop.probes| <= plan.probesPerHop
    requires hop.handle == handle(traceId, hop.ttl, hop.probes)
    requires counters == Counted(network, counters.attempted, target)
    requires counters.attempted == before.attempted + |hop.probes|
    requires Probes(network, counters.attempted, target) == Probes(network, before.attempted, target) + hop.probes
    requires exhausted || (!cut ==> |hop.probes| == plan.probesPerHop)
    ensures Underway(
      hops + [HopOf(hop, traceId)], counters, exhausted || cut, hop.ttl + 1, plan, traceId, target, network, handle)
  {
    HopAdded(hops, before, hop, counters, plan, traceId, target, network, handle);
    PlannedStep(hop.ttl, plan.maxHops, plan.probesPerHop);
  }

  /** A hop whose probes were sent while there was time: all of the plan's, or those before it ran out. */
  predicate ProbedInTime(hop: Hop, plan: Plan, late: nat -> bool, checks: nat, checks': nat, cut: bool) {
    && 0 < |hop.probes| <= plan.probesPerHop && InTime(late, checks, checks + |hop.probes|)
    && (if cut then
          |hop.probes| < plan.probesPerHop && checks' == checks + |hop.probes| + 1 && late(checks + |hop.probes|)
        else |hop.probes| == plan.probesPerHop && checks' == checks + |hop.probes|)
  }

  // ----- where the loop stops -----

  /** The clock does not run backwards: once the budget is spent it stays so. */
  ghost predicate Monotone(late: nat -> bool) {
    forall c, d :: 0 <= c <= d && late(c) ==> late(d)
  }

  /** Hops one to `k`, each with all the plan's probes. */
  predicate AllFull(hops: seq<Hop>, k: nat, plan: Plan) {
    |hops| == k && forall i :: 0 <= i < k ==> hops[i].ttl == i + 1 && |hops[i].probes| == plan.probesPerHop
  }

  /** Of `k` hops the last has some probes, sent in time, and fewer than all only because time ran out. */
  predicate LastInTime(hops: seq<Hop>, k: nat, plan: Plan, late: nat -> bool) {
    && |hops| == k > 0 && AllFull(hops[..k - 1], k - 1, plan) && hops[k - 1].ttl == k
    && var (p, before) := (|hops[k - 1].probes|, Planned(k - 1, plan.probesPerHop + 1));
       && 0 < p <= plan.probesPerHop && InTime(late, 0, before + 1 + p)
       && (p < plan.probesPerHop ==> late(before + 1 + p))
  }

  /** Every hop is probed, in order, until the target answers, the plan is done or time runs out. */
  ghost predicate EndsRightly(
    hops: seq<Hop>, plan: Plan, late: nat -> bool, network: Network, target: nat, stop: StopReason)
  {
    var (k, probes) := (|hops|, plan.probesPerHop);
    var whole := k == 0 || |hops[k - 1].probes| == probes;
    var reached := Counted(network, |AllProbes(hops)|, target).reached;
    && k <= plan.maxHops && (k > 0 ==> LastInTime(hops, k, plan, late))
    && (k > 0 ==> !Counted(network, Planned(k - 1, probes), target).reached)
    && match stop
       case ReachedDestination => reached
       case MaxHops => !reached && whole && k == plan.maxHops
       case DurationBudget =>
         && !reached
         && (whole ==> k < plan.maxHops && (late(Planned(k, probes + 1)) || late(Planned(k, probes + 1) + 1)))
  }

  /** The loop before hop `ttl`: full hops and a check for each hop and probe, or time is up. */
  ghost predicate OnSchedule(
    hops: seq<Hop>, checks: nat, exhausted: bool, ttl: nat, plan: Plan, late: nat -> bool)
    requires ttl > 0
  {
    if exhausted then
      && LastInTime(hops, ttl - 1, plan, late) && |hops[ttl - 2].probes| < plan.probesPerHop
      && forall c :: checks <= c ==> late(c)
    else
      && AllFull(hops, ttl - 1, plan) && checks == Planned(ttl - 1, plan.probesPerHop + 1) && InTime(late, 0, checks)
  }

  /** One more hop, whose own check found time left. */
  lemma ScheduleGoesOn(
    hops: seq<Hop>, checks: nat, ttl: nat, plan: Plan, late: nat -> bool, hop: Hop, checks': nat, cut: bool)
    requires ttl > 0 && OnSchedule(hops, checks, false, ttl, plan, late) && !late(checks) && Monotone(late)
    requires hop.ttl == ttl && ProbedInTime(hop, plan, late, checks + 1, checks', cut)
    ensures LastInTime(hops + [hop], ttl, plan, late) && OnSchedule(hops + [hop], checks', cut, ttl + 1, plan, late)
  {
    assert (hops + [hop])[..ttl - 1] == hops;
  }

  lemma FullIsLast(hops: seq<Hop>, k: nat, plan: Plan, late: nat -> bool)
    requires AllFull(hops, k, plan) && InTime(late, 0, Planned(k, plan.probesPerHop + 1)) && plan.probesPerHop > 0
    ensures k > 0 ==> LastInTime(hops, k, plan, late)
  {
  }

  lemma {:induction false} FullHopsCount(hops: seq<Hop>, k: nat, plan: Plan)
    requires AllFull(hops, k, plan)
    ensures |AllProbes(hops)| == Planned(k, plan.probesPerHop)
  {
    if k > 0 {
      FullHopsCount(hops[..k - 1], k - 1, plan);
    }
  }

  lemma LastHopCounts(hops: seq<Hop>, k: nat, plan: Plan, late: nat -> bool)
    requires LastInTime(hops, k, plan, late)
    ensures |AllProbes(hops)| == Planned(k - 1, plan.probesPerHop) + |hops[k - 1].probes|
  {
    FullHopsCount(hops[..k - 1], k - 1, plan);
  }

  lemma {:induction false} ReachedStays(network: Network, m: nat, n: nat, target: nat)
    requires m <= n && Counted(network, m, target).reached
    ensures Counted(network, n, target).reached
  {
    if m < n {
      ReachedStays(network, m, n - 1, target);
    }
  }

  /** Nothing was reached by the end, so nothing was before the last hop. */
  lemma NotReachedBefore(hops: seq<Hop>, k: nat, plan: Plan, late: nat -> bool, network: Network, target: nat)
    requires LastInTime(hops, k, plan, late) && !Counted(network, |AllProbes(hops)|, target).reached
    ensures !Counted(network, Planned(k - 1, plan.probesPerHop), target).reached
  {
    LastHopCounts(hops, k, plan, late);
    if Counted(network, Planned(k - 1, plan.probesPerHop), target).reached {
      ReachedStays(network, Planned(k - 1, plan.probesPerHop), |AllProbes(hops)|, target);
    }
  }

  /** The loop may stop here: time is up, or the plan is done. */
  lemma StopsHere(
    hops: seq<Hop>, checks: nat, exhausted: bool, ttl: nat, plan: Plan, late: nat -> bool, network: Network,
    target: nat, stop: StopReason)
    requires ttl > 0 && OnSchedule(hops, checks, exhausted, ttl, plan, late) && ttl - 1 <= plan.maxHops
    requires plan.probesPerHop > 0 && !Counted(network, |AllProbes(hops)|, target).reached
    requires exhausted ==> stop == DurationBudget
    requires !exhausted ==>
      || (ttl == plan.maxHops + 1 && stop == MaxHops)
      || (ttl <= plan.maxHops && (late(checks) || late(checks + 1)) && stop == DurationBudget)
    ensures EndsRightly(hops, plan, late, network, target, stop)
  {
    if !exhausted {
      FullIsLast(hops, ttl - 1, plan, late);
    }
    if ttl > 1 {
      NotReachedBefore(hops, ttl - 1, plan, late, network, target);
    }
  }

  /** Or here: the target has answered. */
  lemma StopsReached(
    hops: seq<Hop>, ttl: nat, plan: Plan, late: nat -> bool, network: Network, target: nat)
    requires 0 < ttl <= plan.maxHops && LastInTime(hops, ttl, plan, late)
    requires Counted(network, |AllProbes(hops)|, target).reached
    requires !Counted(network, Planned(ttl - 1, plan.probesPerHop), target).reached
    ensures EndsRightly(hops, plan, late, network, target, ReachedDestination)
  {
  }

  lemma HopsGrow(records: seq<Record>, hop: Hop, traceId: string)
    requires AllHops(records)
    ensures HopsOf(records + [HopOf(hop, traceId)]) == HopsOf(records) + [hop]
  {
  }

  /** One hop probed and, unless time ran out before its first probe, recorded. */
  method RecordHop(
    plan: Plan, traceId: string, target: nat, network: Network, late: nat -> bool, handle: HopHandle, ttl: nat,
    checks: nat, hops: seq<Record>, counters: Counters, exhausted: bool)
    returns (
      recorded: bool, hops': seq<Record>, counters': Counters, checks': nat, exhausted': bool, cut: bool, hop: Hop)
    requires Underway(hops, counters, exhausted, ttl, plan, traceId, target, network, handle)
    requires ttl <= plan.maxHops && plan.probesPerHop > 0
    ensures recorded ==> Underway(hops', counters', exhausted', ttl + 1, plan, traceId, target, network, handle)
    ensures !recorded ==> hops' == hops && counters' == counters && exhausted' && late(checks)
    ensures recorded ==> exhausted' == (exhausted || cut) && hops' == hops + [HopOf(hop, traceId)]
    ensures recorded ==> hop.ttl == ttl && ProbedInTime(hop, plan, late, checks, checks', cut)
  {
    var observations;
    observations, counters', checks', cut := ProbeHop(plan, network, target, late, checks, counters);
    hop := Hop(handle(traceId, ttl, observations), ttl, observations);
    if observations == [] {
      return false, hops, counters', checks', cut, cut, hop;
    }
    HopDone(hops, counters, exhausted, hop, counters', cut, plan, traceId, target, network, handle);
    return true, hops + [HopOf(hop, traceId)], counters', checks', exhausted || cut, cut, hop;
  }

  function StopOf(reached: bool, exhausted: bool): StopReason {
    if reached then ReachedDestination else if exhausted then DurationBudget else MaxHops
  }

  /** Unless the clock runs backwards, the records written so far are on schedule. */
  ghost predicate Scheduled(
    records: seq<Record>, checks: nat, exhausted: bool, ttl: nat, plan: Plan, late: nat -> bool)
    requires ttl > 0
  {
    Monotone(late) ==> AllHops(records) && OnSchedule(HopsOf(records), checks, exhausted, ttl, plan, late)
  }

  ghost predicate Ended(
    records: seq<Record>, plan: Plan, late: nat -> bool, network: Network, target: nat, stop: StopReason)
  {
    Monotone(late) ==> AllHops(records) && EndsRightly(HopsOf(records), plan, late, network, target, stop)
  }

  lemma LoopStops(
    records: seq<Record>, counters: Counters, checks: nat, exhausted: bool, ttl: nat, plan: Plan, late: nat -> bool,
    traceId: string, network: Network, target: nat, handle: HopHandle, stop: StopReason)
    requires ttl > 0 && Scheduled(records, checks, exhausted, ttl, plan, late) && ttl - 1 <= plan.maxHops
    requires InStep(records, counters, plan, traceId, target, network, handle) && !counters.reached
    requires plan.probesPerHop > 0 && (exhausted ==> stop == DurationBudget)
    requires !exhausted ==>
      || (ttl == plan.maxHops + 1 && stop == MaxHops)
      || (ttl <= plan.maxHops && (late(checks) || late(checks + 1)) && stop == DurationBudget)
    ensures Ended(records, plan, late, network, target, stop)
  {
    if Monotone(late) {
      StopsHere(HopsOf(records), checks, exhausted, ttl, plan, late, network, target, stop);
    }
  }

  lemma LoopGoesOn(
    records: seq<Record>, before: Counters, counters: Counters, checks: nat, exhausted: bool, ttl: nat, plan: Plan,
    late: nat -> bool, traceId: string, network: Network, target: nat, handle: HopHandle, hop: Hop, checks': nat,
    cut: bool)
    requires 0 < ttl <= plan.maxHops && Scheduled(records, checks, exhausted, ttl, plan, late) && !late(checks)
    requires AllHops(records) && hop.ttl == ttl && ProbedInTime(hop, plan, late, checks + 1, checks', cut)
    requires !before.reached && InStep(records, before, plan, traceId, target, network, handle)
    requires InStep(records + [HopOf(hop, traceId)], counters, plan, traceId, target, network, handle)
    ensures Scheduled(records + [HopOf(hop, traceId)], checks', exhausted || cut, ttl + 1, plan, late)
    ensures counters.reached ==>
      Ended(records + [HopOf(hop, traceId)], plan, late, network, target, ReachedDestination)
  {
    HopsGrow(records, hop, traceId);
    if Monotone(late) {
      ScheduleGoesOn(HopsOf(records), checks, ttl, plan, late, hop, checks', cut);
      FullHopsCount(HopsOf(records), ttl - 1, plan);
      if counters.reached {
        StopsReached(HopsOf(records + [HopOf(hop, traceId)]), ttl, plan, late, network, target);
      }
    }
  }

  /** What holds between two hops of the loop. */
  ghost predicate BetweenHops(
    hops: seq<Record>, counters: Counters, checks: nat, exhausted: bool, ttl: nat, plan: Plan, traceId: string,
    target: nat, network: Network, late: nat -> bool, handle: HopHandle)
  {
    && ttl > 0 && !counters.reached
    && Underway(hops, counters, exhausted, ttl, plan, traceId, target, network, handle)
    && Scheduled(hops, checks, exhausted, ttl, plan, late)
  }

  /** And when the loop is over. */
  ghost predicate LoopIsOver(
    hops: seq<Record>, counters: Counters, exhausted: bool, plan: Plan, traceId: string, target: nat,
    network: Network, late: nat -> bool, handle: HopHandle)
  {
    && InStep(hops, counters, plan, traceId, target, network, handle)
    && counters.attempted <= Planned(plan.maxHops, plan.probesPerHop)
    && (!exhausted && !counters.reached ==> counters.attempted == Planned(plan.maxHops, plan.probesPerHop))
    && Ended(hops, plan, late, network, target, StopOf(counters.reached, exhausted))
  }

  lemma TimeIsUp(
    hops: seq<Record>, counters: Counters, checks: nat, exhausted: bool, ttl: nat, plan: Plan, traceId: string,
    target: nat, network: Network, late: nat -> bool, handle: HopHandle)
    requires plan.probesPerHop > 0 && ttl <= plan.maxHops && (late(checks) || late(checks + 1))
    requires BetweenHops(hops, counters, checks, exhausted, ttl, plan, traceId, target, network, late, handle)
    ensures LoopIsOver(hops, counters, true, plan, traceId, target, network, late, handle)
  {
    PlannedGrows(ttl - 1, plan.maxHops, plan.probesPerHop);
    LoopStops(hops, counters, checks, exhausted, ttl, plan, late, traceId, network, target, handle, DurationBudget);
  }

  lemma HopIsTaken(
    hops: seq<Record>, before: Counters, counters: Counters, checks: nat, exhausted: bool, ttl: nat, plan: Plan,
    traceId: string, target: nat, network: Network, late: nat -> bool, handle: HopHandle, hop: Hop, checks': nat,
    cut: bool)
    requires ttl <= plan.maxHops && !late(checks)
    requires BetweenHops(hops, before, checks, exhausted, ttl, plan, traceId, target, network, late, handle)
    requires AllHops(hops) && hop.ttl == ttl && ProbedInTime(hop, plan, late, checks + 1, checks', cut)
    requires Underway(
      hops + [HopOf(hop, traceId)], counters, exhausted || cut, ttl + 1, plan, traceId, target, network, handle)
    ensures var hops' := hops + [HopOf(hop, traceId)];
            if counters.reached
            then LoopIsOver(hops', counters, exhausted || cut, plan, traceId, target, network, late, handle)
            else BetweenHops(
              hops', counters, checks', exhausted || cut, ttl + 1, plan, traceId, target, network, late, handle)
  {
    PlannedGrows(ttl, plan.maxHops, plan.probesPerHop);
    LoopGoesOn(hops, before, counters, checks, exhausted, ttl, plan, late, traceId, network, target, handle, hop,
      checks', cut);
  }

  /** One turn of the loop over hops. */
  method TakeHop(
    plan: Plan, traceId: string, target: nat, network: Network, late: nat -> bool, handle: HopHandle, ttl: nat,
    checks: nat, hops: seq<Record>, counters: Counters, exhausted: bool)
    returns (more: bool, hops': seq<Record>, counters': Counters, checks': nat, exhausted': bool)
    requires plan.probesPerHop > 0 && ttl <= plan.maxHops
    requires BetweenHops(hops, counters, checks, exhausted, ttl, plan, traceId, target, network, late, handle)
    ensures more ==>
      BetweenHops(hops', counters', checks', exhausted', ttl + 1, plan, traceId, target, network, late, handle)
    ensures !more ==> LoopIsOver(hops', counters', exhausted', plan, traceId, target, network, late, handle)
  {
    if late(checks) {
      TimeIsUp(hops, counters, checks, exhausted, ttl, plan, traceId, target, network, late, handle);
      return false, hops, counters, checks + 1, true;
    }
    var recorded;
    var cut, hop;
    recorded, hops', counters', checks', exhausted', cut, hop :=
      RecordHop(plan, traceId, target, network, late, handle, ttl, checks + 1, hops, counters, exhausted);
    if !recorded {
      TimeIsUp(hops, counters, checks, exhausted, ttl, plan, traceId, target, network, late, handle);
      return false, hops', counters', checks', exhausted';
    }
    HopIsTaken(hops, counters, counters', checks, exhausted, ttl, plan, traceId, target, network, late, handle, hop,
      checks', cut);
    return !counters'.reached, hops', counters', checks', exhausted';
  }

  method TraceHops(plan: Plan, traceId: string, target: nat, network: Network, late: nat -> bool, handle: HopHandle)
    returns (hops: seq<Record>, counters: Counters, exhausted: bool)
    requires plan.probesPerHop > 0
    ensures LoopIsOver(hops, counters, exhausted, plan, traceId, target, network, late, handle)
  {
    hops, counters, exhausted := [], Counters(0, 0, 0, 0, 0, false), false;
    var checks, ttl := 0, 1;
    while ttl <= plan.maxHops
      invariant ttl <= plan.maxHops + 1
      invariant BetweenHops(hops, counters, checks, exhausted, ttl, plan, traceId, target, network, late, handle)
    {
      var more;
      more, hops, counters, checks, exhausted :=
        TakeHop(plan, traceId, target, network, late, handle, ttl, checks, hops, counters, exhausted);
      if !more {
        return;
      }
      ttl := ttl + 1;
    }
    LoopStops(hops, counters, checks, exhausted, ttl, plan, late, traceId, network, target, handle,
      StopOf(false, exhausted));
  }

  method TraceUdp(plan: Plan, traceId: string, target: nat, network: Network, late: nat -> bool, handle: HopHandle)
    returns (records: seq<Record>)
    requires Bounded(plan)
    ensures IsTraceOf(records, plan, traceId, target, network, Attempted(records), handle)
    ensures Attempted(records) <= plan.maxPackets
    ensures var stop := records[|records| - 1].stopReason;
            && (stop == ReachedDestination <==> Counted(network, Attempted(records), target).reached)
            && (stop == MaxHops ==> Attempted(records) == plan.maxPackets)
    ensures Ended(records[1..|records| - 1], plan, late, network, target, records[|records| - 1].stopReason)
  {
    var start := TraceStart(ROUTE_CONTRACT_VERSION, traceId, target, plan);
    var hops, counters, exhausted := TraceHops(plan, traceId, target, network, late, handle);
    PlannedIsProduct(plan.maxHops, plan.probesPerHop);
    var stop := StopOf(counters.reached, exhausted);
    var reliability := Reliability(
      plan.maxPackets, counters.attempted, counters.sent, counters.replies, counters.timeouts, counters.localErrors,
        true);
    records := [start] + hops + [TraceEnd(ROUTE_CONTRACT_VERSION, traceId, counters.reached, stop, reliability)];
    assert records[1..|records| - 1] == hops;
  }

  /** Where one ending stops, another cannot have gone on to a later hop. */
  lemma NotShorter(
    hops: seq<Hop>, others: seq<Hop>, plan: Plan, late: nat -> bool, network: Network, target: nat, stop: StopReason,
    otherStop: StopReason)
    requires plan.probesPerHop > 0
    requires EndsRightly(hops, plan, late, network, target, stop)
    requires EndsRightly(others, plan, late, network, target, otherStop)
    ensures |hops| >= |others|
  {
    var (k, m, probes) := (|hops|, |others|, plan.probesPerHop);
    if k < m {
      PlannedGrows(k, m - 1, probes + 1);
      PlannedGrows(k, m - 1, probes);
      if k > 0 {
        LastHopCounts(hops, k, plan, late);
        if Counted(network, Planned(k, probes), target).reached {
          ReachedStays(network, Planned(k, probes), Planned(m - 1, probes), target);
        }
      }
    }
  }

  /** Two endings of the same loop are at the same hop. */
  lemma SameEnd(
    hops: seq<Hop>, others: seq<Hop>, plan: Plan, late: nat -> bool, network: Network, target: nat, stop: StopReason,
    otherStop: StopReason)
    requires plan.probesPerHop > 0
    requires EndsRightly(hops, plan, late, network, target, stop)
    requires EndsRightly(others, plan, late, network, target, otherStop)
    ensures |hops| >= |others|
    ensures |hops| == |others| > 0 ==> |hops[|hops| - 1].probes| >= |others[|others| - 1].probes|
  {
    NotShorter(hops, others, plan, late, network, target, stop, otherStop);
  }

  lemma {:induction false} SameSplit(hops: seq<Hop>, others: seq<Hop>)
    requires |hops| == |others| && AllProbes(hops) == AllProbes(others)
    requires forall i :: 0 <= i < |hops| ==> |hops[i].probes| == |others[i].probes|
    ensures forall i :: 0 <= i < |hops| ==> hops[i].probes == others[i].probes
  {
    if hops != [] {
      var n := |hops| - 1;
      var (front, last) := (AllProbes(hops[..n]), hops[n].probes);
      var (otherFront, otherLast) := (AllProbes(others[..n]), others[n].probes);
      assert front + last == otherFront + otherLast;
      assert front == (front + last)[..|front|] && otherFront == (front + last)[..|front|];
      assert last == (front + last)[|front|..];
      SameSplit(hops[..n], others[..n]);
    }
  }

  /** The hops of an ending, and how many probes each has. */
  lemma EndShape(
    hops: seq<Hop>, plan: Plan, late: nat -> bool, network: Network, target: nat, stop: StopReason, i: nat)
    requires EndsRightly(hops, plan, late, network, target, stop) && i < |hops|
    ensures hops[i].ttl == i + 1 && (i < |hops| - 1 ==> |hops[i].probes| == plan.probesPerHop)
    ensures |AllProbes(hops)| == Planned(|hops| - 1, plan.probesPerHop) + |hops[|hops| - 1].probes|
  {
    LastHopCounts(hops, |hops|, plan, late);
    if i < |hops| - 1 {
      assert hops[..|hops| - 1][i] == hops[i];
    }
  }

  /** Two endings of the same loop are at the same probe of the same hop. */
  lemma SameShape(
    hops: seq<Hop>, others: seq<Hop>, plan: Plan, late: nat -> bool, network: Network, target: nat, stop: StopReason,
    otherStop: StopReason)
    requires plan.probesPerHop > 0
    requires EndsRightly(hops, plan, late, network, target, stop)
    requires EndsRightly(others, plan, late, network, target, otherStop)
    ensures |hops| == |others| && |AllProbes(hops)| == |AllProbes(others)|
    ensures forall i :: 0 <= i < |hops| ==> hops[i].ttl == others[i].ttl && |hops[i].probes| == |others[i].probes|
  {
    SameEnd(hops, others, plan, late, network, target, stop, otherStop);
    SameEnd(others, hops, plan, late, network, target, otherStop, stop);
    forall i | 0 <= i < |hops|
      ensures hops[i].ttl == others[i].ttl && |hops[i].probes| == |others[i].probes|
      ensures |AllProbes(hops)| == |AllProbes(others)|
    {
      EndShape(hops, plan, late, network, target, stop, i);
      EndShape(others, plan, late, network, target, otherStop, i);
    }
    if hops == [] {
      assert hops == others;
    }
  }

  lemma SameStop(
    hops: seq<Hop>, others: seq<Hop>, plan: Plan, late: nat -> bool, network: Network, target: nat, stop: StopReason,
    otherStop: StopReason)
    requires EndsRightly(hops, plan, late, network, target, stop)
    requires EndsRightly(others, plan, late, network, target, otherStop)
    requires |hops| == |others| && |AllProbes(hops)| == |AllProbes(others)|
    requires hops != [] ==> |hops[|hops| - 1].probes| == |others[|others| - 1].probes|
    ensures stop == otherStop
  {
  }

  /**
   What the loop sends and records is determined by the plan, the clock and the
   answers: two endings of the loop have the same hops with the same probes, and
   stop for the same reason.
   */
  lemma TraceIsDetermined(
    hops: seq<Hop>, others: seq<Hop>, plan: Plan, late: nat -> bool, network: Network, target: nat, stop: StopReason,
    otherStop: StopReason)
    requires plan.probesPerHop > 0
    requires EndsRightly(hops, plan, late, network, target, stop)
    requires EndsRightly(others, plan, late, network, target, otherStop)
    requires AllProbes(hops) == Probes(network, |AllProbes(hops)|, target)
    requires AllProbes(others) == Probes(network, |AllProbes(others)|, target)
    ensures |hops| == |others| && stop == otherStop
    ensures forall i :: 0 <= i < |hops| ==> hops[i].ttl == others[i].ttl && hops[i].probes == others[i].probes
  {
    SameShape(hops, others, plan, late, network, target, stop, otherStop);
    SameStop(hops, others, plan, late, network, target, stop, otherStop);
    SameSplit(hops, others);
  }

  /** The validator accepts what the loop wrote exactly when every parsed error came from ICMP. */
  lemma AcceptedIffIcmp(
    records: seq<Record>, plan: Plan, traceId: string, target: nat, network: Network, n: nat, handle: HopHandle)
    requires IsTraceOf(records, plan, traceId, target, network, n, handle)
    ensures ValidRoute(records, handle) <==> forall i :: 1 <= i <= n ==> !Misfiled(network(i))
  {
    CountsDifferByMisfiled(network, n, target);
    DestinationSeen(network, n, target);
    NoneMisfiled(network, n);
  }

  /** A plan of a single probe. */
  function OneProbe(): Plan {
    Plan("192.0.2.1", 33434, 1, 1, 1000, 1000, 1)
  }

  /** What the loop writes when that probe is answered with `e`. */
  function OneProbeStream(e: SocketError, traceId: string, target: nat, handle: HopHandle): seq<Record> {
    var probes := [ProbeOf(1, Reported(Some(e)), target)];
    [TraceStart(ROUTE_CONTRACT_VERSION, traceId, target, OneProbe()),
     HopRecord(ROUTE_CONTRACT_VERSION, traceId, Hop(handle(traceId, 1, probes), 1, probes)),
     TraceEnd(ROUTE_CONTRACT_VERSION, traceId, false, MaxHops, Reliability(1, 1, 1, 1, 0, 0, true))]
  }

  lemma OneHop(record: Record)
    requires record.HopRecord?
    ensures AllProbes(HopsOf([record])) == record.hop.probes
  {
    assert HopsOf([record]) == [record.hop] && [record.hop][..0] == [];
  }

  lemma OneProbeStreamIsTrace(e: SocketError, traceId: string, target: nat, network: Network, handle: HopHandle)
    requires network(1) == Reported(Some(e)) && e.origin != ORIGIN_ICMP
    ensures IsTraceOf(OneProbeStream(e, traceId, target, handle), OneProbe(), traceId, target, network, 1, handle)
  {
    var records := OneProbeStream(e, traceId, target, handle);
    var middle := records[1..2];
    assert middle == [records[1]] && middle[..0] == [];
    assert ValidHops(middle[..0], OneProbe(), traceId, handle) && LastTtl(middle[..0]) == 0;
    OneHop(records[1]);
    assert Counted(network, 0, target) == Counters(0, 0, 0, 0, 0, false);
    assert Probes(network, 1, target) == [ProbeOf(1, network(1), target)];
  }

  /**
   One report that parses and is not ICMP, such as a local error of the socket, and the loop's own stream is refused.
   */
  lemma ForeignErrorIsRefused(e: SocketError, traceId: string, target: nat, handle: HopHandle)
    returns (network: Network, records: seq<Record>)
    requires e.origin != ORIGIN_ICMP
    ensures Bounded(OneProbe()) && network(1) == Reported(Some(e))
    ensures IsTraceOf(records, OneProbe(), traceId, target, network, 1, handle) && !ValidRoute(records, handle)
  {
    network := _ => Reported(Some(e));
    records := OneProbeStream(e, traceId, target, handle);
    OneProbeStreamIsTrace(e, traceId, target, network, handle);
    AcceptedIffIcmp(records, OneProbe(), traceId, target, network, 1, handle);
    assert Misfiled(network(1));
  }
}
