/**
 `skbx-route`: plans, what the network answers to probes, the counters kept of
 it, and the validator of route streams.
 */
module RouteTrace {
  import opened Common
  import FilterSyntax

  const ROUTE_CONTRACT_VERSION := "routeq/0.1.0"
  const MAX_HOPS: nat := 64
  const MAX_PROBES_PER_HOP: nat := 5
  const MAX_TIMEOUT_MS: nat := 5_000
  const MAX_DURATION_MS: nat := 120_000
  const MAX_PACKETS: nat := 256

  datatype Plan = Plan(
    target: string, port: nat, maxHops: nat, probesPerHop: nat, timeoutMs: nat, maxDurationMs: nat, maxPackets: nat)

  datatype Outcome = TimeExceeded | DestinationReached | Unreachable | OtherIcmp | Timeout | LocalError

  datatype Probe = Probe(sequence: nat, outcome: Outcome, responder: Option<nat>, icmp: Option<(nat, nat)>)

  datatype Hop = Hop(handle: string, ttl: nat, probes: seq<Probe>)

  datatype Reliability = Reliability(
    planned: nat, attempted: nat, sent: nat, replies: nat, timeouts: nat, localErrors: nat, complete: bool)

  datatype StopReason = ReachedDestination | MaxHops | DurationBudget

  datatype Record =
    | TraceStart(schema: string, traceId: string, targetIp: nat, plan: Plan)
    | HopRecord(schema: string, traceId: string, hop: Hop)
    | TraceEnd(schema: string, traceId: string, destinationReached: bool, stopReason: StopReason,
      reliability: Reliability)

  /** The digest of a hop; nothing is assumed of it but that it is a function. */
  type HopHandle = (string, nat, seq<Probe>) -> string

  // ----- plans -----

  predicate Bounded(p: Plan) {
    && p.port > 0
    && 0 < p.maxHops <= MAX_HOPS && 0 < p.probesPerHop <= MAX_PROBES_PER_HOP
    && 0 < p.timeoutMs <= MAX_TIMEOUT_MS && 0 < p.maxDurationMs <= MAX_DURATION_MS
    && p.maxPackets == p.maxHops * p.probesPerHop <= MAX_PACKETS
  }

  /** The plan for these parameters, when they are within every bound. */
  function BoundedUdp(
    target: string, port: nat, maxHops: nat, probesPerHop: nat, timeoutMs: nat, maxDurationMs: nat): (r: Result<Plan,
    ()>)
    ensures r.Ok? ==> Bounded(r.value)
    ensures r.Ok? <==>
      && target != [] && Utf8Length(target) <= 253
      && (forall i :: 0 <= i < |target| ==> !FilterSyntax.IsWhitespace(target[i]))
      && Bounded(Plan(target, port, maxHops, probesPerHop, timeoutMs, maxDurationMs, maxHops * probesPerHop))
  {
    if FilterSyntax.Blank(target) || Utf8Length(target) > 253 then Err(())
    else if exists i :: 0 <= i < |target| && FilterSyntax.IsWhitespace(target[i]) then Err(())
    else if port == 0 then Err(())
    else if maxHops == 0 || maxHops > MAX_HOPS || probesPerHop == 0 || probesPerHop > MAX_PROBES_PER_HOP then Err(())
    else if timeoutMs == 0 || timeoutMs > MAX_TIMEOUT_MS then Err(())
    else if maxDurationMs == 0 || maxDurationMs > MAX_DURATION_MS then Err(())
    else if maxHops * probesPerHop > MAX_PACKETS then Err(())
    else Ok(Plan(target, port, maxHops, probesPerHop, timeoutMs, maxDurationMs, maxHops * probesPerHop))
  }

  /** The bounds of a plan in numbers. */
  lemma PlanMeans(p: Plan)
    ensures Bounded(p) <==>
      && p.port >= 1 && 1 <= p.maxHops <= 64 && 1 <= p.probesPerHop <= 5
      && 1 <= p.timeoutMs <= 5_000 && 1 <= p.maxDurationMs <= 120_000
      && p.maxPackets <= 256 && p.maxPackets == p.maxHops * p.probesPerHop
  {
  }

  // ----- what the network gives back -----

  /** An entry of the socket's error queue. */
  datatype SocketError = SocketError(origin: nat, kind: nat, code: nat, responder: Option<nat>)

  /** What happened to one probe: not sent, silence, or an error report that may not parse. */
  datatype Reception = NotSent | Silence | Reported(error: Option<SocketError>)

  /** Probes are numbered from one. */
  type Network = nat -> Reception

  const ORIGIN_ICMP: nat := 2

  function ClassifyIcmp(e: SocketError, target: nat): Outcome {
    if e.origin != ORIGIN_ICMP then LocalError
    else if e.kind == 11 then TimeExceeded
    else if e.kind == 3 && e.code == 3 && e.responder == Some(target) then DestinationReached
    else if e.kind == 3 then Unreachable
    else OtherIcmp
  }

  function ProbeOf(sequence: nat, r: Reception, target: nat): Probe {
    match r
    case NotSent => Probe(sequence, LocalError, None, None)
    case Silence => Probe(sequence, Timeout, None, None)
    case Reported(None) => Probe(sequence, LocalError, None, None)
    case Reported(Some(e)) => Probe(sequence, ClassifyIcmp(e, target), e.responder, Some((e.kind, e.code)))
  }

  /** The first `n` probes. */
  function Probes(network: Network, n: nat, target: nat): (p: seq<Probe>)
    ensures |p| == n
  {
    seq(n, i requires 0 <= i < n => ProbeOf(i + 1, network(i + 1), target))
  }

  // ----- what the loop counts -----

  datatype Counters = Counters(attempted: nat, sent: nat, replies: nat, timeouts: nat, localErrors: nat, reached: bool)

  predicate Reaches(r: Reception, target: nat) {
    r.Reported? && r.error.Some? && ClassifyIcmp(r.error.value, target) == DestinationReached
  }

  function AfterProbe(c: Counters, r: Reception, target: nat): Counters {
    Counters(
      c.attempted + 1,
      c.sent + if r.NotSent? then 0 else 1,
      c.replies + if r.Reported? && r.error.Some? then 1 else 0,
      c.timeouts + if r.Silence? then 1 else 0,
      c.localErrors + if r.NotSent? || (r.Reported? && r.error.None?) then 1 else 0,
      c.reached || Reaches(r, target))
  }

  /** The counters after the first `n` probes. */
  function Counted(network: Network, n: nat, target: nat): Counters {
    if n == 0 then Counters(0, 0, 0, 0, 0, false) else AfterProbe(Counted(network, n - 1, target), network(n), target)
  }

  /** The probes among the first `n` that came to this. */
  ghost function Numbered(network: Network, n: nat, what: Reception -> bool): (s: set<nat>)
    ensures forall i :: i in s <==> 1 <= i <= n && what(network(i))
  {
    set i: nat | 1 <= i <= n && what(network(i))
  }

  predicate WasSent(r: Reception) { !r.NotSent? }

  predicate WasSilent(r: Reception) { r.Silence? }

  predicate WasReported(r: Reception) { r.Reported? && r.error.Some? }

  predicate WasBroken(r: Reception) { r.NotSent? || r == Reported(None) }

  /** The target itself said that nobody listens on the port. */
  predicate RefusedPort(r: Reception, target: nat) {
    r.Reported? && r.error.Some? && r.error.value == SocketError(2, 3, 3, Some(target))
  }

  lemma OneMoreNumbered(network: Network, n: nat, what: Reception -> bool)
    requires n > 0
    ensures |Numbered(network, n, what)| == |Numbered(network, n - 1, what)| + if what(network(n)) then 1 else 0
  {
    var (before, now) := (Numbered(network, n - 1, what), Numbered(network, n, what));
    assert now == if what(network(n)) then before + {n} else before;
  }

  /**
   What the counters count: probes attempted, sent, answered by a report that
   parses, met with silence, and neither; and whether the target itself has
   refused the port of one.
   */
  lemma {:induction false} CountersCount(network: Network, n: nat, target: nat)
    ensures
      var c := Counted(network, n, target);
      && c.attempted == n && c.sent == |Numbered(network, n, WasSent)|
      && c.replies == |Numbered(network, n, WasReported)| && c.timeouts == |Numbered(network, n, WasSilent)|
      && c.localErrors == |Numbered(network, n, WasBroken)|
      && (c.reached <==> exists i :: 1 <= i <= n && RefusedPort(network(i), target))
  {
    if n == 0 {
      assert Numbered(network, 0, WasSent) == {} && Numbered(network, 0, WasReported) == {};
      assert Numbered(network, 0, WasSilent) == {} && Numbered(network, 0, WasBroken) == {};
    } else {
      CountersCount(network, n - 1, target);
      OneMoreNumbered(network, n, WasSent);
      OneMoreNumbered(network, n, WasReported);
      OneMoreNumbered(network, n, WasSilent);
      OneMoreNumbered(network, n, WasBroken);
    }
  }

  /** What a report says of a probe: only ICMP says anything, and port unreachable from the target says it arrived. */
  lemma OutcomesMean(e: SocketError, target: nat)
    ensures
      var outcome := ClassifyIcmp(e, target);
      var (icmp, fromTarget) := (e.origin == 2, e.responder == Some(target));
      && (outcome == LocalError <==> !icmp)
      && (outcome == TimeExceeded <==> icmp && e.kind == 11)
      && (outcome == DestinationReached <==> icmp && e.kind == 3 && e.code == 3 && fromTarget)
      && (outcome == Unreachable <==> icmp && e.kind == 3 && !(e.code == 3 && fromTarget))
      && (outcome == OtherIcmp <==> icmp && e.kind != 3 && e.kind != 11)
      && outcome != Timeout
  {
  }

  /** What each probe's observation says. */
  lemma ProbesTell(network: Network, n: nat, target: nat, i: nat)
    requires 1 <= i <= n
    ensures
      var p := Probes(network, n, target)[i - 1];
      && p.sequence == i
      && match network(i)
         case NotSent => p.outcome == LocalError && p.responder == None && p.icmp == None
         case Silence => p.outcome == Timeout && p.responder == None && p.icmp == None
         case Reported(None) => p.outcome == LocalError && p.responder == None && p.icmp == None
         case Reported(Some(e)) =>
           p.outcome == ClassifyIcmp(e, target) && p.responder == e.responder && p.icmp == Some((e.kind, e.code))
  {
    assert Probes(network, n, target)[i - 1] == ProbeOf(i, network(i), target);
  }

  // ----- what the validator counts -----

  function CountReplies(probes: seq<Probe>): nat {
    if probes == [] then 0
    else
      var last := probes[|probes| - 1].outcome;
      CountReplies(probes[..|probes| - 1]) + if last == Timeout || last == LocalError then 0 else 1
  }

  function CountOutcome(probes: seq<Probe>, outcome: Outcome): nat {
    if probes == [] then 0
    else CountOutcome(probes[..|probes| - 1], outcome) + if probes[|probes| - 1].outcome == outcome then 1 else 0
  }

  predicate ObservesDestination(probes: seq<Probe>, target: nat) {
    exists i :: 0 <= i < |probes| && probes[i].outcome == DestinationReached && probes[i].responder == Some(target)
  }

  function AllProbes(hops: seq<Hop>): seq<Probe> {
    if hops == [] then [] else AllProbes(hops[..|hops| - 1]) + hops[|hops| - 1].probes
  }

  // ----- the two sides of the ledger -----

  /** A report that parses but does not come from ICMP: the loop counts it a reply, its outcome says local error. */
  predicate Misfiled(r: Reception) {
    r.Reported? && r.error.Some? && r.error.value.origin != ORIGIN_ICMP
  }

  function CountMisfiled(network: Network, n: nat): nat {
    if n == 0 then 0 else CountMisfiled(network, n - 1) + if Misfiled(network(n)) then 1 else 0
  }

  lemma CountsOfOneMore(probes: seq<Probe>, p: Probe)
    ensures CountReplies(probes + [p])
      == CountReplies(probes) + if p.outcome == Timeout || p.outcome == LocalError then 0 else 1
    ensures CountOutcome(probes + [p], Timeout) == CountOutcome(probes, Timeout) + if p.outcome == Timeout then 1 else 0
    ensures CountOutcome(probes + [p], LocalError)
      == CountOutcome(probes, LocalError) + if p.outcome == LocalError then 1 else 0
  {
    assert (probes + [p])[..|probes|] == probes;
  }

  /** The loop's counters agree with the probes, but for the misfiled ones. */
  predicate DifferBy(c: Counters, probes: seq<Probe>, misfiled: nat) {
    && c.attempted == |probes| && c.sent <= |probes| && c.replies + c.timeouts + c.localErrors == |probes|
    && c.replies == CountReplies(probes) + misfiled
    && c.timeouts == CountOutcome(probes, Timeout)
    && c.localErrors + misfiled == CountOutcome(probes, LocalError)
  }

  lemma OneMoreDiffers(c: Counters, probes: seq<Probe>, misfiled: nat, sequence: nat, r: Reception, target: nat)
    requires DifferBy(c, probes, misfiled)
    ensures DifferBy(
      AfterProbe(c, r, target), probes + [ProbeOf(sequence, r, target)], misfiled + if Misfiled(r) then 1 else 0)
  {
    CountsOfOneMore(probes, ProbeOf(sequence, r, target));
  }

  lemma ProbesSnoc(network: Network, n: nat, target: nat)
    ensures Probes(network, n + 1, target) == Probes(network, n, target) + [ProbeOf(n + 1, network(n + 1), target)]
  {
  }

  lemma {:induction false} CountsDifferByMisfiled(network: Network, n: nat, target: nat)
    ensures DifferBy(Counted(network, n, target), Probes(network, n, target), CountMisfiled(network, n))
  {
    if n > 0 {
      CountsDifferByMisfiled(network, n - 1, target);
      ProbesSnoc(network, n - 1, target);
      OneMoreDiffers(
        Counted(network, n - 1, target), Probes(network, n - 1, target), CountMisfiled(network, n - 1), n, network(n),
          target);
    }
  }

  lemma {:induction false} NoneMisfiled(network: Network, n: nat)
    ensures CountMisfiled(network, n) == 0 <==> forall i :: 1 <= i <= n ==> !Misfiled(network(i))
  {
    if n > 0 {
      NoneMisfiled(network, n - 1);
    }
  }

  lemma {:induction false} DestinationSeen(network: Network, n: nat, target: nat)
    ensures Counted(network, n, target).reached <==> ObservesDestination(Probes(network, n, target), target)
  {
    if n > 0 {
      var before, now := Probes(network, n - 1, target), Probes(network, n, target);
      DestinationSeen(network, n - 1, target);
      assert now == before + [ProbeOf(n, network(n), target)];
      if i :| 0 <= i < |before| && before[i].outcome == DestinationReached && before[i].responder == Some(target) {
        assert now[i].outcome == DestinationReached && now[i].responder == Some(target);
      }
      if Reaches(network(n), target) {
        assert now[n - 1].outcome == DestinationReached && now[n - 1].responder == Some(target);
      }
    }
  }

  // ----- the validator -----

  predicate AllHops(records: seq<Record>) {
    forall i :: 0 <= i < |records| ==> records[i].HopRecord?
  }

  function HopsOf(records: seq<Record>): (hops: seq<Hop>)
    requires forall i :: 0 <= i < |records| ==> records[i].HopRecord?
    ensures |hops| == |records| && forall i :: 0 <= i < |hops| ==> hops[i] == records[i].hop
  {
    seq(|records|, i requires 0 <= i < |records| => records[i].hop)
  }

  predicate ValidHop(hop: Hop, previousTtl: nat, plan: Plan, traceId: string, handle: HopHandle) {
    && previousTtl < hop.ttl <= plan.maxHops
    && 0 < |hop.probes| <= plan.probesPerHop
    && hop.handle == handle(traceId, hop.ttl, hop.probes)
  }

  /** Hop records of one trace, with TTLs that only grow. */
  predicate ValidHops(records: seq<Record>, plan: Plan, traceId: string, handle: HopHandle): (valid: bool)
    ensures valid ==> forall i :: 0 <= i < |records| ==> records[i].HopRecord?
  {
    records == [] || (
      var n := |records| - 1;
      && ValidHops(records[..n], plan, traceId, handle)
      && records[n].HopRecord? && records[n].schema == ROUTE_CONTRACT_VERSION && records[n].traceId == traceId
      && ValidHop(records[n].hop, LastTtl(records[..n]), plan, traceId, handle))
  }

  function LastTtl(records: seq<Record>): nat {
    if records != [] && records[|records| - 1].HopRecord? then records[|records| - 1].hop.ttl else 0
  }

  /** The footer's counters are those of the hops. */
  predicate CountersMatch(probes: seq<Probe>, start: Record, end: Record)
    requires start.TraceStart? && end.TraceEnd?
  {
    && end.reliability.planned == start.plan.maxPackets
    && end.reliability.attempted == |probes|
    && end.reliability.replies == CountReplies(probes)
    && end.reliability.timeouts == CountOutcome(probes, Timeout)
    && end.reliability.localErrors == CountOutcome(probes, LocalError)
    && end.reliability.sent <= end.reliability.attempted
    && (end.destinationReached <==> ObservesDestination(probes, start.targetIp))
  }

  predicate Framed(records: seq<Record>) {
    && |records| >= 2
    && records[0].TraceStart? && records[0].schema == ROUTE_CONTRACT_VERSION
    && var end := records[|records| - 1];
       end.TraceEnd? && end.schema == ROUTE_CONTRACT_VERSION && end.traceId == records[0].traceId
  }

  ghost predicate ValidRoute(records: seq<Record>, handle: HopHandle) {
    && Framed(records)
    && var start, middle := records[0], records[1..|records| - 1];
       ValidHops(middle, start.plan, start.traceId, handle)
       && CountersMatch(AllProbes(HopsOf(middle)), start, records[|records| - 1])
  }

  /** Whether the next record can follow, once those before it have. */
  lemma NextRecord(records: seq<Record>, i: nat, plan: Plan, traceId: string, handle: HopHandle)
    requires i < |records| && ValidHops(records[..i], plan, traceId, handle)
    ensures
      var record := records[i];
      if record.traceId != traceId || !record.HopRecord? || record.schema != ROUTE_CONTRACT_VERSION
        || !ValidHop(record.hop, LastTtl(records[..i]), plan, traceId, handle)
      then !ValidHops(records, plan, traceId, handle)
      else
        && ValidHops(records[..i + 1], plan, traceId, handle) && LastTtl(records[..i + 1]) == record.hop.ttl
        && HopsOf(records[..i + 1]) == HopsOf(records[..i]) + [record.hop]
  {
    assert records[..i + 1][..i] == records[..i];
    if !ValidHops(records[..i + 1], plan, traceId, handle) {
      PrefixDecides(records, i + 1, plan, traceId, handle);
    }
  }

  method ReplayRoute(records: seq<Record>, handle: HopHandle) returns (r: Result<Reliability, ()>)
    ensures r.Ok? <==> ValidRoute(records, handle)
    ensures r.Ok? ==> r.value == records[|records| - 1].reliability
  {
    if records == [] || !records[0].TraceStart? || records[0].schema != ROUTE_CONTRACT_VERSION {
      return Err(());
    }
    var start := records[0];
    var hops: seq<Hop> := [];
    var previousTtl := 0;
    ghost var middle := if |records| < 2 then [] else records[1..|records| - 1];
    var i := 0;
    while i < |records| - 2
      invariant 0 <= i && i <= |middle|
      invariant ValidHops(middle[..i], start.plan, start.traceId, handle) && previousTtl == LastTtl(middle[..i])
      invariant hops == HopsOf(middle[..i])
    {
      var record := records[i + 1];
      assert middle[i] == record;
      NextRecord(middle, i, start.plan, start.traceId, handle);
      if record.traceId != start.traceId || !record.HopRecord? || record.schema != ROUTE_CONTRACT_VERSION
        || !ValidHop(record.hop, previousTtl, start.plan, start.traceId, handle) {
        return Err(());
      }
      previousTtl := record.hop.ttl;
      hops := hops + [record.hop];
      i := i + 1;
    }
    if !Framed(records) {
      return Err(());
    }
    assert middle[..|middle|] == middle;
    var end := records[|records| - 1];
    var probes := AllProbes(hops);
    if !CountersMatch(probes, start, end) {
      return Err(());
    }
    return Ok(end.reliability);
  }

  lemma {:induction false} PrefixDecides(records: seq<Record>, n: nat, plan: Plan, traceId: string, handle: HopHandle)
    requires n <= |records| && !ValidHops(records[..n], plan, traceId, handle)
    ensures !ValidHops(records, plan, traceId, handle)
    decreases |records| - n
  {
    if n < |records| {
      assert records[..n + 1][..n] == records[..n];
      PrefixDecides(records, n + 1, plan, traceId, handle);
    } else {
      assert records[..n] == records;
    }
  }

  // ----- what a valid route is, record by record -----

  /** Hop records are valid when each, on its own and after the one before it, is. */
  ghost predicate IsHopAt(records: seq<Record>, i: nat, plan: Plan, traceId: string, handle: HopHandle)
    requires i < |records|
  {
    && records[i].HopRecord? && records[i].schema == "routeq/0.1.0" && records[i].traceId == traceId
    && var hop := records[i].hop;
       && 1 <= hop.ttl <= plan.maxHops && 1 <= |hop.probes| <= plan.probesPerHop
       && hop.handle == handle(traceId, hop.ttl, hop.probes)
       && (i > 0 && records[i - 1].HopRecord? ==> records[i - 1].hop.ttl < hop.ttl)
  }

  lemma {:induction false} HopsMean(records: seq<Record>, plan: Plan, traceId: string, handle: HopHandle)
    ensures ValidHops(records, plan, traceId, handle)
       <==> forall i :: 0 <= i < |records| ==> IsHopAt(records, i, plan, traceId, handle)
  {
    if records != [] {
      var n := |records| - 1;
      HopsMean(records[..n], plan, traceId, handle);
      assert forall i :: 0 <= i < n ==>
        (IsHopAt(records, i, plan, traceId, handle) <==> IsHopAt(records[..n], i, plan, traceId, handle));
      if n > 0 && ValidHops(records[..n], plan, traceId, handle) {
        assert IsHopAt(records[..n], n - 1, plan, traceId, handle);
      }
      if forall i :: 0 <= i < |records| ==> IsHopAt(records, i, plan, traceId, handle) {
        assert IsHopAt(records, n, plan, traceId, handle);
        if n > 0 {
          assert IsHopAt(records, n - 1, plan, traceId, handle);
        }
      }
    }
  }

  /** The places in a list of probes where this came out. */
  ghost function Places(probes: seq<Probe>, outcomes: set<Outcome>): (s: set<nat>)
    ensures forall k :: k in s <==> 0 <= k < |probes| && probes[k].outcome in outcomes
  {
    set k: nat | k < |probes| && probes[k].outcome in outcomes
  }

  lemma OneMorePlace(probes: seq<Probe>, outcomes: set<Outcome>)
    requires probes != []
    ensures |Places(probes, outcomes)|
         == |Places(probes[..|probes| - 1], outcomes)| + if probes[|probes| - 1].outcome in outcomes then 1 else 0
  {
    var n := |probes| - 1;
    var (before, now) := (Places(probes[..n], outcomes), Places(probes, outcomes));
    assert now == if probes[n].outcome in outcomes then before + {n} else before;
  }

  lemma {:induction false} CountsMean(probes: seq<Probe>)
    ensures CountReplies(probes)
         == |Places(probes, {TimeExceeded, DestinationReached, Unreachable, OtherIcmp})|
    ensures CountOutcome(probes, Timeout) == |Places(probes, {Timeout})|
    ensures CountOutcome(probes, LocalError) == |Places(probes, {LocalError})|
  {
    if probes == [] {
      assert Places(probes, {TimeExceeded, DestinationReached, Unreachable, OtherIcmp}) == {};
      assert Places(probes, {Timeout}) == {} && Places(probes, {LocalError}) == {};
    } else {
      CountsMean(probes[..|probes| - 1]);
      OneMorePlace(probes, {TimeExceeded, DestinationReached, Unreachable, OtherIcmp});
      OneMorePlace(probes, {Timeout});
      OneMorePlace(probes, {LocalError});
    }
  }

  /** A footer that counts these probes. */
  ghost predicate FooterCounts(probes: seq<Probe>, start: Record, end: Record)
    requires start.TraceStart? && end.TraceEnd?
  {
    var r := end.reliability;
    && r.planned == start.plan.maxPackets && r.attempted == |probes| && r.sent <= r.attempted
    && r.replies == |Places(probes, {TimeExceeded, DestinationReached, Unreachable, OtherIcmp})|
    && r.timeouts == |Places(probes, {Timeout})| && r.localErrors == |Places(probes, {LocalError})|
    && (end.destinationReached <==>
        exists p :: p in probes && p.outcome == DestinationReached && p.responder == Some(start.targetIp))
  }

  /** A stream is accepted exactly when it is framed, its hops are in order, and its footer counts their probes. */
  lemma RouteMeans(records: seq<Record>, handle: HopHandle)
    ensures ValidRoute(records, handle) <==>
      && |records| >= 2 && records[0].TraceStart? && records[|records| - 1].TraceEnd?
      && records[0].schema == "routeq/0.1.0" && records[|records| - 1].schema == "routeq/0.1.0"
      && records[|records| - 1].traceId == records[0].traceId
      && var (start, middle, end) := (records[0], records[1..|records| - 1], records[|records| - 1]);
         && AllHops(middle)
         && (forall i :: 0 <= i < |middle| ==> IsHopAt(middle, i, start.plan, start.traceId, handle))
         && FooterCounts(AllProbes(HopsOf(middle)), start, end)
  {
    if |records| >= 2 && records[0].TraceStart? {
      var middle := records[1..|records| - 1];
      HopsMean(middle, records[0].plan, records[0].traceId, handle);
      if AllHops(middle) && records[|records| - 1].TraceEnd? {
        CountsMean(AllProbes(HopsOf(middle)));
        DestinationIs(AllProbes(HopsOf(middle)), records[0].targetIp);
      }
    }
  }

  lemma DestinationIs(probes: seq<Probe>, target: nat)
    ensures ObservesDestination(probes, target)
       <==> exists p :: p in probes && p.outcome == DestinationReached && p.responder == Some(target)
  {
    if p :| p in probes && p.outcome == DestinationReached && p.responder == Some(target) {
      var i :| 0 <= i < |probes| && probes[i] == p;
      assert probes[i].outcome == DestinationReached && probes[i].responder == Some(target);
    }
  }
}
