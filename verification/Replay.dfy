/**
 `replay`: one pass over a stream of envelopes, which accepts exactly the
 well-formed captures and rebuilds their routes as it goes.
 */
module Replay {
  import opened Common
  import opened BoundedMap
  import opened Routes
  import R = Reliability
  import S = RouteSummary

  const CONTRACT_VERSION := "traceq/0.1.0"
  const MAX_REPLAY_EVENTS: nat := 1_000_000
  const MAX_REPLAY_ROUTES: nat := 65_536

  datatype StopReason = Duration | EventLimit | Signal | SourceEnded | Rotation | Error

  datatype SegmentStart = SegmentStart(index: nat, firstSeq: u64)

  datatype SegmentEnd = SegmentEnd(index: nat, firstSeq: u64, nextSeq: Option<u64>)

  datatype CaptureStart = CaptureStart(
    schema: string, captureId: string, programs: set<BpfProgram>, routeCacheEntries: u64, segment: Option<SegmentStart>)

  datatype CaptureEnd = CaptureEnd(
    schema: string, captureId: string, events: u64, reliability: R.Reliability, complete: bool, stopReason: StopReason,
    segment: Option<SegmentEnd>)

  datatype Envelope = Start(start: CaptureStart) | Event(event: TraceEvent) | End(end: CaptureEnd)

  datatype Summary = Summary(
    captureId: string, segment: Option<SegmentStart>, complete: bool, events: nat, skbs: set<string>,
    live: Entries<string, Route>, completed: seq<(string, Route)>, evictions: nat,
    reliability: Option<R.Reliability>, stopReason: Option<StopReason>,
    patterns: seq<S.Pattern>, consensus: Option<S.Consensus>)

  /** The digest that names a pattern of a capture. */
  type PatternHandle = (string, S.Shape) -> string

  // ----- one envelope -----

  predicate IsLowerHex(c: char) {
    '0' <= c <= '9' || 'a' <= c <= 'f'
  }

  predicate IsHandle(h: string) {
    && "event:" <= h && |h| == |"event:"| + 24
    && forall i :: |"event:"| <= i < |h| ==> IsLowerHex(h[i])
  }

  predicate ValidEvent(e: TraceEvent, start: CaptureStart) {
    && e.schema == CONTRACT_VERSION && e.captureId == start.captureId
    && (e.program.Some? ==> e.program.value in start.programs)
    && (e.hasAction ==> e.program.Some? && e.program.value.kind.Xdp? && e.phase == Some(Exit))
    && IsHandle(e.handle)
  }

  function FirstSeq(start: CaptureStart): u64 {
    if start.segment.Some? then start.segment.value.firstSeq else 0
  }

  function RouteCapacity(start: CaptureStart): (capacity: nat)
    ensures 1 <= capacity <= MAX_REPLAY_ROUTES
  {
    if start.routeCacheEntries > MAX_REPLAY_ROUTES then MAX_REPLAY_ROUTES
    else if start.routeCacheEntries < 1 then 1 else start.routeCacheEntries
  }

  /** A footer that belongs to the header. */
  predicate ValidFooter(start: CaptureStart, end: CaptureEnd) {
    && end.schema == CONTRACT_VERSION && end.captureId == start.captureId
    && (end.complete ==> end.reliability.Complete())
  }

  predicate ValidSegment(start: CaptureStart, end: CaptureEnd, events: u64) {
    match (start.segment, end.segment)
    case (None, None) => true
    case (Some(s), Some(e)) =>
      && s.index == e.index && s.firstSeq == e.firstSeq
      && (e.nextSeq.Some? ==> e.nextSeq.value == SatAdd(s.firstSeq, events))
      && (e.nextSeq.Some? <==> end.stopReason == Rotation)
    case _ => false
  }

  // ----- a whole stream -----

  /** A capture: its header, its events and, if it was not cut short, its footer. */
  datatype Capture = Capture(start: CaptureStart, events: seq<TraceEvent>, end: Option<CaptureEnd>)

  function Lines(c: Capture): seq<Envelope> {
    [Start(c.start)]
    + seq(|c.events|, i requires 0 <= i < |c.events| => Event(c.events[i]))
    + if c.end.Some? then [End(c.end.value)] else []
  }

  predicate Contiguous(events: seq<TraceEvent>, first: u64) {
    forall i :: 0 <= i < |events| ==> i <= U64_MAX && events[i].seqNo == SatAdd(first, i)
  }

  predicate ValidCapture(c: Capture) {
    && c.start.schema == CONTRACT_VERSION
    && |c.events| <= MAX_REPLAY_EVENTS
    && Contiguous(c.events, FirstSeq(c.start))
    && (forall i :: 0 <= i < |c.events| ==> ValidEvent(c.events[i], c.start))
    && (c.end.Some? ==>
          && ValidFooter(c.start, c.end.value)
          && c.end.value.events == |c.events|
          && ValidSegment(c.start, c.end.value, |c.events|))
  }

  /** Everything in the summary of a capture but its route patterns. */
  function SummaryOf(c: Capture): Summary {
    var routes := RunRoutes(c.events, RouteCapacity(c.start));
    Summary(
      c.start.captureId, c.start.segment, c.end.Some? && c.end.value.complete, |c.events|, Identities(c.events),
      routes.live, routes.completed, routes.evictions,
      if c.end.Some? then Some(c.end.value.reliability) else None,
      if c.end.Some? then Some(c.end.value.stopReason) else None, [], None)
  }

  function HandleIn(handle: PatternHandle, captureId: string): S.Shape -> string {
    shape => handle(captureId, shape)
  }

  /** The patterns count all routes of the capture, closed and still live, and the consensus is theirs. */
  ghost predicate Summarizes(r: Summary, c: Capture, handle: PatternHandle) {
    && r.(patterns := [], consensus := None) == SummaryOf(c)
    && var routes, name := r.completed + r.live, HandleIn(handle, c.start.captureId);
       S.Tallies(r.patterns, multiset(S.Shapes(routes))) && S.Ranked(r.patterns, name)
       && S.Total(r.patterns) == |routes|
       && (r.consensus.None? <==> routes == [])
       && (r.consensus.Some? ==> S.Summarizes(r.consensus.value, r.patterns, |routes|, name))
  }

  /** No route is lost between the events and the patterns: all that were started are counted, or were evicted. */
  lemma PatternsCountRoutes(r: Summary, c: Capture, handle: PatternHandle)
    requires Summarizes(r, c, handle)
    ensures S.Total(r.patterns) + r.evictions == RunRoutes(c.events, RouteCapacity(c.start)).started
  {
    RoutesBalance(c.events, RouteCapacity(c.start));
    var summary := SummaryOf(c);
    assert r.completed == summary.completed && r.live == summary.live && r.evictions == summary.evictions;
  }

  /** A stream spells at most one capture. */
  lemma LinesInjective(c: Capture, d: Capture)
    requires Lines(c) == Lines(d)
    ensures c == d
  {
    var n, m := |c.events|, |d.events|;
    var lines := Lines(c);
    assert lines[0] == Start(c.start) && Lines(d)[0] == Start(d.start);
    if c.end.Some? {
      assert lines[|lines| - 1] == End(c.end.value);
    }
    if d.end.Some? {
      assert Lines(d)[|lines| - 1] == End(d.end.value);
    }
    assert c.end.None? && n > 0 ==> lines[n] == Event(c.events[n - 1]);
    assert d.end.None? && m > 0 ==> Lines(d)[m] == Event(d.events[m - 1]);
    assert n == m && c.end == d.end;
    forall i | 0 <= i < n ensures c.events[i] == d.events[i] {
      assert lines[i + 1] == Event(c.events[i]) && Lines(d)[i + 1] == Event(d.events[i]);
    }
    assert c.events == d.events;
  }

  lemma LineAt(c: Capture, i: nat)
    requires i < |Lines(c)|
    ensures Lines(c)[i] ==
      if i == 0 then Start(c.start) else if i <= |c.events| then Event(c.events[i - 1]) else End(c.end.value)
    ensures |Lines(c)| == 1 + |c.events| + if c.end.Some? then 1 else 0
  {
  }

  /** The stream spells no valid capture. */
  ghost predicate Rejected(stream: seq<Envelope>) {
    forall d :: Lines(d) == stream ==> !ValidCapture(d)
  }

  /** What is known of a capture the stream spells, from the lines read so far and the next one. */
  lemma NextLine(stream: seq<Envelope>, c: Capture, d: Capture)
    requires |Lines(c)| < |stream| && Lines(c) == stream[..|Lines(c)|] && Lines(d) == stream
    ensures c.end.None? && d.start == c.start
    ensures var i := |Lines(c)|;
            && !stream[i].Start?
            && (stream[i].Event? ==> |d.events| >= i && d.events[i - 1] == stream[i].event)
            && (stream[i].End? ==> |d.events| == i - 1 && d.end == Some(stream[i].end) && d.events == c.events)
  {
    var i := |Lines(c)|;
    LineAt(c, 0);
    LineAt(d, 0);
    LineAt(c, i - 1);
    LineAt(d, i - 1);
    LineAt(d, i);
    if stream[i].End? {
      forall k | 0 <= k < |c.events| ensures c.events[k] == d.events[k] {
        LineAt(c, k + 1);
        LineAt(d, k + 1);
      }
    }
  }

  lemma RejectsFirst(stream: seq<Envelope>)
    requires stream == [] || !stream[0].Start?
    ensures Rejected(stream)
  {
    forall d ensures Lines(d) != [] && Lines(d)[0].Start? {
      LineAt(d, 0);
    }
  }

  /** The next line cannot follow, or is not valid where it stands. */
  predicate BadNext(c: Capture, line: Envelope) {
    match line
    case Start(_) => true
    case Event(e) =>
      || c.end.Some?
      || !ValidEvent(e, c.start) || |c.events| > U64_MAX || e.seqNo != SatAdd(FirstSeq(c.start), |c.events|)
      || |c.events| >= MAX_REPLAY_EVENTS
    case End(end) => c.end.Some? || !ValidFooter(c.start, end)
  }

  lemma RejectsNext(stream: seq<Envelope>, i: nat, c: Capture)
    requires i < |stream| && Lines(c) == stream[..i] && BadNext(c, stream[i])
    ensures Rejected(stream)
  {
    assert |Lines(c)| == i;
    forall d | Lines(d) == stream ensures !ValidCapture(d) {
      NextLine(stream, c, d);
      LineAt(c, 0);
    }
  }

  lemma RejectsWhole(stream: seq<Envelope>, c: Capture)
    requires Lines(c) == stream && !ValidCapture(c)
    ensures Rejected(stream)
  {
    forall d | Lines(d) == stream ensures !ValidCapture(d) {
      LinesInjective(c, d);
    }
  }

  lemma TakesEvent(stream: seq<Envelope>, i: nat, c: Capture, e: TraceEvent)
    requires c.end.None? && i < |stream| && Lines(c) == stream[..i] && stream[i] == Event(e)
    ensures Lines(c.(events := c.events + [e])) == stream[..i + 1]
  {
    assert Lines(c.(events := c.events + [e])) == Lines(c) + [Event(e)];
  }

  lemma TakesEnd(stream: seq<Envelope>, i: nat, c: Capture, end: CaptureEnd)
    requires c.end.None? && i < |stream| && Lines(c) == stream[..i] && stream[i] == End(end)
    ensures Lines(c.(end := Some(end))) == stream[..i + 1]
  {
    assert Lines(c.(end := Some(end))) == Lines(c) + [End(end)];
  }

  lemma TakesStart(stream: seq<Envelope>, c: Capture)
    requires stream != [] && stream[0] == Start(c.start) && c.events == [] && c.end.None?
    ensures Lines(c) == stream[..1]
  {
  }

  lemma RunAppends(events: seq<TraceEvent>, e: TraceEvent, capacity: nat)
    ensures RunRoutes(events + [e], capacity) == StepRoutes(RunRoutes(events, capacity), e, capacity)
    ensures Identities(events + [e]) == Identities(events) + {Identity(e)}
  {
    assert (events + [e])[..|events|] == events;
  }

  /** The events read so far, each valid in its place. */
  predicate EventsOk(start: CaptureStart, events: seq<TraceEvent>) {
    events == [] || (
      var n := |events| - 1;
      && EventsOk(start, events[..n]) && n < MAX_REPLAY_EVENTS
      && ValidEvent(events[n], start) && events[n].seqNo == SatAdd(FirstSeq(start), n))
  }

  lemma {:induction false} EventsOkEverywhere(start: CaptureStart, events: seq<TraceEvent>)
    requires EventsOk(start, events)
    ensures |events| <= MAX_REPLAY_EVENTS && Contiguous(events, FirstSeq(start))
    ensures forall i :: 0 <= i < |events| ==> ValidEvent(events[i], start)
  {
    if events != [] {
      EventsOkEverywhere(start, events[..|events| - 1]);
      forall i | 0 <= i < |events|
        ensures ValidEvent(events[i], start) && events[i].seqNo == SatAdd(FirstSeq(start), i)
      {
        assert i < |events| - 1 ==> events[i] == events[..|events| - 1][i];
      }
    }
  }

  lemma EventsOkAppends(start: CaptureStart, events: seq<TraceEvent>, e: TraceEvent)
    requires EventsOk(start, events) && |events| < MAX_REPLAY_EVENTS
    requires ValidEvent(e, start) && e.seqNo == SatAdd(FirstSeq(start), |events|)
    ensures EventsOk(start, events + [e])
  {
    assert (events + [e])[..|events|] == events;
  }

  /** What the loop holds after the lines of a capture that has begun. */
  ghost predicate Holding(
    c: Capture, routes: Bounded<string, Route>, completed: seq<(string, Route)>, skbs: set<string>)
    reads routes
  {
    && |c.events| <= MAX_REPLAY_EVENTS && EventsOk(c.start, c.events)
    && (c.end.Some? ==> ValidFooter(c.start, c.end.value))
    && routes.Valid() && routes.generation == |c.events| && routes.capacity == RouteCapacity(c.start)
    && var run := RunRoutes(c.events, routes.capacity);
       routes.Contents() == run.live && completed == run.completed && routes.evictions == run.evictions
       && skbs == Identities(c.events)
  }

  method TakeEvent(
    e: TraceEvent, start: CaptureStart, ended: bool, observed: nat, routes: Bounded<string, Route>,
    completed: seq<(string, Route)>, skbs: set<string>, ghost c: Capture)
    returns (ok: bool, completed': seq<(string, Route)>, skbs': set<string>)
    requires c.start == start && ended == c.end.Some? && observed == |c.events|
    requires Holding(c, routes, completed, skbs)
    modifies routes
    ensures ok <==> !BadNext(c, Event(e))
    ensures ok ==> Holding(c.(events := c.events + [e]), routes, completed', skbs')
  {
    completed', skbs' := completed, skbs;
    if ended || !ValidEvent(e, start) {
      return false, completed', skbs';
    }
    var expected := SatAdd(FirstSeq(start), observed);
    if e.seqNo != expected || observed + 1 > MAX_REPLAY_EVENTS {
      return false, completed', skbs';
    }
    skbs' := skbs + {Identity(e)};
    EventsOkAppends(start, c.events, e);
    RunAppends(c.events, e, routes.capacity);
    completed' := ObserveEvent(routes, completed, e, RunRoutes(c.events, routes.capacity));
    return true, completed', skbs';
  }

  /** The checks after the last line, and the routes put together. */
  method Conclude(
    start: CaptureStart, end: Option<CaptureEnd>, observed: nat, routes: Bounded<string, Route>,
    completed: seq<(string, Route)>, skbs: set<string>, handle: PatternHandle, ghost c: Capture)
    returns (r: Result<Summary, ()>)
    requires c.start == start && c.end == end && observed == |c.events|
    requires Holding(c, routes, completed, skbs)
    ensures r.Ok? <==> ValidCapture(c)
    ensures r.Ok? ==> Summarizes(r.value, c, handle)
  {
    EventsOkEverywhere(start, c.events);
    if start.schema != CONTRACT_VERSION {
      return Err(());
    }
    if end.Some? {
      if end.value.events != observed || !ValidSegment(start, end.value, observed) {
        return Err(());
      }
    }
    var live := routes.Contents();
    var patterns, consensus := S.SummarizeRoutes(completed + live, HandleIn(handle, start.captureId));
    return Ok(Summary(
      start.captureId, start.segment, end.Some? && end.value.complete, observed, skbs,
      live, completed, routes.evictions,
      if end.Some? then Some(end.value.reliability) else None,
      if end.Some? then Some(end.value.stopReason) else None, patterns, consensus));
  }

  /** Accepts exactly the streams that spell a valid capture, and summarises the capture they spell. */
  method Replay(stream: seq<Envelope>, handle: PatternHandle) returns (r: Result<Summary, ()>, ghost c: Capture)
    ensures r.Ok? ==> Lines(c) == stream && ValidCapture(c) && Summarizes(r.value, c, handle)
    ensures r.Err? ==> Rejected(stream)
  {
    if stream == [] || !stream[0].Start? {
      RejectsFirst(stream);
      c := Capture(CaptureStart("", "", {}, 0, None), [], None);
      return Err(()), c;
    }
    var start := stream[0].start;
    var end: Option<CaptureEnd> := None;
    var observed := 0;
    var skbs: set<string> := {};
    var routes := new Bounded<string, Route>(RouteCapacity(start));
    var completed: seq<(string, Route)> := [];
    c := Capture(start, [], None);
    TakesStart(stream, c);
    var index := 1;
    while index < |stream|
      invariant 1 <= index <= |stream| && Lines(c) == stream[..index]
      invariant c.start == start && c.end == end && |c.events| == observed
      invariant fresh(routes) && Holding(c, routes, completed, skbs)
    {
      if BadNext(c, stream[index]) {
        RejectsNext(stream, index, c);
      }
      match stream[index] {
        case Start(_) =>
          return Err(()), c;
        case Event(e) =>
          var ok;
          ok, completed, skbs := TakeEvent(e, start, end.Some?, observed, routes, completed, skbs, c);
          if !ok {
            return Err(()), c;
          }
          observed := observed + 1;
          TakesEvent(stream, index, c, e);
          c := c.(events := c.events + [e]);
        case End(value) =>
          if !ValidFooter(start, value) || end.Some? {
            return Err(()), c;
          }
          TakesEnd(stream, index, c, value);
          end := Some(value);
          c := c.(end := end);
      }
      index := index + 1;
    }
    assert stream[..|stream|] == stream;
    r := Conclude(start, end, observed, routes, completed, skbs, handle, c);
    if r.Err? {
      RejectsWhole(stream, c);
    }
  }
}
