/**
 What the replayer accepts and what its summary says, field by field, and what
 the writer's headers and footers say of the segments they enclose.
 */
module ReplayMeaning {
  import opened Common
  import opened BoundedMap
  import opened Routes
  import opened Replay
  import opened Segments
  import R = Reliability

  // ----- what is accepted -----

  const HEX := "0123456789abcdef"

  /**
   An event the capture vouches for: its own, by a declared program, an action only at an XDP exit, a proper handle.
   */
  predicate IsEvidence(e: TraceEvent, start: CaptureStart) {
    && e.schema == "traceq/0.1.0" && e.captureId == start.captureId
    && (e.program == None || e.program.value in start.programs)
    && (e.hasAction ==> e.program.Some? && e.program.value.kind == Xdp && e.phase == Some(Exit))
    && |e.handle| == 30 && e.handle[..6] == "event:" && forall i :: 6 <= i < 30 ==> e.handle[i] in HEX
  }

  lemma EvidenceMeans(e: TraceEvent, start: CaptureStart)
    ensures ValidEvent(e, start) <==> IsEvidence(e, start)
  {
    assert forall c: char :: IsLowerHex(c) <==> c in HEX;
    if "event:" <= e.handle {
      assert e.handle[..6] == "event:";
    }
  }

  /** Every number is one more than the last, from the segment's first, up to the largest there is. */
  predicate NumberedFrom(events: seq<TraceEvent>, first: nat) {
    forall i :: 0 <= i < |events| ==>
      events[i].seqNo == if first + i < 0x1_0000_0000_0000_0000 then first + i else 0xFFFF_FFFF_FFFF_FFFF
  }

  predicate ClosesCapture(start: CaptureStart, events: nat, end: CaptureEnd) {
    && end.schema == "traceq/0.1.0" && end.captureId == start.captureId && end.events == events
    && (end.complete ==>
          && end.reliability.reserveFailures == 0 && end.reliability.recursionMisses == 0
          && end.reliability.decodeFailures == 0 && end.reliability.enrichmentFailures == 0
          && end.reliability.outputFailures == 0)
    && (start.segment.Some? <==> end.segment.Some?)
    && (start.segment.Some? && end.segment.Some? ==>
          var (s, e) := (start.segment.value, end.segment.value);
          && e.index == s.index && e.firstSeq == s.firstSeq && (e.nextSeq.Some? <==> end.stopReason == Rotation)
          && (e.nextSeq.Some? ==>
                e.nextSeq.value
                == if s.firstSeq + events < 0x1_0000_0000_0000_0000 then s.firstSeq + events
                   else 0xFFFF_FFFF_FFFF_FFFF))
  }

  /** A capture is accepted exactly when every event is evidence, in sequence, and a footer, if there is one, fits. */
  lemma CaptureMeans(c: Capture)
    ensures ValidCapture(c) <==>
      && c.start.schema == "traceq/0.1.0" && |c.events| <= 1_000_000
      && NumberedFrom(c.events, if c.start.segment.Some? then c.start.segment.value.firstSeq else 0)
      && (forall i :: 0 <= i < |c.events| ==> IsEvidence(c.events[i], c.start))
      && (c.end.Some? ==> ClosesCapture(c.start, |c.events|, c.end.value))
  {
    forall i | 0 <= i < |c.events|
      ensures ValidEvent(c.events[i], c.start) <==> IsEvidence(c.events[i], c.start)
    {
      EvidenceMeans(c.events[i], c.start);
    }
    if |c.events| <= 1_000_000 {
      assert Contiguous(c.events, FirstSeq(c.start))
        <==> NumberedFrom(c.events, if c.start.segment.Some? then c.start.segment.value.firstSeq else 0);
    }
  }

  // ----- what the summary says -----

  /** The summary repeats what header and footer say, and without a footer claims nothing. */
  lemma SummaryTells(r: Summary, c: Capture, handle: PatternHandle)
    requires Summarizes(r, c, handle)
    ensures r.captureId == c.start.captureId && r.segment == c.start.segment && r.events == |c.events|
    ensures r.complete <==> c.end.Some? && c.end.value.complete
    ensures r.reliability == (if c.end.Some? then Some(c.end.value.reliability) else None)
    ensures r.stopReason == (if c.end.Some? then Some(c.end.value.stopReason) else None)
    ensures forall e :: e in c.events ==> Identity(e) in r.skbs
    ensures forall identity :: identity in r.skbs ==> exists e :: e in c.events && Identity(e) == identity
  {
    var summary := SummaryOf(c);
    assert r.captureId == summary.captureId && r.events == summary.events && r.skbs == summary.skbs;
    assert r.complete == summary.complete && r.reliability == summary.reliability;
    assert r.stopReason == summary.stopReason && r.segment == summary.segment;
    IdentitiesAre(c.events);
  }

  lemma {:induction false} IdentitiesAre(events: seq<TraceEvent>)
    ensures forall e :: e in events ==> Identity(e) in Identities(events)
    ensures forall identity :: identity in Identities(events) ==>
      exists e :: e in events && Identity(e) == identity
  {
    if events != [] {
      IdentitiesAre(events[..|events| - 1]);
      assert events == events[..|events| - 1] + [events[|events| - 1]];
      forall identity | identity in Identities(events)
        ensures exists e :: e in events && Identity(e) == identity
      {
        if identity != Identity(events[|events| - 1]) {
          var e :| e in events[..|events| - 1] && Identity(e) == identity;
          assert e in events;
        } else {
          assert events[|events| - 1] in events;
        }
      }
    }
  }

  /** Events of one lineage are one packet's, whatever buffer they saw; without lineage the buffer is the packet. */
  lemma LineageIsIdentity(e: TraceEvent, f: TraceEvent)
    ensures e.identity != "" && f.identity != "" ==> (Identity(e) == Identity(f) <==> e.identity == f.identity)
    ensures e.identity == "" && f.identity == "" ==> (Identity(e) == Identity(f) <==> e.skb == f.skb)
  {
  }

  /**
   A stream with no more packets than the header makes room for, and no more than
   65536, loses no route: every packet's passes are all there.
   */
  lemma RoomForEveryPacket(r: Summary, c: Capture, handle: PatternHandle, identity: string)
    requires Summarizes(r, c, handle)
    requires |r.skbs| <= c.start.routeCacheEntries && |r.skbs| <= 65_536
    ensures r.evictions == 0 && |r.live| == |r.skbs| && (Lookup(r.live, identity).Some? <==> identity in r.skbs)
    ensures ClosedFor(r.completed, identity) + Optional(Lookup(r.live, identity))
         == RoutesOf(Chunks(EventsOf(c.events, identity)))
  {
    var (capacity, summary) := (RouteCapacity(c.start), SummaryOf(c));
    assert r.skbs == summary.skbs == Identities(c.events);
    assert r.live == summary.live && r.completed == summary.completed && r.evictions == summary.evictions;
    if c.events == [] {
      assert Identities(c.events) == {};
    }
    RoomForAll(c.events, capacity);
    StreamingIsBatch(c.events, capacity, identity);
  }

  /** And the cache is never larger than the header and the bound say, nor empty. */
  lemma CacheIsBounded(r: Summary, c: Capture, handle: PatternHandle)
    requires Summarizes(r, c, handle)
    ensures |r.live| <= 65_536 && (|r.live| <= c.start.routeCacheEntries || |r.live| <= 1)
  {
    RoutesBalance(c.events, RouteCapacity(c.start));
    assert r.live == SummaryOf(c).live;
  }

  /**
   A route tells its pass: the functions in order up to the two hundred and fifty-sixth, and where it began and ended.
   */
  lemma RouteTells(chunk: Chunk)
    ensures
      var (r, first, last) := (RouteOf(chunk), chunk[0], chunk[|chunk| - 1]);
      && |r.functions| == (if |chunk| < 256 then |chunk| else 256) && (r.truncated <==> |chunk| > 256)
      && (forall i :: 0 <= i < |r.functions| ==> r.functions[i] == chunk[i].functionName)
      && r.firstSeq == first.seqNo && r.lastSeq == last.seqNo
      && r.firstEvent == first.handle && r.lastEvent == last.handle && r.firstSkb == first.skb
  {
  }

  /** A filter match sees the same buffer in the function the pass began with. */
  predicate IsBack(first: TraceEvent, e: TraceEvent) {
    e.fromFilter && e.skb == first.skb && e.functionName == first.functionName
  }

  /** A new pass begins exactly there. */
  lemma PassesSplit(events: seq<TraceEvent>, i: nat, j: nat)
    requires i < |Chunks(events)| && j < |Chunks(events)[i]|
    ensures j > 0 ==> !IsBack(Chunks(events)[i][0], Chunks(events)[i][j])
    ensures j == 0 && i > 0 ==> IsBack(Chunks(events)[i - 1][0], Chunks(events)[i][0])
  {
    ChunksSplitAtRestarts(events);
  }

  // ----- what the writer says -----

  /** How many events a chain of segments holds. */
  function Before(captures: seq<Capture>, i: nat): nat
    requires i <= |captures|
  {
    if i == 0 then 0 else Before(captures, i - 1) + |captures[i - 1].events|
  }

  predicate Lossless(r: R.Reliability) {
    && r.reserveFailures == 0 && r.recursionMisses == 0 && r.decodeFailures == 0
    && r.enrichmentFailures == 0 && r.outputFailures == 0
  }

  /** The header says which segment it is and how many events of the run came before, and is otherwise the run's. */
  predicate HeaderTells(start: CaptureStart, c: Capture, index: nat, before: nat) {
    && c.start.(segment := None) == start.(segment := None)
    && c.start.segment.Some? && c.start.segment.value.index == index && c.start.segment.value.firstSeq == before
  }

  /** The footer repeats that, counts its events, is complete if nothing was lost, and says where the next goes on. */
  predicate FooterTells(
    start: CaptureStart, c: Capture, index: nat, before: nat, stop: StopReason, next: Option<nat>)
  {
    && c.end.Some?
    && var end := c.end.value;
       && end.schema == "traceq/0.1.0" && end.captureId == start.captureId && end.events == |c.events|
       && (end.complete <==> Lossless(end.reliability)) && end.stopReason == stop
       && end.segment.Some? && end.segment.value.index == index && end.segment.value.firstSeq == before
       && (end.segment.value.nextSeq.Some? <==> next.Some?)
       && (next.Some? && end.segment.value.nextSeq.Some? ==> end.segment.value.nextSeq.value == next.value)
  }

  lemma {:induction false} ChainTells(start: CaptureStart, closed: seq<Capture>, i: nat)
    requires IsChain(start, closed) && i < |closed| && Before(closed, i + 1) <= U64_MAX
    ensures HeaderTells(start, closed[i], i, Before(closed, i))
    ensures FooterTells(start, closed[i], i, Before(closed, i), Rotation, Some(Before(closed, i + 1)))
  {
    var n := |closed| - 1;
    if i < n {
      BeforePrefix(closed, n, i + 1);
      ChainTells(start, closed[..n], i);
      BeforePrefix(closed, n, i);
    } else {
      assert closed[..n + 1] == closed;
      NextIsBefore(start, closed, n);
      NextIsBefore(start, closed, n + 1);
    }
  }

  lemma {:induction false} BeforePrefix(captures: seq<Capture>, n: nat, i: nat)
    requires i <= n <= |captures|
    ensures Before(captures[..n], i) == Before(captures, i)
  {
    if i > 0 {
      BeforePrefix(captures, n, i - 1);
    }
  }

  lemma {:induction false} NextIsBefore(start: CaptureStart, closed: seq<Capture>, n: nat)
    requires n <= |closed| && IsChain(start, closed[..n]) && Before(closed, n) <= U64_MAX
    ensures NextSeq(closed[..n]) == Before(closed, n)
  {
    if n > 0 {
      assert closed[..n][..n - 1] == closed[..n - 1];
      NextIsBefore(start, closed, n - 1);
    }
  }

  /**
   Every segment of a finished run says which it is, where its events are in the
   run, how many there are and whether they are all there were, and every one
   but the last where the next goes on.
   */
  lemma SegmentsTell(start: CaptureStart, captures: seq<Capture>, stop: StopReason, i: nat)
    requires IsFinished(start, captures, stop) && i < |captures| && Before(captures, |captures|) <= U64_MAX
    ensures HeaderTells(start, captures[i], i, Before(captures, i))
    ensures
      var last := i == |captures| - 1;
      FooterTells(start, captures[i], i, Before(captures, i), if last then stop else Rotation,
        if last then None else Some(Before(captures, i + 1)))
  {
    var n := |captures| - 1;
    BeforeGrows(captures, i + 1, n + 1);
    BeforePrefix(captures, n, i);
    if i < n {
      BeforePrefix(captures, n, i + 1);
      ChainTells(start, captures[..n], i);
    } else {
      NextIsBefore(start, captures, n);
    }
  }

  lemma {:induction false} BeforeGrows(captures: seq<Capture>, i: nat, j: nat)
    requires i <= j <= |captures|
    ensures Before(captures, i) <= Before(captures, j)
  {
    if i < j {
      BeforeGrows(captures, i, j - 1);
    }
  }
}
