/**
 `SegmentedTraceWriter`: one capture written as a chain of bounded segments,
 each of which `replay` accepts on its own.
 */
module Segments {
  import opened Common
  import opened Routes
  import opened Replay
  import R = Reliability

  const MIN_ROTATION_BYTES: nat := 65_536
  const FOOTER_RESERVE_BYTES: nat := 1_024
  const U32_MAX: nat := 0xFFFF_FFFF

  /** The serialized length of an envelope with its newline. */
  type Lengths = Envelope -> nat

  function Bytes(lines: seq<Envelope>, length: Lengths): nat {
    if lines == [] then 0 else Bytes(lines[..|lines| - 1], length) + length(lines[|lines| - 1])
  }

  lemma BytesAppend(lines: seq<Envelope>, line: Envelope, length: Lengths)
    ensures Bytes(lines + [line], length) == Bytes(lines, length) + length(line)
  {
    assert (lines + [line])[..|lines|] == lines;
  }

  // ----- what a chain of segments is -----

  function Header(start: CaptureStart, index: nat, firstSeq: u64): CaptureStart {
    start.(segment := Some(SegmentStart(index, firstSeq)))
  }

  function Footer(start: CaptureStart, index: nat, firstSeq: u64, events: u64, reliability: R.Reliability,
                  stopReason: StopReason, nextSeq: Option<u64>): CaptureEnd {
    CaptureEnd(CONTRACT_VERSION, start.captureId, events, reliability, reliability.Complete(), stopReason,
               Some(SegmentEnd(index, firstSeq, nextSeq)))
  }

  /** Segment `index`, its events numbered on from `firstSeq`. */
  ghost predicate IsSegment(start: CaptureStart, c: Capture, index: nat, firstSeq: u64) {
    c.start == Header(start, index, firstSeq) && Contiguous(c.events, firstSeq) && |c.events| <= U64_MAX
  }

  /** Closed with a footer that matches its header and its events. */
  predicate IsFooted(start: CaptureStart, c: Capture, index: nat, firstSeq: u64, stop: StopReason, next: Option<u64>) {
    && c.end.Some? && |c.events| <= U64_MAX
    && c.end.value == Footer(start, index, firstSeq, |c.events|, c.end.value.reliability, stop, next)
  }

  /** The sequence number that follows a chain of closed segments. */
  function NextSeq(closed: seq<Capture>): u64 {
    if closed == [] then 0
    else
      var c := closed[|closed| - 1];
      if |c.events| > U64_MAX then U64_MAX else SatAdd(FirstSeq(c.start), |c.events|)
  }

  /** Segments numbered from zero, each starting where the one before says it does. */
  ghost predicate IsChain(start: CaptureStart, closed: seq<Capture>) {
    closed == [] || (
      var n := |closed| - 1;
      && IsChain(start, closed[..n])
      && IsSegment(start, closed[n], n, NextSeq(closed[..n]))
      && IsFooted(start, closed[n], n, NextSeq(closed[..n]), Rotation, Some(NextSeq(closed))))
  }

  function AllEvents(captures: seq<Capture>): seq<TraceEvent> {
    if captures == [] then [] else AllEvents(captures[..|captures| - 1]) + captures[|captures| - 1].events
  }

  function AllLines(captures: seq<Capture>): (lines: seq<seq<Envelope>>)
    ensures |lines| == |captures| && forall i :: 0 <= i < |lines| ==> lines[i] == Lines(captures[i])
  {
    seq(|captures|, i requires 0 <= i < |captures| => Lines(captures[i]))
  }

  /** A finished run: a chain, then a last segment that stopped for some other reason. */
  ghost predicate IsFinished(start: CaptureStart, captures: seq<Capture>, stop: StopReason) {
    captures != [] && (
      var n := |captures| - 1;
      && IsChain(start, captures[..n])
      && IsSegment(start, captures[n], n, NextSeq(captures[..n]))
      && IsFooted(start, captures[n], n, NextSeq(captures[..n]), stop, None))
  }

  // ----- every segment replays alone -----

  predicate EventsValid(start: CaptureStart, events: seq<TraceEvent>) {
    forall i :: 0 <= i < |events| ==> ValidEvent(events[i], start)
  }

  /** What decides whether one footed segment is a capture that can be replayed. */
  lemma SegmentIsValid(start: CaptureStart, c: Capture, index: nat, firstSeq: u64, stop: StopReason, next: Option<u64>)
    requires IsSegment(start, c, index, firstSeq) && IsFooted(start, c, index, firstSeq, stop, next)
    requires next == None || next == Some(SatAdd(firstSeq, |c.events|))
    ensures ValidCapture(c)
       <==> (start.schema == CONTRACT_VERSION && EventsValid(start, c.events) && |c.events| <= MAX_REPLAY_EVENTS
             && (stop == Rotation <==> next.Some?))
  {
    assert EventsValid(start, c.events) <==> forall i :: 0 <= i < |c.events| ==> ValidEvent(c.events[i], c.start);
  }

  lemma {:induction false} ChainIsValid(start: CaptureStart, closed: seq<Capture>, i: nat)
    requires IsChain(start, closed) && i < |closed|
    ensures ValidCapture(closed[i])
       <==> (start.schema == CONTRACT_VERSION && EventsValid(start, closed[i].events)
             && |closed[i].events| <= MAX_REPLAY_EVENTS)
  {
    var n := |closed| - 1;
    if i == n {
      SegmentIsValid(start, closed[n], n, NextSeq(closed[..n]), Rotation, Some(NextSeq(closed)));
    } else {
      ChainIsValid(start, closed[..n], i);
    }
  }

  /**
   Each segment of a finished run replays on its own exactly when its events are
   valid, there are at most a million of them, and it is not a last segment that
   stopped with a rotation; otherwise its lines are refused.
   */
  lemma SegmentsReplayAlone(start: CaptureStart, captures: seq<Capture>, stop: StopReason, i: nat)
    requires IsFinished(start, captures, stop) && i < |captures|
    ensures ValidCapture(captures[i])
       <==> (start.schema == CONTRACT_VERSION && EventsValid(start, captures[i].events)
             && |captures[i].events| <= MAX_REPLAY_EVENTS && (i == |captures| - 1 ==> stop != Rotation))
    ensures Rejected(AllLines(captures)[i]) <==> !ValidCapture(captures[i])
  {
    var n := |captures| - 1;
    if i == n {
      SegmentIsValid(start, captures[n], n, NextSeq(captures[..n]), stop, None);
    } else {
      ChainIsValid(start, captures[..n], i);
    }
    assert Lines(captures[i]) == AllLines(captures)[i];
    if !ValidCapture(captures[i]) {
      RejectsWhole(Lines(captures[i]), captures[i]);
    }
  }

  lemma {:induction false} PartOfAll(captures: seq<Capture>, i: nat, e: TraceEvent)
    requires i < |captures| && e in captures[i].events
    ensures e in AllEvents(captures)
  {
    if i < |captures| - 1 {
      PartOfAll(captures[..|captures| - 1], i, e);
    }
  }

  /** In particular, a run of valid events that ended replays segment by segment, if none is too long to replay. */
  lemma EndedRunReplays(start: CaptureStart, captures: seq<Capture>, stop: StopReason, i: nat)
    requires IsFinished(start, captures, stop) && stop != Rotation && i < |captures|
    requires start.schema == CONTRACT_VERSION && EventsValid(start, AllEvents(captures))
    ensures ValidCapture(captures[i]) <==> |captures[i].events| <= MAX_REPLAY_EVENTS
  {
    forall k | 0 <= k < |captures[i].events|
      ensures ValidEvent(captures[i].events[k], start)
    {
      PartOfAll(captures, i, captures[i].events[k]);
      var j :| 0 <= j < |AllEvents(captures)| && AllEvents(captures)[j] == captures[i].events[k];
    }
    SegmentsReplayAlone(start, captures, stop, i);
  }

  /** A last segment that stops with `Rotation` is refused: the footer promises no next event. */
  lemma RotationIsNotAnEnd(start: CaptureStart, captures: seq<Capture>)
    requires IsFinished(start, captures, Rotation)
    ensures Rejected(AllLines(captures)[|captures| - 1])
  {
    SegmentsReplayAlone(start, captures, Rotation, |captures| - 1);
  }

  /** Sequence numbers run through the whole capture, up to the last `u64`. */
  lemma {:induction false} ChainCounts(start: CaptureStart, closed: seq<Capture>)
    requires IsChain(start, closed) && |AllEvents(closed)| <= U64_MAX
    ensures NextSeq(closed) == |AllEvents(closed)| && Contiguous(AllEvents(closed), 0)
  {
    if closed != [] {
      var n := |closed| - 1;
      var before, here := AllEvents(closed[..n]), closed[n].events;
      ChainCounts(start, closed[..n]);
      var all := before + here;
      forall i | 0 <= i < |all| ensures all[i].seqNo == SatAdd(0, i) {
        assert i >= |before| ==> all[i] == here[i - |before|];
      }
    }
  }

  lemma HeaderLines(c: Capture, length: Lengths)
    requires c.events == [] && c.end.None?
    ensures Lines(c) == [Start(c.start)] && Bytes(Lines(c), length) == length(Start(c.start))
  {
    assert Lines(c)[..0] == [];
  }

  predicate WithinBounds(captures: seq<Capture>, maxBytes: nat, length: Lengths) {
    forall i :: 0 <= i < |captures| ==> Bytes(Lines(captures[i]), length) <= maxBytes
  }

  lemma LastLines(closed: seq<Capture>, before: Capture, after: Capture)
    ensures AllLines(closed + [after]) == AllLines(closed + [before])[|closed| := Lines(after)]
  {
  }

  /** One more event in the open segment: its lines, its bytes and the events written. */
  lemma {:induction false} SegmentGrows(
    start: CaptureStart, closed: seq<Capture>, c: Capture, e: TraceEvent, length: Lengths)
    requires IsSegment(start, c, |closed|, NextSeq(closed)) && c.end.None? && |c.events| < U64_MAX
    requires e.seqNo == SatAdd(NextSeq(closed), |c.events|)
    ensures
      var c' := c.(events := c.events + [e]);
      && IsSegment(start, c', |closed|, NextSeq(closed))
      && AllLines(closed + [c']) == AllLines(closed + [c])[|closed| := Lines(c) + [Event(e)]]
      && Bytes(Lines(c'), length) == Bytes(Lines(c), length) + length(Event(e))
      && AllEvents(closed) + c'.events == AllEvents(closed) + c.events + [e]
  {
    var c' := c.(events := c.events + [e]);
    assert Lines(c') == Lines(c) + [Event(e)];
    BytesAppend(Lines(c), Event(e), length);
    LastLines(closed, c, c');
  }

  lemma OpenLines(closed: seq<Capture>, c: Capture)
    ensures AllLines(closed + [c])[|closed|] == Lines(c)
  {
  }

  lemma ChainGrows(start: CaptureStart, closed: seq<Capture>, c: Capture, firstSeq: u64)
    requires IsChain(start, closed) && IsSegment(start, c, |closed|, NextSeq(closed))
    requires IsFooted(start, c, |closed|, NextSeq(closed), Rotation, Some(firstSeq))
    requires firstSeq == SatAdd(NextSeq(closed), |c.events|)
    ensures IsChain(start, closed + [c]) && NextSeq(closed + [c]) == firstSeq
    ensures AllEvents(closed + [c]) == AllEvents(closed) + c.events
  {
    assert (closed + [c])[..|closed|] == closed;
  }

  /** A new segment behind a chain: a header alone. */
  lemma {:induction false} SegmentOpens(start: CaptureStart, captures: seq<Capture>, firstSeq: u64, length: Lengths)
    requires firstSeq == NextSeq(captures)
    ensures
      var c := Capture(Header(start, |captures|, firstSeq), [], None);
      && IsSegment(start, c, |captures|, NextSeq(captures))
      && AllLines(captures + [c]) == AllLines(captures) + [[Start(c.start)]]
      && Bytes(Lines(c), length) == length(Start(c.start))
      && AllEvents(captures) + c.events == AllEvents(captures)
  {
    LinesOfNew(captures, Header(start, |captures|, firstSeq));
    HeaderLines(Capture(Header(start, |captures|, firstSeq), [], None), length);
  }

  lemma LinesOfNew(captures: seq<Capture>, header: CaptureStart)
    ensures AllLines(captures + [Capture(header, [], None)]) == AllLines(captures) + [[Start(header)]]
  {
    assert Lines(Capture(header, [], None)) == [Start(header)];
  }

  lemma FirstLine(lines: seq<seq<Envelope>>, line: Envelope)
    ensures (lines + [[]])[|lines| := (lines + [[]])[|lines|] + [line]] == lines + [[line]]
  {
    assert (lines + [[]])[|lines|] + [line] == [line];
  }

  // ----- the writer -----

  class SegmentedTraceWriter {
    const start: CaptureStart
    const maxBytes: nat
    const length: Lengths
    var sink: seq<seq<Envelope>>
    var currentBytes: nat
    var segmentIndex: nat
    var segmentFirstSeq: u64
    var segmentEvents: nat
    ghost var closed: seq<Capture>
    ghost var current: Capture

    /** The lines written so far are those of a chain and of the segment still open. */
    ghost predicate Valid()
      reads this
    {
      && IsChain(start, closed) && IsSegment(start, current, |closed|, NextSeq(closed)) && current.end.None?
      && sink == AllLines(closed + [current])
      && segmentIndex == |closed| <= U32_MAX && segmentFirstSeq == NextSeq(closed) && segmentEvents == |current.events|
      && currentBytes == Bytes(Lines(current), length) && currentBytes + FOOTER_RESERVE_BYTES <= maxBytes
      && WithinBounds(closed, maxBytes, length)
    }

    ghost function Written(): seq<TraceEvent>
      reads this
    {
      AllEvents(closed) + current.events
    }

    constructor (start: CaptureStart, maxBytes: nat, length: Lengths)
      requires length(Start(Header(start, 0, 0))) + FOOTER_RESERVE_BYTES <= maxBytes
      ensures Valid() && Written() == [] && closed == []
      ensures this.start == start && this.maxBytes == maxBytes && this.length == length
    {
      var header := Start(Header(start, 0, 0));
      this.start, this.maxBytes, this.length := start, maxBytes, length;
      sink, currentBytes := [[header]], length(header);
      segmentIndex, segmentFirstSeq, segmentEvents := 0, 0, 0;
      closed, current := [], Capture(Header(start, 0, 0), [], None);
      new;
      HeaderLines(current, length);
      assert closed + [current] == [current];
    }

    /** Refuses bounds that are too small and a header that leaves no room for a footer. */
    static method Open(start: CaptureStart, maxBytes: nat, maxBackups: nat, length: Lengths)
      returns (r: Result<SegmentedTraceWriter, ()>)
      ensures r.Ok? <==> maxBytes >= MIN_ROTATION_BYTES && maxBackups > 0
                         && length(Start(Header(start, 0, 0))) + FOOTER_RESERVE_BYTES <= maxBytes
      ensures r.Ok? ==> r.value.Valid() && r.value.Written() == [] && r.value.start == start
                        && r.value.maxBytes == maxBytes && fresh(r.value)
    {
      if maxBytes < MIN_ROTATION_BYTES || maxBackups == 0 {
        return Err(());
      }
      if length(Start(Header(start, 0, 0))) + FOOTER_RESERVE_BYTES > maxBytes {
        return Err(());
      }
      var writer := new SegmentedTraceWriter(start, maxBytes, length);
      return Ok(writer);
    }

    function FooterNow(reliability: R.Reliability, stop: StopReason, next: Option<u64>): CaptureEnd
      requires segmentEvents <= U64_MAX
      reads this
    {
      Footer(start, segmentIndex, segmentFirstSeq, segmentEvents, reliability, stop, next)
    }

    /** Whether this event goes in: into the open segment, or into a new one. */
    predicate Accepts(e: TraceEvent, reliability: Option<R.Reliability>)
      requires segmentEvents <= U64_MAX
      reads this
    {
      && e.seqNo == SatAdd(segmentFirstSeq, segmentEvents)
      && (currentBytes + length(Event(e)) + FOOTER_RESERVE_BYTES > maxBytes ==>
            && segmentEvents > 0 && segmentIndex < U32_MAX
            && length(Start(Header(start, segmentIndex + 1, e.seqNo))) + length(Event(e)) + FOOTER_RESERVE_BYTES
              <= maxBytes
            && reliability.Some?
            && currentBytes + length(End(FooterNow(reliability.value, Rotation, Some(e.seqNo)))) <= maxBytes)
    }

    /** The open segment has been given its footer. */
    ghost predicate Footed(stop: StopReason, next: Option<u64>)
      reads this
    {
      && IsChain(start, closed) && IsSegment(start, current, |closed|, NextSeq(closed))
      && IsFooted(start, current, |closed|, NextSeq(closed), stop, next)
      && sink == AllLines(closed + [current])
      && segmentIndex == |closed| <= U32_MAX
      && WithinBounds(closed + [current], maxBytes, length)
    }

    method FinishSegment(reliability: R.Reliability, stop: StopReason, next: Option<u64>) returns (ok: bool)
      requires Valid() && segmentEvents <= U64_MAX
      modifies this`sink, this`currentBytes, this`current
      ensures ok <==> old(currentBytes) + length(End(old(FooterNow(reliability, stop, next)))) <= maxBytes
      ensures ok ==>
        Footed(stop, next) && current == old(current).(end := Some(old(FooterNow(reliability, stop, next))))
      ensures !ok ==> Valid() && sink == old(sink) && current == old(current) && currentBytes == old(currentBytes)
    {
      var line := End(FooterNow(reliability, stop, next));
      if currentBytes + length(line) > maxBytes {
        return false;
      }
      ghost var before := current;
      WriteLine(line);
      current := current.(end := Some(line.end));
      assert Lines(current) == Lines(before) + [line];
      BytesAppend(Lines(before), line, length);
      LastLines(closed, before, current);
      return true;
    }

    method WriteLine(line: Envelope)
      requires sink != []
      modifies `sink, `currentBytes
      ensures sink == old(sink)[|old(sink)| - 1 := old(sink)[|old(sink)| - 1] + [line]]
      ensures currentBytes == old(currentBytes) + length(line)
    {
      sink := sink[|sink| - 1 := sink[|sink| - 1] + [line]];
      currentBytes := currentBytes + length(line);
    }

    method Rotate(nextIndex: nat, firstSeq: u64)
      requires segmentIndex + 1 == nextIndex <= U32_MAX
      requires Footed(Rotation, Some(firstSeq)) && firstSeq == SatAdd(NextSeq(closed), |current.events|)
      requires length(Start(Header(start, nextIndex, firstSeq))) + FOOTER_RESERVE_BYTES <= maxBytes
      modifies this
      ensures Valid() && Written() == old(Written()) && segmentEvents == 0 && segmentFirstSeq == firstSeq
      ensures currentBytes == length(Start(Header(start, nextIndex, firstSeq)))
      ensures closed == old(closed) + [old(current)]
      ensures current == Capture(Header(start, nextIndex, firstSeq), [], None)
    {
      var header := Header(start, nextIndex, firstSeq);
      ChainGrows(start, closed, current, firstSeq);
      SegmentOpens(start, closed + [current], firstSeq, length);
      ghost var lines := sink;
      closed, current := closed + [current], Capture(header, [], None);
      segmentIndex, segmentFirstSeq, segmentEvents, currentBytes := nextIndex, firstSeq, 0, 0;
      sink := sink + [[]];
      WriteLine(Start(header));
      FirstLine(lines, Start(header));
    }

    method Append(e: TraceEvent)
      requires Valid() && segmentEvents < U64_MAX && e.seqNo == SatAdd(segmentFirstSeq, segmentEvents)
      requires currentBytes + length(Event(e)) + FOOTER_RESERVE_BYTES <= maxBytes
      modifies this`sink, this`currentBytes, this`segmentEvents, this`current
      ensures Valid() && Written() == old(Written()) + [e]
      ensures current == old(current).(events := old(current).events + [e])
    {
      SegmentGrows(start, closed, current, e, length);
      OpenLines(closed, current);
      WriteLine(Event(e));
      segmentEvents := segmentEvents + 1;
      current := current.(events := current.events + [e]);
    }

    method WriteEvent(e: TraceEvent, reliabilityAtBoundary: Option<R.Reliability>) returns (ok: bool)
      requires Valid() && segmentEvents < U64_MAX
      modifies this
      ensures Valid()
      ensures ok <==> old(Accepts(e, reliabilityAtBoundary))
      ensures Written() == if ok then old(Written()) + [e] else old(Written())
      ensures !ok ==> sink == old(sink)
      ensures ok && old(currentBytes) + length(Event(e)) + FOOTER_RESERVE_BYTES <= maxBytes ==>
        closed == old(closed) && current == old(current).(events := old(current).events + [e])
      ensures ok && old(currentBytes) + length(Event(e)) + FOOTER_RESERVE_BYTES > maxBytes ==>
        && reliabilityAtBoundary.Some?
        && closed == old(closed) + [old(current).(
             end := Some(old(FooterNow(reliabilityAtBoundary.value, Rotation, Some(e.seqNo)))))]
        && current == Capture(Header(start, |closed|, e.seqNo), [e], None)
    {
      var expected := SatAdd(segmentFirstSeq, segmentEvents);
      if e.seqNo != expected {
        return false;
      }
      if currentBytes + length(Event(e)) + FOOTER_RESERVE_BYTES > maxBytes {
        if segmentEvents == 0 || segmentIndex == U32_MAX {
          return false;
        }
        var nextIndex := segmentIndex + 1;
        var nextHeader := Start(Header(start, nextIndex, e.seqNo));
        if length(nextHeader) + length(Event(e)) + FOOTER_RESERVE_BYTES > maxBytes || reliabilityAtBoundary.None? {
          return false;
        }
        var footed := FinishSegment(reliabilityAtBoundary.value, Rotation, Some(e.seqNo));
        if !footed {
          return false;
        }
        Rotate(nextIndex, e.seqNo);
      }
      Append(e);
      return true;
    }

    /** Ends the capture; what was written is then a finished chain within its bounds. */
    method Finish(stop: StopReason, reliability: R.Reliability) returns (ok: bool)
      requires Valid() && segmentEvents <= U64_MAX
      modifies this
      ensures ok <==> old(currentBytes) + length(End(old(FooterNow(reliability, stop, None)))) <= maxBytes
      ensures ok ==>
        && IsFinished(start, closed + [current], stop) && sink == AllLines(closed + [current])
        && AllEvents(closed + [current]) == old(Written())
        && current.end == Some(old(FooterNow(reliability, stop, None)))
        && WithinBounds(closed + [current], maxBytes, length)
    {
      ok := FinishSegment(reliability, stop, None);
      ghost var captures := closed + [current];
      assert captures[..|captures| - 1] == closed;
    }
  }
}
