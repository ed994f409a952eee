/**
 Route reconstruction: `RouteBuilder` and the per-event step of `replay`,
 against the batch definition that splits each packet's events at restarts.
 */
module Routes {
  import opened Common
  import opened BoundedMap

  const MAX_ROUTE_HOPS: nat := 256

  datatype ProgramKind = Tc | Xdp

  datatype Phase = Entry | Exit

  datatype BpfProgram = BpfProgram(id: nat, name: string, entry: string, kind: ProgramKind)

  /** A trace event; `function` is the name `event_function_name` gives it. */
  datatype TraceEvent = TraceEvent(
    seqNo: u64, schema: string, captureId: string, handle: string, skb: string, identity: string, functionName: string,
    fromFilter: bool, program: Option<BpfProgram>, phase: Option<Phase>, hasAction: bool)

  function Identity(e: TraceEvent): string {
    if e.identity == "" then e.skb else e.identity
  }

  datatype Route = Route(
    functions: seq<string>, firstSeq: u64, lastSeq: u64, firstEvent: string, lastEvent: string, firstSkb: string,
    truncated: bool)

  function NewRoute(e: TraceEvent): Route {
    Route([e.functionName], e.seqNo, e.seqNo, e.handle, e.handle, e.skb, false)
  }

  function Observe(r: Route, e: TraceEvent): Route {
    var r' := r.(lastSeq := e.seqNo, lastEvent := e.handle);
    if |r.functions| < MAX_ROUTE_HOPS then r'.(functions := r.functions + [e.functionName]) else r'.(truncated := true)
  }

  // ----- the batch definition -----

  type Chunk = c: seq<TraceEvent> | c != [] witness [TraceEvent(0, "", "", "", "", "", "", false, None, None, false)]

  /** The packet is back where this pass began, and the filter says it is the same buffer. */
  predicate StartsAgain(first: TraceEvent, e: TraceEvent) {
    e.functionName == first.functionName && e.fromFilter && e.skb == first.skb
  }

  /** The events of one identity, split before every event that starts again. */
  function Chunks(events: seq<TraceEvent>): (chunks: seq<Chunk>)
    ensures events != [] ==> chunks != []
  {
    if events == [] then []
    else
      var last := |events| - 1;
      var before := Chunks(events[..last]);
      if before == [] || StartsAgain(before[|before| - 1][0], events[last]) then before + [[events[last]]]
      else before[|before| - 1 := before[|before| - 1] + [events[last]]]
  }

  function Joined(chunks: seq<Chunk>): seq<TraceEvent> {
    if chunks == [] then [] else Joined(chunks[..|chunks| - 1]) + chunks[|chunks| - 1]
  }

  function Functions(chunk: seq<TraceEvent>): (f: seq<string>)
    ensures |f| == |chunk|
  {
    seq(|chunk|, i requires 0 <= i < |chunk| => chunk[i].functionName)
  }

  /** What a route says of the events of one pass. */
  function RouteOf(c: Chunk): Route {
    var last := c[|c| - 1];
    var cut := if |c| > MAX_ROUTE_HOPS then MAX_ROUTE_HOPS else |c|;
    Route(Functions(c)[..cut], c[0].seqNo, last.seqNo, c[0].handle, last.handle, c[0].skb, |c| > MAX_ROUTE_HOPS)
  }

  function RoutesOf(chunks: seq<Chunk>): (r: seq<Route>)
    ensures |r| == |chunks| && forall i :: 0 <= i < |r| ==> r[i] == RouteOf(chunks[i])
  {
    seq(|chunks|, i requires 0 <= i < |chunks| => RouteOf(chunks[i]))
  }

  function EventsOf(events: seq<TraceEvent>, identity: string): seq<TraceEvent> {
    if events == [] then []
    else
      var last := |events| - 1;
      EventsOf(events[..last], identity) + if Identity(events[last]) == identity then [events[last]] else []
  }

  /** The chunks are the events in order: nothing is lost, added or moved. */
  lemma {:induction false} ChunksAreTheEvents(events: seq<TraceEvent>)
    ensures Joined(Chunks(events)) == events
  {
    if events != [] {
      var last := |events| - 1;
      var before, after := Chunks(events[..last]), Chunks(events);
      ChunksAreTheEvents(events[..last]);
      assert events == events[..last] + [events[last]];
      if before == [] || StartsAgain(before[|before| - 1][0], events[last]) {
        assert after[..|after| - 1] == before;
      } else {
        assert after[..|after| - 1] == before[..|before| - 1];
        assert Joined(after) == Joined(before[..|before| - 1]) + (before[|before| - 1] + [events[last]]);
      }
    }
  }

  /** Every chunk but the first starts again after the one before it, and nothing inside a chunk does. */
  ghost predicate SplitAtRestarts(chunks: seq<Chunk>) {
    && (forall i :: 0 < i < |chunks| ==> StartsAgain(chunks[i - 1][0], chunks[i][0]))
    && (forall i, j :: 0 <= i < |chunks| && 0 < j < |chunks[i]| ==> !StartsAgain(chunks[i][0], chunks[i][j]))
  }

  lemma {:induction false} ChunksSplitAtRestarts(events: seq<TraceEvent>)
    ensures SplitAtRestarts(Chunks(events))
  {
    if events != [] {
      var last := |events| - 1;
      var e, before, after := events[last], Chunks(events[..last]), Chunks(events);
      ChunksSplitAtRestarts(events[..last]);
      if before == [] || StartsAgain(before[|before| - 1][0], e) {
        assert after == before + [[e]];
      } else {
        var grown := before[|before| - 1] + [e];
        assert after == before[|before| - 1 := grown];
        assert grown[0] == before[|before| - 1][0];
      }
    }
  }

  lemma ObserveIsAppend(c: Chunk, e: TraceEvent)
    ensures RouteOf(c + [e]) == Observe(RouteOf(c), e)
  {
    var f := Functions(c);
    assert Functions(c + [e]) == f + [e.functionName];
    if |c| < MAX_ROUTE_HOPS {
      assert (f + [e.functionName])[..|c| + 1] == f[..|c|] + [e.functionName];
    } else {
      assert (f + [e.functionName])[..MAX_ROUTE_HOPS] == f[..MAX_ROUTE_HOPS];
    }
  }

  // ----- the streaming step -----

  /** The bounded map's entries, the routes already closed, and what has happened so far. */
  datatype RouteState = RouteState(
    live: Entries<string, Route>, completed: seq<(string, Route)>, evictions: nat, started: nat)

  const NO_ROUTES := RouteState([], [], 0, 0)

  predicate Restarts(r: Route, e: TraceEvent) {
    r.functions != [] && r.functions[0] == e.functionName && e.fromFilter && e.skb == r.firstSkb
  }

  function StepRoutes(s: RouteState, e: TraceEvent, capacity: nat): RouteState {
    var id := Identity(e);
    var found := Lookup(s.live, id);
    var restarting := found.None? || Restarts(found.value, e);
    var route := if restarting then NewRoute(e) else Observe(found.value, e);
    var others := Without(s.live, id);
    RouteState(
      Trimmed(others + [(id, route)], capacity),
      if found.Some? && restarting then s.completed + [(id, found.value)] else s.completed,
      s.evictions + if |others| == capacity then 1 else 0,
      s.started + if restarting then 1 else 0)
  }

  function RunRoutes(events: seq<TraceEvent>, capacity: nat): RouteState {
    if events == [] then NO_ROUTES
    else StepRoutes(RunRoutes(events[..|events| - 1], capacity), events[|events| - 1], capacity)
  }

  method ObserveEvent(
    routes: Bounded<string, Route>, completed: seq<(string, Route)>, e: TraceEvent, ghost s: RouteState)
    returns (completed': seq<(string, Route)>)
    requires routes.Valid() && routes.generation < U64_MAX
    requires s.live == routes.Contents() && s.completed == completed && s.evictions == routes.evictions
    modifies routes
    ensures routes.Valid() && routes.generation == old(routes.generation) + 1
    ensures var s' := StepRoutes(s, e, routes.capacity);
            s'.live == routes.Contents() && s'.completed == completed' && s'.evictions == routes.evictions
  {
    var id := Identity(e);
    completed' := completed;
    var found := routes.Remove(id);
    var route: Route;
    if found.Some? && found.value.functions != [] && found.value.functions[0] == e.functionName {
      if e.fromFilter && e.skb == found.value.firstSkb {
        completed' := completed + [(id, found.value)];
        route := NewRoute(e);
      } else {
        route := Observe(found.value, e);
      }
    } else if found.Some? {
      route := Observe(found.value, e);
    } else {
      route := NewRoute(e);
    }
    WithoutTwice(s.live, id);
    var previous := routes.Insert(id, route);
  }

  lemma {:induction false} WithoutTwice<K, V>(entries: Entries<K, V>, key: K)
    ensures Without(Without(entries, key), key) == Without(entries, key)
  {
    if entries != [] {
      WithoutTwice(entries[1..], key);
      WithoutCons(entries[0], Without(entries[1..], key), key);
    }
  }

  // ----- streaming against batch -----

  predicate DistinctKeys<V>(entries: Entries<string, V>) {
    entries == [] || (Lookup(entries[1..], entries[0].0).None? && DistinctKeys(entries[1..]))
  }

  lemma {:induction false} WithoutFacts<V>(entries: Entries<string, V>, key: string, k: string)
    requires DistinctKeys(entries)
    ensures DistinctKeys(Without(entries, key))
    ensures |Without(entries, key)| == |entries| - if Lookup(entries, key).Some? then 1 else 0
    ensures Lookup(Without(entries, key), k) == if k == key then None else Lookup(entries, k)
  {
    if entries != [] {
      var rest := Without(entries[1..], key);
      WithoutFacts(entries[1..], key, k);
      WithoutFacts(entries[1..], key, entries[0].0);
      if entries[0].0 != key {
        assert ([entries[0]] + rest)[1..] == rest;
      }
    }
  }

  lemma {:induction false} AppendFacts<V>(entries: Entries<string, V>, entry: (string, V), k: string)
    requires DistinctKeys(entries) && Lookup(entries, entry.0).None?
    ensures DistinctKeys(entries + [entry])
    ensures Lookup(entries + [entry], k) == if k == entry.0 then Some(entry.1) else Lookup(entries, k)
  {
    var grown := entries + [entry];
    if entries == [] {
      assert grown == [entry] && [entry][1..] == [];
    } else {
      assert grown[1..] == entries[1..] + [entry];
      AppendFacts(entries[1..], entry, k);
      AppendFacts(entries[1..], entry, entries[0].0);
    }
  }

  /** Whatever the capacity: every route begun is closed, still live, or evicted. */
  lemma {:induction false} RoutesBalance(events: seq<TraceEvent>, capacity: nat)
    requires capacity > 0
    ensures var s := RunRoutes(events, capacity);
            && s.started == |s.completed| + |s.live| + s.evictions
            && |s.live| <= capacity && DistinctKeys(s.live)
  {
    if events != [] {
      var s, e := RunRoutes(events[..|events| - 1], capacity), events[|events| - 1];
      var id := Identity(e);
      var s' := StepRoutes(s, e, capacity);
      var others := Without(s.live, id);
      RoutesBalance(events[..|events| - 1], capacity);
      WithoutFacts(s.live, id, id);
      forall route: Route ensures DistinctKeys(others + [(id, route)]) {
        AppendFacts(others, (id, route), id);
      }
    }
  }

  function Identities(events: seq<TraceEvent>): set<string> {
    if events == [] then {} else Identities(events[..|events| - 1]) + {Identity(events[|events| - 1])}
  }

  function ClosedFor(completed: seq<(string, Route)>, identity: string): seq<Route> {
    if completed == [] then []
    else
      var last := completed[|completed| - 1];
      ClosedFor(completed[..|completed| - 1], identity) + if last.0 == identity then [last.1] else []
  }

  function Optional<T>(o: Option<T>): seq<T> {
    if o.None? then [] else [o.value]
  }

  /** The route a step leaves live for the event's identity. */
  function NextRoute(s: RouteState, e: TraceEvent): Route {
    var found := Lookup(s.live, Identity(e));
    if found.None? || Restarts(found.value, e) then NewRoute(e) else Observe(found.value, e)
  }

  lemma StepLookup(s: RouteState, e: TraceEvent, capacity: nat, k: string)
    requires DistinctKeys(s.live) && |Without(s.live, Identity(e))| < capacity
    ensures Lookup(StepRoutes(s, e, capacity).live, k)
      == if k == Identity(e) then Some(NextRoute(s, e)) else Lookup(s.live, k)
    ensures |StepRoutes(s, e, capacity).live| == |Without(s.live, Identity(e))| + 1
  {
    WithoutFacts(s.live, Identity(e), Identity(e));
    WithoutFacts(s.live, Identity(e), k);
    AppendFacts(Without(s.live, Identity(e)), (Identity(e), NextRoute(s, e)), k);
  }

  /** With room for every identity nothing is evicted, and the live entries are the identities seen. */
  lemma {:induction false} RoomForAll(events: seq<TraceEvent>, capacity: nat)
    requires capacity > 0 && |Identities(events)| <= capacity
    ensures var s := RunRoutes(events, capacity);
            && s.evictions == 0 && |s.live| == |Identities(events)|
            && forall k :: Lookup(s.live, k).Some? <==> k in Identities(events)
  {
    if events != [] {
      var before, e := events[..|events| - 1], events[|events| - 1];
      var s, id := RunRoutes(before, capacity), Identity(e);
      assert Identities(before) <= Identities(events);
      SubsetIsSmaller(Identities(before), Identities(events));
      RoomForAll(before, capacity);
      RoutesBalance(before, capacity);
      WithoutFacts(s.live, id, id);
      forall k ensures Lookup(StepRoutes(s, e, capacity).live, k).Some? <==> k in Identities(events) {
        StepLookup(s, e, capacity, k);
      }
      StepLookup(s, e, capacity, id);
    }
  }

  lemma SubsetIsSmaller<T>(a: set<T>, b: set<T>)
    requires a <= b
    ensures |a| <= |b|
  {
    assert b == a + (b - a);
  }

  lemma {:induction false} UnseenHasNoEvents(events: seq<TraceEvent>, identity: string)
    requires identity !in Identities(events)
    ensures EventsOf(events, identity) == []
  {
    if events != [] {
      UnseenHasNoEvents(events[..|events| - 1], identity);
    }
  }

  lemma RoutesAppend(chunks: seq<Chunk>, c: Chunk)
    ensures RoutesOf(chunks + [c]) == RoutesOf(chunks) + [RouteOf(c)]
  {
  }

  lemma FirstChunk(e: TraceEvent)
    ensures RouteOf([e]) == NewRoute(e) && Chunks([e]) == [[e]]
  {
    assert [e][..0] == [];
    assert Functions([e])[..1] == [e.functionName];
  }

  /** One event of the identity, on its closed routes and its live one. */
  lemma ChunkStep(seen: seq<TraceEvent>, e: TraceEvent, closed: seq<Route>, live: Option<Route>)
    requires closed + Optional(live) == RoutesOf(Chunks(seen)) && (live.None? ==> seen == [])
    ensures RoutesOf(Chunks(seen + [e])) ==
      if live.None? then closed + [NewRoute(e)]
      else if Restarts(live.value, e) then closed + [live.value] + [NewRoute(e)]
      else closed + [Observe(live.value, e)]
  {
    FirstChunk(e);
    if live.None? {
      assert seen + [e] == [e];
      assert RoutesOf([[e]]) == [NewRoute(e)];
    } else {
      LiveChunkStep(seen, e, closed, live.value);
    }
  }

  lemma LiveChunkStep(seen: seq<TraceEvent>, e: TraceEvent, closed: seq<Route>, live: Route)
    requires closed + [live] == RoutesOf(Chunks(seen))
    ensures RoutesOf(Chunks(seen + [e]))
      == closed + if Restarts(live, e) then [live, NewRoute(e)] else [Observe(live, e)]
  {
    var chunks := Chunks(seen);
    var rest, last := chunks[..|chunks| - 1], chunks[|chunks| - 1];
    FirstChunk(e);
    assert chunks == rest + [last];
    RoutesAppend(rest, last);
    assert live == (closed + [live])[|closed|] == RouteOf(last);
    assert closed == RoutesOf(rest);
    assert (seen + [e])[..|seen|] == seen;
    if StartsAgain(last[0], e) {
      assert Chunks(seen + [e]) == chunks + [[e]];
      RoutesAppend(chunks, [e]);
    } else {
      assert Chunks(seen + [e]) == rest + [last + [e]];
      RoutesAppend(rest, last + [e]);
      ObserveIsAppend(last, e);
    }
  }

  lemma ClosedAppend(completed: seq<(string, Route)>, id: string, route: Route, identity: string)
    ensures ClosedFor(completed + [(id, route)], identity)
         == ClosedFor(completed, identity) + if id == identity then [route] else []
  {
    assert (completed + [(id, route)])[..|completed|] == completed;
  }

  /** What a step closes: the live route of the event's identity, if the event starts again. */
  lemma StepCloses(s: RouteState, e: TraceEvent, capacity: nat, identity: string)
    ensures ClosedFor(StepRoutes(s, e, capacity).completed, identity) ==
      var found := Lookup(s.live, Identity(e));
      if identity == Identity(e) && found.Some? && Restarts(found.value, e)
      then ClosedFor(s.completed, identity) + [found.value] else ClosedFor(s.completed, identity)
  {
    var found := Lookup(s.live, Identity(e));
    if found.Some? && Restarts(found.value, e) {
      ClosedAppend(s.completed, Identity(e), found.value, identity);
    }
  }

  lemma StepIsBatch(s: RouteState, e: TraceEvent, capacity: nat, identity: string, seen: seq<TraceEvent>)
    requires DistinctKeys(s.live) && |Without(s.live, Identity(e))| < capacity
    requires ClosedFor(s.completed, identity) + Optional(Lookup(s.live, identity)) == RoutesOf(Chunks(seen))
    requires Lookup(s.live, identity).None? ==> seen == []
    ensures ClosedFor(StepRoutes(s, e, capacity).completed, identity)
          + Optional(Lookup(StepRoutes(s, e, capacity).live, identity))
         == RoutesOf(Chunks(if Identity(e) == identity then seen + [e] else seen))
  {
    StepLookup(s, e, capacity, identity);
    StepCloses(s, e, capacity, identity);
    if Identity(e) == identity {
      ChunkStep(seen, e, ClosedFor(s.completed, identity), Lookup(s.live, identity));
    }
  }

  /** One identity's routes, closed and live, are the routes of its chunks. */
  lemma {:induction false} StreamingIsBatch(events: seq<TraceEvent>, capacity: nat, identity: string)
    requires capacity > 0 && |Identities(events)| <= capacity
    ensures var s := RunRoutes(events, capacity);
            ClosedFor(s.completed, identity) + Optional(Lookup(s.live, identity))
            == RoutesOf(Chunks(EventsOf(events, identity)))
  {
    if events != [] {
      var before, e := events[..|events| - 1], events[|events| - 1];
      var s, id := RunRoutes(before, capacity), Identity(e);
      assert Identities(before) <= Identities(events);
      SubsetIsSmaller(Identities(before), Identities(events));
      StreamingIsBatch(before, capacity, identity);
      RoomForAll(before, capacity);
      RoutesBalance(before, capacity);
      WithoutFacts(s.live, id, id);
      if identity !in Identities(before) {
        UnseenHasNoEvents(before, identity);
      }
      assert Identities(events) == Identities(before) + {id};
      assert |Without(s.live, id)| < capacity;
      assert EventsOf(before, identity) + [] == EventsOf(before, identity);
      StepIsBatch(s, e, capacity, identity, EventsOf(before, identity));
    }
  }
}
