/** The state Arc's control plane keeps, and what each of its operations does to it. */
module ArcState {
  import opened Common
  import FilterSyntax
  import FlowKeys
  import Correlation

  const LEASE_DURATION_NS: nat := 30_000_000_000
  const MAX_MISSION_SENSORS: nat := 32
  const MAX_MISSION_DURATION_SECONDS: nat := 300
  const MAX_MISSION_EVENTS: nat := 1_000_000
  const MAX_ARTIFACT_BYTES: nat := 67_108_864
  const MAX_CORRELATION_WINDOW_NS: nat := 5_000_000_000

  type Bytes = seq<nat>

  datatype SensorState = Ready | Busy | EvidenceReceived | Degraded

  datatype Registration = Registration(sensorId: string, displayName: string, kernelRelease: string,
                                       capabilities: seq<string>, clockUncertainty: u64)

  datatype SensorView = SensorView(
    registration: Registration, lastSeen: u64, state: SensorState, activeMission: Option<string>)

  datatype CapturePlan = CapturePlan(durationSeconds: nat, maxEvents: nat, maxArtifactBytes: nat, filter: string,
                                     probes: seq<string>, window: u64)

  datatype MissionRequest = MissionRequest(missionId: string, name: string, targets: seq<string>, plan: CapturePlan)

  datatype AssignmentStatus = Pending | Leased | Submitted

  datatype MissionStatus = Draft | Armed | Capturing | Complete | Partial

  datatype Manifest = Manifest(missionId: string, sensorId: string, contentHash: string, complete: bool, events: nat)

  datatype Mission = Mission(
    missionId: string, name: string, targets: seq<string>, status: MissionStatus, plan: CapturePlan, created: u64,
    assignments: map<string, AssignmentStatus>, artifacts: map<string, Manifest>,
    correlations: seq<Correlation.CorrelationEdge>)

  datatype Assignment = Assignment(
    missionId: string, sensorId: string, generation: u64, plan: CapturePlan, expires: u64)

  datatype StoredArtifact = StoredArtifact(manifest: Manifest, trace: Correlation.SensorTrace)

  /** A mission and one of its sensors. */
  datatype Slot = Slot(mission: string, sensor: string)

  datatype State = State(
    sensors: map<string, SensorView>, missions: map<string, Mission>, artifacts: map<Slot, StoredArtifact>,
    leases: map<Slot, Assignment>, generation: u64, selected: Option<string>)

  datatype ArcError =
    | Invalid | SensorNotFound | MissionNotFound | MissionExists | InvalidTransition | SensorNotTarget
    | AssignmentNotLeased | ArtifactTooLarge | NotReplayable | ArtifactEventLimit | ArtifactConflict

  datatype ReplayedSummary = ReplayedSummary(complete: bool, events: nat)

  /** Replaying an artifact, hashing it, reading its trace, and correlating the traces of a mission. */
  datatype Services = Services(
    replay: Bytes -> Option<ReplayedSummary>, hash: Bytes -> string,
    parse: (string, u64, Bytes) -> Option<Correlation.SensorTrace>,
    correlate: (seq<string>, map<string, Correlation.SensorTrace>, u64) -> seq<Correlation.CorrelationEdge>)

  // ----- validation -----

  predicate IsIdentifier(s: string) {
    && 0 < |s| <= 64
    && forall i :: 0 <= i < |s| ==>
      'a' <= s[i] <= 'z' || 'A' <= s[i] <= 'Z' || '0' <= s[i] <= '9' || s[i] in {'.', '_', ':', '-'}
  }

  predicate ValidRegistration(r: Registration) {
    && IsIdentifier(r.sensorId)
    && !FilterSyntax.Blank(r.displayName) && Utf8Length(r.displayName) <= 80
    && !FilterSyntax.Blank(r.kernelRelease) && Utf8Length(r.kernelRelease) <= 160
    && |r.capabilities| <= 128
  }

  predicate ValidPlan(p: CapturePlan) {
    && 0 < p.durationSeconds <= MAX_MISSION_DURATION_SECONDS && 0 < p.maxEvents <= MAX_MISSION_EVENTS
    && 0 < p.maxArtifactBytes <= MAX_ARTIFACT_BYTES && !FilterSyntax.Blank(p.filter)
    && 0 < p.window <= MAX_CORRELATION_WINDOW_NS && |p.probes| <= 64
  }

  predicate NoDuplicates(s: seq<string>) {
    forall i, j :: 0 <= i < j < |s| ==> s[i] != s[j]
  }

  predicate ValidRequest(r: MissionRequest) {
    && IsIdentifier(r.missionId)
    && !FilterSyntax.Blank(r.name) && Utf8Length(r.name) <= 120
    && 0 < |r.targets| <= MAX_MISSION_SENSORS && NoDuplicates(r.targets)
    && (forall i :: 0 <= i < |r.targets| ==> IsIdentifier(r.targets[i]))
    && ValidPlan(r.plan)
  }

  // ----- what the operations do -----

  function Registered(s: State, r: Registration, now: u64): State {
    var known := r.sensorId in s.sensors;
    s.(sensors := s.sensors[r.sensorId := SensorView(
      r, now,
      if known then s.sensors[r.sensorId].state else Ready,
      if known then s.sensors[r.sensorId].activeMission else None)])
  }

  function Created(s: State, r: MissionRequest, now: u64): State {
    s.(missions := s.missions[r.missionId := Mission(
      r.missionId, r.name, r.targets, Draft, r.plan, now, map[], map[], [])],
       selected := Some(r.missionId))
  }

  function ArmedMission(s: State, id: string): State
    requires id in s.missions
  {
    var m := s.missions[id];
    s.(missions := s.missions[id := m.(status := Armed, assignments := map t | t in m.targets :: Pending)])
  }

  predicate Waiting(m: Mission, sensor: string) {
    sensor in m.assignments && m.assignments[sensor] != Submitted
  }

  /** The mission a sensor works on next: the first, in the order of names, that waits for it. */
  ghost predicate IsNextMission(s: State, sensor: string, id: string) {
    && id in s.missions && Waiting(s.missions[id], sensor)
    && forall other :: other in s.missions && Waiting(s.missions[other], sensor) ==> FlowKeys.StringLeq(id, other)
  }

  predicate IsLive(s: State, slot: Slot, now: u64) {
    slot in s.leases && s.leases[slot].expires > now
  }

  /** A live lease is renewed in nothing but the sensor's last contact. */
  function Seen(s: State, sensor: string, now: u64): State
    requires sensor in s.sensors
  {
    s.(sensors := s.sensors[sensor := s.sensors[sensor].(lastSeen := now)])
  }

  function NewLease(s: State, slot: Slot, now: u64): Assignment
    requires slot.mission in s.missions
  {
    Assignment(slot.mission, slot.sensor, SatAdd(s.generation, 1), s.missions[slot.mission].plan,
      SatAdd(now, LEASE_DURATION_NS))
  }

  function LeasedTo(s: State, slot: Slot, now: u64): State
    requires slot.mission in s.missions && slot.sensor in s.sensors
  {
    var m, v := s.missions[slot.mission], s.sensors[slot.sensor];
    s.(missions := s.missions[slot.mission := m.(
      assignments := m.assignments[slot.sensor := Leased], status := Capturing)],
       sensors := s.sensors[slot.sensor := v.(state := Busy, activeMission := Some(slot.mission), lastSeen := now)],
       leases := s.leases[slot := NewLease(s, slot, now)],
       generation := SatAdd(s.generation, 1))
  }

  /** What becomes of a submission. */
  datatype Decision = Refuse(error: ArcError) | Known(manifest: Manifest) | Store(artifact: StoredArtifact)

  function Decide(s: State, slot: Slot, bytes: Bytes, services: Services): Decision {
    if !IsIdentifier(slot.mission) || !IsIdentifier(slot.sensor) then Refuse(Invalid)
    else if slot.mission !in s.missions then Refuse(MissionNotFound)
    else
      var m := s.missions[slot.mission];
      if slot.sensor !in m.targets then Refuse(SensorNotTarget)
      else if slot.sensor !in m.assignments || m.assignments[slot.sensor] == Pending then Refuse(AssignmentNotLeased)
      else if |bytes| > m.plan.maxArtifactBytes then Refuse(ArtifactTooLarge)
      else
        var summary := services.replay(bytes);
        if summary.None? then Refuse(NotReplayable)
        else if summary.value.events > m.plan.maxEvents then Refuse(ArtifactEventLimit)
        else
          var manifest := Manifest(
            slot.mission, slot.sensor, services.hash(bytes), summary.value.complete, summary.value.events);
          if slot in s.artifacts then
            if s.artifacts[slot].manifest.contentHash == manifest.contentHash then Known(s.artifacts[slot].manifest)
            else Refuse(ArtifactConflict)
          else if slot.sensor !in s.sensors then Refuse(SensorNotFound)
          else
            var trace := services.parse(slot.sensor, s.sensors[slot.sensor].registration.clockUncertainty, bytes);
            if trace.None? then Refuse(NotReplayable) else Store(StoredArtifact(manifest, trace.value))
  }

  /** What the sender is told. */
  function Answer(d: Decision): Result<Manifest, ArcError> {
    match d
    case Refuse(error) => Err(error)
    case Known(manifest) => Ok(manifest)
    case Store(artifact) => Ok(artifact.manifest)
  }

  /** The checks an upload must pass before the content is compared with what is stored. */
  predicate Submittable(s: State, slot: Slot, bytes: Bytes, services: Services) {
    && IsIdentifier(slot.mission) && IsIdentifier(slot.sensor) && slot.mission in s.missions
    && var m := s.missions[slot.mission];
       && slot.sensor in m.targets && slot.sensor in m.assignments && m.assignments[slot.sensor] != Pending
       && PassesLimits(m.plan, bytes, services)
  }

  /** Small enough, replayable, and with few enough events. */
  predicate PassesLimits(plan: CapturePlan, bytes: Bytes, services: Services) {
    && |bytes| <= plan.maxArtifactBytes && services.replay(bytes).Some?
    && services.replay(bytes).value.events <= plan.maxEvents
  }

  /** What an artifact says of itself. */
  function ManifestOf(slot: Slot, bytes: Bytes, services: Services): Manifest {
    var summary := services.replay(bytes);
    Manifest(slot.mission, slot.sensor, services.hash(bytes), summary.Some? && summary.value.complete,
      if summary.Some? then summary.value.events else 0)
  }

  function TracesOf(artifacts: map<Slot, StoredArtifact>, mission: string): map<string, Correlation.SensorTrace> {
    map slot | slot in artifacts && slot.mission == mission :: slot.sensor := artifacts[slot].trace
  }

  /** Edges between neighbouring targets, each saying what correlating the two traces may say. */
  ghost predicate Correlates(
    edges: seq<Correlation.CorrelationEdge>, targets: seq<string>, traces: map<string, Correlation.SensorTrace>,
    window: u64)
  {
    && |edges| == (if |targets| == 0 then 0 else |targets| - 1)
    && forall k :: 0 <= k < |edges| ==> Correlation.EdgeClaims(edges[k], traces, targets[k], targets[k + 1], window)
  }

  /** Correlating gives what `CorrelateAdjacent` is proved to give. */
  ghost predicate CorrelatesSoundly(services: Services) {
    forall targets: seq<string>, traces: map<string, Correlation.SensorTrace>, window: u64 ::
      Correlates(services.correlate(targets, traces, window), targets, traces, window)
  }

  /** The correlations of a mission, computed from all its artifacts with the new one. */
  function Recorrelated(
    s: State, slot: Slot, artifact: StoredArtifact, services: Services): seq<Correlation.CorrelationEdge>
    requires slot.mission in s.missions
  {
    var m := s.missions[slot.mission];
    services.correlate(m.targets, TracesOf(s.artifacts[slot := artifact], slot.mission), m.plan.window)
  }

  predicate AllSubmitted(m: Mission) {
    forall t :: t in m.targets ==> t in m.assignments && m.assignments[t] == Submitted
  }

  predicate AllComplete(artifacts: map<string, Manifest>) {
    forall t :: t in artifacts ==> artifacts[t].complete
  }

  function WithArtifact(
    m: Mission, sensor: string, manifest: Manifest, edges: seq<Correlation.CorrelationEdge>): Mission
  {
    var m' := m.(
      assignments := m.assignments[sensor := Submitted], artifacts := m.artifacts[sensor := manifest],
        correlations := edges);
    if AllSubmitted(m') then m'.(status := if AllComplete(m'.artifacts) then Complete else Partial) else m'
  }

  function Stored(
    s: State, slot: Slot, artifact: StoredArtifact, edges: seq<Correlation.CorrelationEdge>, now: u64): State
    requires slot.mission in s.missions && slot.sensor in s.sensors
  {
    s.(artifacts := s.artifacts[slot := artifact],
       missions := s.missions[slot.mission := WithArtifact(
         s.missions[slot.mission], slot.sensor, artifact.manifest, edges)],
       sensors := s.sensors[slot.sensor := s.sensors[slot.sensor].(
         state := if artifact.manifest.complete then EvidenceReceived else Degraded,
         activeMission := Some(slot.mission), lastSeen := now)])
  }
}
