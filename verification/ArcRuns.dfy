/** What holds of Arc's state after any run of operations, and what no operation changes. */
module ArcRuns {
  import opened Common
  import opened ArcState
  import Correlation

  // ----- the invariant -----

  /** The status says what the assignments and artifacts say. */
  ghost predicate StatusFits(m: Mission) {
    && (m.status == Draft <==> m.assignments == map[])
    && (m.status == Armed ==> forall t :: t in m.assignments ==> m.assignments[t] == Pending)
    && (AllSubmitted(m) <==> m.status == Complete || m.status == Partial)
    && (m.status == Complete ==> AllComplete(m.artifacts))
    && (m.status == Partial ==> !AllComplete(m.artifacts))
  }

  /** One mission on its own: its targets, and assignments that cover exactly those once it is armed. */
  ghost predicate MissionFits(m: Mission, id: string) {
    && m.missionId == id && m.targets != [] && NoDuplicates(m.targets)
    && (m.status != Draft ==> forall t :: t in m.assignments <==> t in m.targets)
    && (forall t :: t in m.artifacts <==> t in m.assignments && m.assignments[t] == Submitted)
    && StatusFits(m)
  }

  ghost predicate MissionOk(s: State, id: string) {
    id in s.missions ==>
      && MissionFits(s.missions[id], id)
      && (forall t :: t in s.missions[id].targets ==> t in s.sensors)
  }

  /** An artifact is stored exactly where the mission lists its manifest. */
  ghost predicate ArtifactFits(s: State, slot: Slot) {
    if slot.mission in s.missions && slot.sensor in s.missions[slot.mission].artifacts
    then slot in s.artifacts && s.artifacts[slot].manifest == s.missions[slot.mission].artifacts[slot.sensor]
    else slot !in s.artifacts
  }

  /** A lease stands where an assignment is leased or submitted, with a generation already issued. */
  ghost predicate LeaseFits(s: State, slot: Slot) {
    && (slot in s.leases <==>
          && slot.mission in s.missions && slot.sensor in s.missions[slot.mission].assignments
          && s.missions[slot.mission].assignments[slot.sensor] != Pending)
    && (slot in s.leases ==>
          && s.leases[slot].missionId == slot.mission && s.leases[slot].sensorId == slot.sensor
          && s.leases[slot].plan == s.missions[slot.mission].plan
          && s.leases[slot].generation <= s.generation)
  }

  ghost predicate SlotOk(s: State, slot: Slot) {
    ArtifactFits(s, slot) && LeaseFits(s, slot)
  }

  ghost predicate Invariant(s: State) {
    && (forall id :: MissionOk(s, id))
    && (forall slot :: SlotOk(s, slot))
  }

  // ----- operations -----

  datatype Operation =
    | Register(registration: Registration, now: u64)
    | Create(request: MissionRequest, now: u64)
    | Arm(mission: string)
    | Next(sensor: string, now: u64)
    | Submit(slot: Slot, bytes: Bytes, now: u64)

  /** The state an operation may leave; an operation that fails leaves everything as it was. */
  ghost predicate Steps(s: State, op: Operation, s': State, services: Services) {
    match op
    case Register(r, now) =>
      s' == if ValidRegistration(r) then Registered(s, r, now) else s
    case Create(r, now) =>
      s' == if ValidRequest(r) && r.missionId !in s.missions && (forall t :: t in r.targets ==> t in s.sensors)
            then Created(s, r, now) else s
    case Arm(id) =>
      s' == if IsIdentifier(id) && id in s.missions && s.missions[id].status == Draft then ArmedMission(s, id) else s
    case Next(sensor, now) =>
      if !IsIdentifier(sensor) || sensor !in s.sensors || forall id :: id in s.missions ==>
        !Waiting(s.missions[id], sensor) then s' == s
      else exists id ::
        && IsNextMission(s, sensor, id)
        && s' == if IsLive(s, Slot(id, sensor), now) then Seen(s, sensor, now) else LeasedTo(s, Slot(id, sensor), now)
    case Submit(slot, bytes, now) =>
      var d := Decide(s, slot, bytes, services);
      s' == if d.Store? then Stored(s, slot, d.artifact, Recorrelated(s, slot, d.artifact, services), now) else s
  }

  // ----- one mission at a time -----

  lemma CreatedFits(r: MissionRequest, now: u64)
    requires ValidRequest(r)
    ensures MissionFits(Mission(r.missionId, r.name, r.targets, Draft, r.plan, now, map[], map[], []), r.missionId)
  {
    assert r.targets[0] in r.targets;
  }

  lemma ArmedFits(m: Mission, id: string)
    requires MissionFits(m, id) && m.status == Draft
    ensures MissionFits(m.(status := Armed, assignments := map t | t in m.targets :: Pending), id)
  {
    var m' := m.(status := Armed, assignments := map t | t in m.targets :: Pending);
    assert m.targets[0] in m.targets;
    assert m'.assignments[m.targets[0]] == Pending;
  }

  lemma LeasedFits(m: Mission, id: string, sensor: string)
    requires MissionFits(m, id) && Waiting(m, sensor)
    ensures MissionFits(m.(assignments := m.assignments[sensor := Leased], status := Capturing), id)
  {
    var m' := m.(assignments := m.assignments[sensor := Leased], status := Capturing);
    assert m'.assignments[sensor] == Leased;
    assert sensor in m'.targets && !AllSubmitted(m');
  }

  lemma SubmittedFits(
    m: Mission, id: string, sensor: string, manifest: Manifest, edges: seq<Correlation.CorrelationEdge>)
    requires MissionFits(m, id) && sensor in m.assignments && m.assignments[sensor] == Leased
    ensures MissionFits(WithArtifact(m, sensor, manifest, edges), id)
  {
    assert sensor in m.targets && !AllSubmitted(m) && m.status == Capturing;
    assert WithArtifact(m, sensor, manifest, edges).assignments[sensor] == Submitted;
  }

  // ----- the rest of the state -----

  lemma OtherMission(s: State, s': State, id: string)
    requires MissionOk(s, id) && s.sensors.Keys <= s'.sensors.Keys
    requires id in s'.missions ==> id in s.missions && s'.missions[id] == s.missions[id]
    ensures MissionOk(s', id)
  {
  }

  lemma OtherSlot(s: State, s': State, slot: Slot)
    requires SlotOk(s, slot) && s.generation <= s'.generation
    requires slot.mission in s'.missions <==> slot.mission in s.missions
    requires slot.mission in s.missions ==>
      var m, m' := s.missions[slot.mission], s'.missions[slot.mission];
      && m'.plan == m.plan
      && (slot.sensor in m'.assignments <==> slot.sensor in m.assignments)
      && (slot.sensor in m.assignments ==> m'.assignments[slot.sensor] == m.assignments[slot.sensor])
      && (slot.sensor in m'.artifacts <==> slot.sensor in m.artifacts)
      && (slot.sensor in m.artifacts ==> m'.artifacts[slot.sensor] == m.artifacts[slot.sensor])
    requires slot in s'.leases <==> slot in s.leases
    requires slot in s.leases ==> s'.leases[slot] == s.leases[slot]
    requires slot in s'.artifacts <==> slot in s.artifacts
    requires slot in s.artifacts ==> s'.artifacts[slot] == s.artifacts[slot]
    ensures SlotOk(s', slot)
  {
  }

  // ----- the invariant is kept -----

  lemma SensorsKeep(s: State, s': State)
    requires Invariant(s) && s.sensors.Keys <= s'.sensors.Keys && s' == s.(sensors := s'.sensors)
    ensures Invariant(s')
  {
    forall id ensures MissionOk(s', id) {
      OtherMission(s, s', id);
    }
    forall slot ensures SlotOk(s', slot) {
      OtherSlot(s, s', slot);
    }
  }

  lemma CreateKeeps(s: State, r: MissionRequest, now: u64)
    requires Invariant(s) && ValidRequest(r) && r.missionId !in s.missions
    requires (forall t :: t in r.targets ==> t in s.sensors)
    ensures Invariant(Created(s, r, now))
  {
    var s' := Created(s, r, now);
    forall id ensures MissionOk(s', id) {
      if id == r.missionId {
        CreatedFits(r, now);
      } else {
        OtherMission(s, s', id);
      }
    }
    forall slot ensures SlotOk(s', slot) {
      assert SlotOk(s, slot);
      if slot.mission != r.missionId {
        OtherSlot(s, s', slot);
      }
    }
  }

  lemma ArmKeeps(s: State, id: string)
    requires Invariant(s) && id in s.missions && s.missions[id].status == Draft
    ensures Invariant(ArmedMission(s, id))
  {
    var s' := ArmedMission(s, id);
    assert MissionOk(s, id);
    forall other ensures MissionOk(s', other) {
      if other == id {
        ArmedFits(s.missions[id], id);
      } else {
        OtherMission(s, s', other);
      }
    }
    forall slot ensures SlotOk(s', slot) {
      assert SlotOk(s, slot);
      if slot.mission != id {
        OtherSlot(s, s', slot);
      }
    }
  }

  lemma LeasedSlotOk(s: State, slot: Slot, now: u64, other: Slot)
    requires SlotOk(s, slot) && SlotOk(s, other) && slot.mission in s.missions && slot.sensor in s.sensors
    requires slot.sensor in s.missions[slot.mission].assignments
    ensures SlotOk(LeasedTo(s, slot, now), other)
  {
    if other != slot {
      OtherSlot(s, LeasedTo(s, slot, now), other);
    }
  }

  lemma LeaseKeeps(s: State, slot: Slot, now: u64)
    requires Invariant(s) && slot.mission in s.missions && Waiting(s.missions[slot.mission], slot.sensor)
    requires slot.sensor in s.sensors
    ensures Invariant(LeasedTo(s, slot, now))
  {
    var s' := LeasedTo(s, slot, now);
    forall id ensures MissionOk(s', id) {
      assert MissionOk(s, id);
      if id == slot.mission {
        LeasedFits(s.missions[id], id, slot.sensor);
      } else {
        OtherMission(s, s', id);
      }
    }
    forall other ensures SlotOk(s', other) {
      assert SlotOk(s, other) && SlotOk(s, slot);
      LeasedSlotOk(s, slot, now, other);
    }
  }

  lemma StoredMissionOk(
    s: State, slot: Slot, artifact: StoredArtifact, edges: seq<Correlation.CorrelationEdge>, now: u64)
    requires MissionOk(s, slot.mission) && slot.mission in s.missions && slot.sensor in s.sensors
    requires slot.sensor in s.missions[slot.mission].assignments
    requires s.missions[slot.mission].assignments[slot.sensor] == Leased
    ensures MissionOk(Stored(s, slot, artifact, edges, now), slot.mission)
  {
    var m' := WithArtifact(s.missions[slot.mission], slot.sensor, artifact.manifest, edges);
    SubmittedFits(s.missions[slot.mission], slot.mission, slot.sensor, artifact.manifest, edges);
    assert slot.sensor in m'.artifacts;
  }

  lemma StoredSlotOk(
    s: State, slot: Slot, artifact: StoredArtifact, edges: seq<Correlation.CorrelationEdge>, now: u64, other: Slot)
    requires SlotOk(s, slot) && SlotOk(s, other) && slot.mission in s.missions && slot.sensor in s.sensors
    requires slot.sensor in s.missions[slot.mission].assignments
    requires s.missions[slot.mission].assignments[slot.sensor] == Leased
    ensures SlotOk(Stored(s, slot, artifact, edges, now), other)
  {
    if other != slot {
      OtherSlot(s, Stored(s, slot, artifact, edges, now), other);
    }
  }

  lemma StoreKeeps(s: State, slot: Slot, artifact: StoredArtifact, edges: seq<Correlation.CorrelationEdge>, now: u64)
    requires Invariant(s) && slot.mission in s.missions && slot.sensor in s.sensors && slot !in s.artifacts
    requires slot.sensor in s.missions[slot.mission].assignments
    requires s.missions[slot.mission].assignments[slot.sensor] != Pending
    ensures Invariant(Stored(s, slot, artifact, edges, now))
  {
    var s' := Stored(s, slot, artifact, edges, now);
    NotYetSubmitted(s, slot);
    forall id ensures MissionOk(s', id) {
      assert MissionOk(s, id);
      if id == slot.mission {
        StoredMissionOk(s, slot, artifact, edges, now);
      } else {
        OtherMission(s, s', id);
      }
    }
    forall other ensures SlotOk(s', other) {
      assert SlotOk(s, other) && SlotOk(s, slot);
      StoredSlotOk(s, slot, artifact, edges, now, other);
    }
  }

  lemma NotYetSubmitted(s: State, slot: Slot)
    requires Invariant(s) && slot.mission in s.missions && slot !in s.artifacts
    requires slot.sensor in s.missions[slot.mission].assignments
    requires s.missions[slot.mission].assignments[slot.sensor] != Pending
    ensures s.missions[slot.mission].assignments[slot.sensor] == Leased
  {
    assert MissionOk(s, slot.mission) && SlotOk(s, slot);
  }

  lemma NextKeeps(s: State, sensor: string, now: u64, s': State, services: Services)
    requires Invariant(s) && Steps(s, Next(sensor, now), s', services) && s' != s
    ensures Invariant(s')
  {
    var id :| IsNextMission(s, sensor, id)
      && s' == if IsLive(s, Slot(id, sensor), now) then Seen(s, sensor, now) else LeasedTo(s, Slot(id, sensor), now);
    if IsLive(s, Slot(id, sensor), now) {
      SensorsKeep(s, s');
    } else {
      LeaseKeeps(s, Slot(id, sensor), now);
    }
  }

  lemma SubmitKeeps(s: State, slot: Slot, bytes: Bytes, now: u64, s': State, services: Services)
    requires Invariant(s) && Steps(s, Submit(slot, bytes, now), s', services) && s' != s
    ensures Invariant(s')
  {
    var d := Decide(s, slot, bytes, services);
    StoreKeeps(s, slot, d.artifact, Recorrelated(s, slot, d.artifact, services), now);
  }

  lemma StepKeepsInvariant(s: State, op: Operation, s': State, services: Services)
    requires Invariant(s) && Steps(s, op, s', services)
    ensures Invariant(s')
  {
    if s' != s {
      match op
      case Register(r, now) => SensorsKeep(s, s');
      case Create(r, now) => CreateKeeps(s, r, now);
      case Arm(id) => ArmKeeps(s, id);
      case Next(sensor, now) => NextKeeps(s, sensor, now, s', services);
      case Submit(slot, bytes, now) => SubmitKeeps(s, slot, bytes, now, s', services);
    }
  }

  // ----- what never changes -----

  predicate Terminal(m: Mission) {
    m.status == Complete || m.status == Partial
  }

  /** A mission keeps its targets and plan, and once it has ended it keeps everything. */
  predicate MissionEvolves(m: Mission, m': Mission) {
    m'.missionId == m.missionId && m'.targets == m.targets && m'.plan == m.plan && (Terminal(m) ==> m' == m)
  }

  ghost predicate MissionsEvolve(s: State, s': State) {
    forall id :: id in s.missions ==> id in s'.missions && MissionEvolves(s.missions[id], s'.missions[id])
  }

  /** An accepted artifact is never replaced. */
  ghost predicate ArtifactsStay(s: State, s': State) {
    forall slot :: slot in s.artifacts ==> slot in s'.artifacts && s'.artifacts[slot] == s.artifacts[slot]
  }

  /** A lease that was not there before has a generation above all that were issued before, until they saturate. */
  ghost predicate LeasesAdvance(s: State, s': State) {
    && s.generation <= s'.generation
    && (forall slot :: slot in s.leases ==> slot in s'.leases)
    && forall slot :: slot in s'.leases ==>
         || (slot in s.leases && s'.leases[slot] == s.leases[slot])
         || s'.leases[slot].generation > s.generation
         || s'.leases[slot].generation == U64_MAX
  }

  ghost predicate Evolves(s: State, s': State) {
    && s.sensors.Keys <= s'.sensors.Keys
    && MissionsEvolve(s, s') && ArtifactsStay(s, s') && LeasesAdvance(s, s')
  }

  lemma EvolvesTwice(a: State, b: State, c: State)
    requires Evolves(a, b) && Evolves(b, c)
    ensures Evolves(a, c)
  {
  }

  lemma SensorsEvolve(s: State, s': State)
    requires s.sensors.Keys <= s'.sensors.Keys && s' == s.(sensors := s'.sensors)
    ensures Evolves(s, s')
  {
  }

  lemma CreateEvolves(s: State, r: MissionRequest, now: u64)
    requires r.missionId !in s.missions
    ensures Evolves(s, Created(s, r, now))
  {
  }

  lemma ArmEvolves(s: State, id: string)
    requires id in s.missions && s.missions[id].status == Draft
    ensures Evolves(s, ArmedMission(s, id))
  {
  }

  lemma LeaseEvolves(s: State, slot: Slot, now: u64)
    requires Invariant(s) && slot.mission in s.missions && Waiting(s.missions[slot.mission], slot.sensor)
    requires slot.sensor in s.sensors
    ensures Evolves(s, LeasedTo(s, slot, now))
  {
    assert MissionOk(s, slot.mission);
    LeaseMissionsEvolve(s, slot, now);
    LeaseAdvances(s, slot, now);
  }

  lemma LeaseMissionsEvolve(s: State, slot: Slot, now: u64)
    requires slot.mission in s.missions && slot.sensor in s.sensors && MissionOk(s, slot.mission)
    requires Waiting(s.missions[slot.mission], slot.sensor)
    ensures MissionsEvolve(s, LeasedTo(s, slot, now))
  {
  }

  lemma LeaseAdvances(s: State, slot: Slot, now: u64)
    requires slot.mission in s.missions && slot.sensor in s.sensors
    ensures LeasesAdvance(s, LeasedTo(s, slot, now))
  {
  }

  lemma StoreEvolves(s: State, slot: Slot, artifact: StoredArtifact, edges: seq<Correlation.CorrelationEdge>, now: u64)
    requires Invariant(s) && slot.mission in s.missions && slot.sensor in s.sensors && slot !in s.artifacts
    requires slot.sensor in s.missions[slot.mission].assignments
    requires s.missions[slot.mission].assignments[slot.sensor] != Pending
    ensures Evolves(s, Stored(s, slot, artifact, edges, now))
  {
    NotYetSubmitted(s, slot);
    assert MissionOk(s, slot.mission);
  }

  lemma NextEvolves(s: State, sensor: string, now: u64, s': State, services: Services)
    requires Invariant(s) && Steps(s, Next(sensor, now), s', services) && s' != s
    ensures Evolves(s, s')
  {
    var id :| IsNextMission(s, sensor, id)
      && s' == if IsLive(s, Slot(id, sensor), now) then Seen(s, sensor, now) else LeasedTo(s, Slot(id, sensor), now);
    if IsLive(s, Slot(id, sensor), now) {
      SensorsEvolve(s, s');
    } else {
      LeaseEvolves(s, Slot(id, sensor), now);
    }
  }

  lemma SubmitEvolves(s: State, slot: Slot, bytes: Bytes, now: u64, s': State, services: Services)
    requires Invariant(s) && Steps(s, Submit(slot, bytes, now), s', services) && s' != s
    ensures Evolves(s, s')
  {
    var d := Decide(s, slot, bytes, services);
    StoreEvolves(s, slot, d.artifact, Recorrelated(s, slot, d.artifact, services), now);
  }

  lemma StepEvolves(s: State, op: Operation, s': State, services: Services)
    requires Invariant(s) && Steps(s, op, s', services)
    ensures Evolves(s, s')
  {
    if s' != s {
      match op
      case Register(r, now) => SensorsEvolve(s, s');
      case Create(r, now) => CreateEvolves(s, r, now);
      case Arm(id) => ArmEvolves(s, id);
      case Next(sensor, now) => NextEvolves(s, sensor, now, s', services);
      case Submit(slot, bytes, now) => SubmitEvolves(s, slot, bytes, now, s', services);
    }
  }

  // ----- correlations are those of the stored traces -----

  /** A mission shows what correlating its stored traces gives, and nothing before its first artifact. */
  ghost predicate CorrelationsFit(s: State, id: string, services: Services) {
    id in s.missions ==>
      var m := s.missions[id];
      m.correlations
      == if m.artifacts == map[] then [] else services.correlate(m.targets, TracesOf(s.artifacts, id), m.plan.window)
  }

  ghost predicate AllCorrelationsFit(s: State, services: Services) {
    forall id :: CorrelationsFit(s, id, services)
  }

  /** Nothing that a mission's correlations are made of changes; a new mission has none. */
  predicate LeavesCorrelations(s: State, s': State, id: string) {
    && s'.artifacts == s.artifacts
    && (id in s'.missions ==>
          var m' := s'.missions[id];
          if id in s.missions then
            var m := s.missions[id];
            && m'.correlations == m.correlations && m'.artifacts == m.artifacts
            && m'.targets == m.targets && m'.plan == m.plan
          else m'.artifacts == map[] && m'.correlations == [])
  }

  lemma StillCorrelates(s: State, s': State, id: string, services: Services)
    requires CorrelationsFit(s, id, services) && LeavesCorrelations(s, s', id)
    ensures CorrelationsFit(s', id, services)
  {
  }

  lemma LeaseLeaves(s: State, slot: Slot, now: u64, id: string)
    requires slot.mission in s.missions && slot.sensor in s.sensors
    ensures LeavesCorrelations(s, LeasedTo(s, slot, now), id)
  {
  }

  lemma NextLeaves(s: State, sensor: string, now: u64, s': State, services: Services, id: string)
    requires Steps(s, Next(sensor, now), s', services) && s' != s
    ensures LeavesCorrelations(s, s', id)
  {
    var next :| IsNextMission(s, sensor, next)
      && s'
      == if IsLive(s, Slot(next, sensor), now) then Seen(s, sensor, now) else LeasedTo(s, Slot(next, sensor), now);
    LeaseLeaves(s, Slot(next, sensor), now, id);
  }

  lemma StepLeaves(s: State, op: Operation, s': State, services: Services, id: string)
    requires Steps(s, op, s', services) && s' != s && !op.Submit?
    ensures LeavesCorrelations(s, s', id)
  {
    if op.Next? {
      NextLeaves(s, op.sensor, op.now, s', services, id);
    }
  }

  lemma OtherTraces(artifacts: map<Slot, StoredArtifact>, slot: Slot, artifact: StoredArtifact, id: string)
    requires id != slot.mission
    ensures TracesOf(artifacts[slot := artifact], id) == TracesOf(artifacts, id)
  {
  }

  lemma StoreCorrelates(s: State, slot: Slot, artifact: StoredArtifact, now: u64, services: Services)
    requires AllCorrelationsFit(s, services) && slot.mission in s.missions && slot.sensor in s.sensors
    ensures AllCorrelationsFit(Stored(s, slot, artifact, Recorrelated(s, slot, artifact, services), now), services)
  {
    var s' := Stored(s, slot, artifact, Recorrelated(s, slot, artifact, services), now);
    forall id
      ensures CorrelationsFit(s', id, services)
    {
      assert CorrelationsFit(s, id, services);
      if id == slot.mission {
        assert slot.sensor in s'.missions[id].artifacts;
      } else {
        OtherTraces(s.artifacts, slot, artifact, id);
      }
    }
  }

  lemma StepCorrelates(s: State, op: Operation, s': State, services: Services)
    requires AllCorrelationsFit(s, services) && Steps(s, op, s', services)
    ensures AllCorrelationsFit(s', services)
  {
    if s' != s {
      if op.Submit? {
        var d := Decide(s, op.slot, op.bytes, services);
        StoreCorrelates(s, op.slot, d.artifact, op.now, services);
      } else {
        forall id
          ensures CorrelationsFit(s', id, services)
        {
          StepLeaves(s, op, s', services, id);
          StillCorrelates(s, s', id, services);
        }
      }
    }
  }

  // ----- runs -----

  const EMPTY := State(map[], map[], map[], map[], 0, None)

  ghost predicate IsRun(run: seq<State>, ops: seq<Operation>, services: Services) {
    && |run| == |ops| + 1 && run[0] == EMPTY
    && forall i :: 0 <= i < |ops| ==> Steps(run[i], ops[i], run[i + 1], services)
  }

  lemma {:induction false} RunKeepsInvariant(run: seq<State>, ops: seq<Operation>, services: Services, i: nat)
    requires IsRun(run, ops, services) && i < |run|
    ensures Invariant(run[i])
  {
    if i > 0 {
      RunKeepsInvariant(run, ops, services, i - 1);
      StepKeepsInvariant(run[i - 1], ops[i - 1], run[i], services);
    }
  }

  lemma EmptyCorrelates(services: Services)
    ensures AllCorrelationsFit(EMPTY, services)
  {
  }

  lemma {:induction false} RunCorrelates(run: seq<State>, ops: seq<Operation>, services: Services, i: nat)
    requires IsRun(run, ops, services) && i < |run|
    ensures AllCorrelationsFit(run[i], services)
  {
    if i == 0 {
      EmptyCorrelates(services);
    } else {
      RunCorrelates(run, ops, services, i - 1);
      StepCorrelates(run[i - 1], ops[i - 1], run[i], services);
    }
  }

  lemma {:induction false} RunEvolves(run: seq<State>, ops: seq<Operation>, services: Services, i: nat, j: nat)
    requires IsRun(run, ops, services) && i <= j < |run|
    ensures Evolves(run[i], run[j])
    decreases j - i
  {
    if i < j {
      RunEvolves(run, ops, services, i, j - 1);
      OneStepEvolves(run, ops, services, j - 1);
      EvolvesTwice(run[i], run[j - 1], run[j]);
    }
  }

  lemma OneStepEvolves(run: seq<State>, ops: seq<Operation>, services: Services, k: nat)
    requires IsRun(run, ops, services) && k < |ops|
    ensures Evolves(run[k], run[k + 1])
  {
    RunKeepsInvariant(run, ops, services, k);
    StepEvolves(run[k], ops[k], run[k + 1], services);
  }

  /** Below saturation a generation names one lease for ever: it is never issued again, to anyone. */
  lemma GenerationsNameLeases(
    run: seq<State>, ops: seq<Operation>, services: Services, i: nat, j: nat, a: Slot, b: Slot)
    requires IsRun(run, ops, services) && i <= j < |run| && a in run[i].leases && b in run[j].leases
    requires run[i].generation < U64_MAX && run[i].leases[a].generation == run[j].leases[b].generation
    ensures b in run[i].leases && run[j].leases[b] == run[i].leases[b]
  {
    RunKeepsInvariant(run, ops, services, i);
    RunEvolves(run, ops, services, i, j);
    assert SlotOk(run[i], a);
  }

  /** What a reader of one mission may rely on. */
  lemma MissionFacts(run: seq<State>, ops: seq<Operation>, services: Services, i: nat, id: string)
    requires IsRun(run, ops, services) && i < |run| && id in run[i].missions
    ensures var s, m := run[i], run[i].missions[id];
            && (m.status != Draft ==> forall t :: t in m.assignments <==> t in m.targets)
            && (forall t :: t in m.assignments ==> (m.assignments[t] == Submitted <==> Slot(id, t) in s.artifacts))
            && (Terminal(m) <==> AllSubmitted(m))
            && (m.status == Complete ==> forall t :: t in m.targets ==> s.artifacts[Slot(id, t)].manifest.complete)
            && (m.status == Partial ==> exists t :: t in m.targets && !s.artifacts[Slot(id, t)].manifest.complete)
            && (m.artifacts == map[] ==> m.correlations == [])
            && (m.artifacts != map[] ==>
                  m.correlations == services.correlate(m.targets, TracesOf(s.artifacts, id), m.plan.window))
            && (m.artifacts != map[] && CorrelatesSoundly(services) ==>
                  Correlates(m.correlations, m.targets, TracesOf(s.artifacts, id), m.plan.window))
  {
    var s, m := run[i], run[i].missions[id];
    RunKeepsInvariant(run, ops, services, i);
    RunCorrelates(run, ops, services, i);
    assert MissionOk(s, id) && CorrelationsFit(s, id, services);
    forall t ensures ArtifactFits(s, Slot(id, t)) {
      assert SlotOk(s, Slot(id, t));
    }
    if m.status == Partial {
      var t :| t in m.artifacts && !m.artifacts[t].complete;
      assert ArtifactFits(s, Slot(id, t));
      assert t in m.targets && !s.artifacts[Slot(id, t)].manifest.complete;
    }
  }
}
