/** `ControlPlane`: the operations on the fields, each a step of the state they add up to. */
module ArcControl {
  import opened Common
  import opened ArcState
  import opened ArcRuns
  import FlowKeys

  class ControlPlane {
    const services: Services
    var sensors: map<string, SensorView>
    var missions: map<string, Mission>
    var artifacts: map<Slot, StoredArtifact>
    var leases: map<Slot, Assignment>
    var generation: u64
    var selected: Option<string>

    constructor (services: Services)
      ensures Snapshot() == EMPTY && Invariant(Snapshot()) && this.services == services
    {
      this.services := services;
      sensors, missions, artifacts, leases, generation, selected := map[], map[], map[], map[], 0, None;
      new;
      EmptyFits();
    }

    function Snapshot(): State
      reads this
    {
      State(sensors, missions, artifacts, leases, generation, selected)
    }

    method RegisterSensor(r: Registration, now: u64) returns (result: Result<SensorView, ArcError>)
      requires Invariant(Snapshot())
      modifies `sensors
      ensures Invariant(Snapshot()) && Steps(old(Snapshot()), Register(r, now), Snapshot(), services)
      ensures result == if ValidRegistration(r) then Ok(sensors[r.sensorId]) else Err(Invalid)
      ensures result.Ok? ==>
        && sensors[r.sensorId].registration == r && sensors[r.sensorId].lastSeen == now
        && (if r.sensorId in old(sensors) then
              && sensors[r.sensorId].state == old(sensors)[r.sensorId].state
              && sensors[r.sensorId].activeMission == old(sensors)[r.sensorId].activeMission
            else sensors[r.sensorId].state == Ready && sensors[r.sensorId].activeMission == None)
        && forall other :: other in old(sensors) && other != r.sensorId ==>
             other in sensors && sensors[other] == old(sensors)[other]
    {
      ghost var s := Snapshot();
      if !ValidRegistration(r) {
        return Err(Invalid);
      }
      var state := Ready;
      var active: Option<string> := None;
      if r.sensorId in sensors {
        state, active := sensors[r.sensorId].state, sensors[r.sensorId].activeMission;
      }
      var view := SensorView(r, now, state, active);
      sensors := sensors[r.sensorId := view];
      StepKeepsInvariant(s, Register(r, now), Snapshot(), services);
      return Ok(view);
    }

    method CreateMission(r: MissionRequest, now: u64) returns (result: Result<Mission, ArcError>)
      requires Invariant(Snapshot())
      modifies `missions, `selected
      ensures Invariant(Snapshot()) && Steps(old(Snapshot()), Create(r, now), Snapshot(), services)
      ensures result.Ok? ==>
        r.missionId !in old(missions) && r.missionId in missions && result.value == missions[r.missionId]
      ensures result.Err? ==> Snapshot() == old(Snapshot())
      ensures result.Ok? ==>
        && missions == old(missions)[r.missionId :=
             Mission(r.missionId, r.name, r.targets, Draft, r.plan, now, map[], map[], [])]
        && selected == Some(r.missionId)
      ensures result == Err(Invalid) <==> !ValidRequest(r)
      ensures result == Err(MissionExists) <==> ValidRequest(r) && r.missionId in old(missions)
      ensures result == Err(SensorNotFound) <==>
        ValidRequest(r) && r.missionId !in old(missions) && exists t :: t in r.targets && t !in sensors
    {
      ghost var s := Snapshot();
      if !ValidRequest(r) {
        return Err(Invalid);
      }
      if r.missionId in missions {
        return Err(MissionExists);
      }
      for i := 0 to |r.targets|
        invariant forall k :: 0 <= k < i ==> r.targets[k] in sensors
        invariant Snapshot() == s
      {
        if r.targets[i] !in sensors {
          return Err(SensorNotFound);
        }
      }
      var mission := Mission(r.missionId, r.name, r.targets, Draft, r.plan, now, map[], map[], []);
      selected := Some(r.missionId);
      missions := missions[r.missionId := mission];
      StepKeepsInvariant(s, Create(r, now), Snapshot(), services);
      return Ok(mission);
    }

    /** Gives every target a pending assignment; stops where one is not registered. */
    method AssignTargets(id: string) returns (ok: bool)
      requires id in missions && missions[id].assignments == map[]
      modifies `missions
      ensures ok <==> forall t :: t in old(missions)[id].targets ==> t in sensors
      ensures ok ==> missions == old(missions)[id := old(missions)[id].(
        assignments := map t | t in old(missions)[id].targets :: Pending)]
    {
      var draft := missions[id];
      ghost var before := missions;
      for i := 0 to |draft.targets|
        invariant id in missions && missions == before[id := draft.(assignments := missions[id].assignments)]
        invariant missions[id].assignments == map t | t in draft.targets[..i] :: Pending
        invariant forall k :: 0 <= k < i ==> draft.targets[k] in sensors
      {
        var target := draft.targets[i];
        if target !in sensors {
          return false;
        }
        assert draft.targets[..i + 1] == draft.targets[..i] + [target];
        missions := missions[id := missions[id].(assignments := missions[id].assignments[target := Pending])];
      }
      assert draft.targets[..|draft.targets|] == draft.targets;
      return true;
    }

    method ArmMission(id: string) returns (result: Result<Mission, ArcError>)
      requires Invariant(Snapshot())
      modifies `missions
      ensures Invariant(Snapshot()) && Steps(old(Snapshot()), Arm(id), Snapshot(), services)
      ensures result.Ok? <==> IsIdentifier(id) && id in old(missions) && old(missions)[id].status == Draft
      ensures result.Ok? ==> result.value == missions[id]
      ensures result.Ok? ==>
        && missions[id].status == Armed
        && (forall t :: t in missions[id].assignments <==> t in old(missions)[id].targets)
        && (forall t :: t in missions[id].assignments ==> missions[id].assignments[t] == Pending)
      ensures result.Err? ==> Snapshot() == old(Snapshot())
      ensures result == Err(Invalid) <==> !IsIdentifier(id)
      ensures result == Err(MissionNotFound) <==> IsIdentifier(id) && id !in old(missions)
    {
      ghost var s := Snapshot();
      if !IsIdentifier(id) {
        return Err(Invalid);
      }
      if id !in missions {
        return Err(MissionNotFound);
      }
      if missions[id].status != Draft {
        return Err(InvalidTransition);
      }
      DraftIsUnassigned(s, id);
      var ok := AssignTargets(id);
      if !ok {
        return Err(SensorNotFound);
      }
      missions := missions[id := missions[id].(status := Armed)];
      assert missions == ArmedMission(s, id).missions;
      StepKeepsInvariant(s, Arm(id), Snapshot(), services);
      return Ok(missions[id]);
    }

    /** The first mission, by name, that waits for the sensor. */
    method FindWaiting(sensor: string) returns (id: Option<string>)
      ensures id.None? <==> forall other :: other in missions ==> !Waiting(missions[other], sensor)
      ensures id.Some? ==> IsNextMission(Snapshot(), sensor, id.value)
    {
      id := None;
      var rest := missions.Keys;
      while rest != {}
        invariant rest <= missions.Keys
        invariant id.None? ==> forall other :: other in missions && other !in rest ==> !Waiting(missions[other], sensor)
        invariant id.Some? ==> id.value in missions && Waiting(missions[id.value], sensor)
        invariant id.Some? ==> forall other ::
          other in missions && other !in rest && Waiting(missions[other], sensor) ==>
          FlowKeys.StringLeq(id.value, other)
        decreases rest
      {
        var next :| next in rest;
        rest := rest - {next};
        if Waiting(missions[next], sensor) {
          FlowKeys.StringLeqTotal(next, next);
          if id.None? || !FlowKeys.StringLeq(id.value, next) {
            SmallerStillLeads(id, next,
              set other | other in missions && other !in rest && Waiting(missions[other], sensor));
            id := Some(next);
          }
        }
      }
    }

    /** A lease of the next generation; the mission is capturing and the sensor busy with it. */
    method GrantLease(slot: Slot, now: u64) returns (lease: Assignment)
      requires slot.mission in missions && slot.sensor in sensors
      modifies `sensors, `missions, `leases, `generation
      ensures Snapshot() == LeasedTo(old(Snapshot()), slot, now) && lease == NewLease(old(Snapshot()), slot, now)
    {
      generation := SatAdd(generation, 1);
      var mission := missions[slot.mission];
      mission := mission.(assignments := mission.assignments[slot.sensor := Leased], status := Capturing);
      missions := missions[slot.mission := mission];
      sensors := sensors[slot.sensor := sensors[slot.sensor].(
        state := Busy, activeMission := Some(slot.mission), lastSeen := now)];
      lease := Assignment(slot.mission, slot.sensor, generation, mission.plan, SatAdd(now, LEASE_DURATION_NS));
      leases := leases[slot := lease];
    }

    method NextAssignment(sensor: string, now: u64) returns (result: Result<Option<Assignment>, ArcError>)
      requires Invariant(Snapshot())
      modifies `sensors, `missions, `leases, `generation
      ensures Invariant(Snapshot()) && Steps(old(Snapshot()), Next(sensor, now), Snapshot(), services)
      ensures result.Err? <==> !IsIdentifier(sensor) || sensor !in old(sensors)
      ensures result.Ok? && result.value.None? ==> forall id :: id in old(missions) ==>
        !Waiting(old(missions)[id], sensor)
      ensures result.Ok? && result.value.Some? ==>
        var slot := Slot(result.value.value.missionId, sensor);
        && IsNextMission(old(Snapshot()), sensor, slot.mission)
        && slot in leases && result.value.value == leases[slot]
        && (if old(IsLive(Snapshot(), slot, now)) then leases == old(leases)
            else leases[slot].generation == SatAdd(old(generation), 1) == generation)
      ensures result.Ok? && result.value.Some? ==>
        var id := result.value.value.missionId;
        var slot := Slot(id, sensor);
        if slot in old(leases) && old(leases)[slot].expires > now then
          result.value.value == old(leases)[slot] && leases == old(leases) && missions == old(missions)
        else
          && result.value.value == Assignment(
               id, sensor, SatAdd(old(generation), 1), old(missions)[id].plan, SatAdd(now, 30_000_000_000))
          && missions[id].assignments[sensor] == Leased && missions[id].status == Capturing
          && sensors[sensor].state == Busy && sensors[sensor].activeMission == Some(id)
      ensures result.Err? ==> result.error == if !IsIdentifier(sensor) then Invalid else SensorNotFound
      ensures result.Ok? && result.value.Some? ==> sensors[sensor].lastSeen == now
    {
      ghost var s := Snapshot();
      if !IsIdentifier(sensor) {
        return Err(Invalid);
      }
      if sensor !in sensors {
        return Err(SensorNotFound);
      }
      var id := FindWaiting(sensor);
      if id.None? {
        return Ok(None);
      }
      var slot := Slot(id.value, sensor);
      assert SlotOk(s, slot);
      if slot in leases && leases[slot].expires > now {
        sensors := sensors[sensor := sensors[sensor].(lastSeen := now)];
        assert Snapshot() == Seen(s, sensor, now);
        StepKeepsInvariant(s, Next(sensor, now), Snapshot(), services);
        return Ok(Some(leases[slot]));
      }
      var lease := GrantLease(slot, now);
      StepKeepsInvariant(s, Next(sensor, now), Snapshot(), services);
      return Ok(Some(lease));
    }

    /** Files an artifact that has passed every check, and brings the mission up to date. */
    method StoreArtifact(slot: Slot, artifact: StoredArtifact, now: u64)
      requires Invariant(Snapshot()) && slot.mission in missions && slot.sensor in sensors && slot !in artifacts
      requires slot.sensor in missions[slot.mission].assignments
      requires missions[slot.mission].assignments[slot.sensor] != Pending
      modifies `artifacts, `missions, `sensors
      ensures
        var s := old(Snapshot());
        Snapshot() == Stored(s, slot, artifact, Recorrelated(s, slot, artifact, services), now)
    {
      ghost var s := Snapshot();
      artifacts := artifacts[slot := artifact];
      var mission := missions[slot.mission];
      mission := mission.(
        assignments := mission.assignments[slot.sensor := Submitted],
        artifacts := mission.artifacts[slot.sensor := artifact.manifest]);
      var traces := TracesOf(artifacts, slot.mission);
      var edges := services.correlate(mission.targets, traces, mission.plan.window);
      mission := mission.(correlations := edges);
      var submitted := set t | t in mission.assignments && mission.assignments[t] == Submitted;
      SubmittedCount(s, slot, mission, submitted);
      if |submitted| == |mission.targets| {
        mission := mission.(status := if AllComplete(mission.artifacts) then Complete else Partial);
      }
      missions := missions[slot.mission := mission];
      var sensor := sensors[slot.sensor].(
        state := if artifact.manifest.complete then EvidenceReceived else Degraded,
        activeMission := Some(slot.mission), lastSeen := now);
      sensors := sensors[slot.sensor := sensor];
      assert mission == WithArtifact(s.missions[slot.mission], slot.sensor, artifact.manifest, edges);
      assert Snapshot() == Stored(s, slot, artifact, edges, now);
    }

    method SubmitArtifact(slot: Slot, bytes: Bytes, now: u64) returns (result: Result<Manifest, ArcError>)
      requires Invariant(Snapshot())
      modifies `artifacts, `missions, `sensors
      ensures Invariant(Snapshot()) && Steps(old(Snapshot()), Submit(slot, bytes, now), Snapshot(), services)
      ensures result == Answer(old(Decide(Snapshot(), slot, bytes, services)))
      ensures result.Err? ==> Snapshot() == old(Snapshot())
      ensures old(Submittable(Snapshot(), slot, bytes, services)) && slot in old(artifacts) ==>
        && Snapshot() == old(Snapshot())
        && result == if services.hash(bytes) == old(artifacts)[slot].manifest.contentHash
                     then Ok(old(artifacts)[slot].manifest) else Err(ArtifactConflict)
      ensures result.Ok? && slot !in old(artifacts) ==>
        && slot in artifacts && artifacts[slot].manifest == result.value
        && result.value == ManifestOf(slot, bytes, services)
        && sensors[slot.sensor].state == (if result.value.complete then EvidenceReceived else Degraded)
        && sensors[slot.sensor].activeMission == Some(slot.mission) && sensors[slot.sensor].lastSeen == now
    {
      ghost var s := Snapshot();
      if !IsIdentifier(slot.mission) || !IsIdentifier(slot.sensor) {
        return Err(Invalid);
      }
      if slot.mission !in missions {
        return Err(MissionNotFound);
      }
      var mission := missions[slot.mission];
      if slot.sensor !in mission.targets {
        return Err(SensorNotTarget);
      }
      if slot.sensor !in mission.assignments || mission.assignments[slot.sensor] == Pending {
        return Err(AssignmentNotLeased);
      }
      if |bytes| > mission.plan.maxArtifactBytes {
        return Err(ArtifactTooLarge);
      }
      var summary := services.replay(bytes);
      if summary.None? {
        return Err(NotReplayable);
      }
      if summary.value.events > mission.plan.maxEvents {
        return Err(ArtifactEventLimit);
      }
      var manifest := Manifest(
        slot.mission, slot.sensor, services.hash(bytes), summary.value.complete, summary.value.events);
      if slot in artifacts {
        if artifacts[slot].manifest.contentHash == manifest.contentHash {
          return Ok(artifacts[slot].manifest);
        }
        return Err(ArtifactConflict);
      }
      if slot.sensor !in sensors {
        return Err(SensorNotFound);
      }
      var trace := services.parse(slot.sensor, sensors[slot.sensor].registration.clockUncertainty, bytes);
      if trace.None? {
        return Err(NotReplayable);
      }
      StoreArtifact(slot, StoredArtifact(manifest, trace.value), now);
      StepKeepsInvariant(s, Submit(slot, bytes, now), Snapshot(), services);
      return Ok(manifest);
    }
  }

  lemma {:induction false} DistinctCount(names: seq<string>)
    requires NoDuplicates(names)
    ensures |set t | t in names| == |names|
  {
    if names != [] {
      var n := |names| - 1;
      DistinctCount(names[..n]);
      assert names == names[..n] + [names[n]];
      assert (set t | t in names) == (set t | t in names[..n]) + {names[n]};
    }
  }

  /** Counting submissions against targets is asking whether all targets have submitted. */
  lemma CountDecides(m: Mission, submitted: set<string>)
    requires NoDuplicates(m.targets) && forall t :: t in m.assignments ==> t in m.targets
    requires submitted == set t | t in m.assignments && m.assignments[t] == Submitted
    ensures |submitted| == |m.targets| <==> AllSubmitted(m)
  {
    var targets := set t | t in m.targets;
    DistinctCount(m.targets);
    assert submitted <= targets && targets == submitted + (targets - submitted);
    assert |targets| == |submitted| + |targets - submitted|;
    if AllSubmitted(m) {
      assert targets - submitted == {};
    }
    if targets - submitted == {} {
      forall t | t in m.targets ensures t in submitted {
        assert t in targets;
      }
    }
  }

  lemma SubmittedCount(s: State, slot: Slot, mission: Mission, submitted: set<string>)
    requires Invariant(s) && slot.mission in s.missions && slot.sensor in s.missions[slot.mission].assignments
    requires mission.targets == s.missions[slot.mission].targets
    requires mission.assignments == s.missions[slot.mission].assignments[slot.sensor := Submitted]
    requires submitted == set t | t in mission.assignments && mission.assignments[t] == Submitted
    ensures |submitted| == |mission.targets| <==> AllSubmitted(mission)
  {
    assert MissionOk(s, slot.mission);
    CountDecides(mission, submitted);
  }

  lemma SmallerStillLeads(current: Option<string>, next: string, seen: set<string>)
    requires current.None? ==> seen <= {next}
    requires current.Some? ==> !FlowKeys.StringLeq(current.value, next)
    requires current.Some? ==> forall other :: other in seen && other != next ==>
      FlowKeys.StringLeq(current.value, other)
    ensures forall other :: other in seen ==> FlowKeys.StringLeq(next, other)
  {
    FlowKeys.StringLeqTotal(next, next);
    if current.Some? {
      FlowKeys.StringLeqTotal(current.value, next);
      forall other | other in seen && other != next ensures FlowKeys.StringLeq(next, other) {
        FlowKeys.StringLeqTransitive(next, current.value, other);
      }
    }
  }

  lemma DraftIsUnassigned(s: State, id: string)
    requires Invariant(s) && id in s.missions && s.missions[id].status == Draft
    ensures s.missions[id].assignments == map[] && forall t :: t in s.missions[id].targets ==> t in s.sensors
  {
    assert MissionOk(s, id);
  }

  lemma EmptyFits()
    ensures Invariant(EMPTY)
  {
  }
}
