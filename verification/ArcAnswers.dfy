/**
 What senders and pollers can rely on: which uploads are refused and why, that a
 retry is answered like the first time, and how long a lease lasts.
 */
module ArcAnswers {
  import opened Common
  import opened ArcState
  import opened ArcRuns
  import FilterSyntax
  import FlowKeys

  // ----- uploads -----

  /** Each refusal has one reason, and they are looked for in this order. */
  lemma RefusalsHaveReasons(s: State, slot: Slot, bytes: Bytes, services: Services)
    requires Invariant(s)
    ensures
      var answer := Answer(Decide(s, slot, bytes, services));
      var named := IsIdentifier(slot.mission) && IsIdentifier(slot.sensor);
      && (answer == Err(Invalid) <==> !named)
      && (answer == Err(MissionNotFound) <==> named && slot.mission !in s.missions)
      && (named && slot.mission in s.missions ==>
            var m := s.missions[slot.mission];
            var target := slot.sensor in m.targets;
            var leased := target && slot.sensor in m.assignments && m.assignments[slot.sensor] != Pending;
            var small := leased && |bytes| <= m.plan.maxArtifactBytes;
            var replayed := small && services.replay(bytes).Some?;
            && (answer == Err(SensorNotTarget) <==> !target)
            && (answer == Err(AssignmentNotLeased) <==> target && !leased)
            && (answer == Err(ArtifactTooLarge) <==> leased && |bytes| > m.plan.maxArtifactBytes)
            && (small && !replayed ==> answer == Err(NotReplayable))
            && (answer == Err(ArtifactEventLimit) <==>
                  replayed && services.replay(bytes).value.events > m.plan.maxEvents)
            && (answer == Err(ArtifactConflict) <==>
                  && Submittable(s, slot, bytes, services) && slot in s.artifacts
                  && s.artifacts[slot].manifest.contentHash != services.hash(bytes)))
      && answer != Err(SensorNotFound)
  {
    assert MissionOk(s, slot.mission);
  }

  /** An upload that is stored is answered with what it says of itself, and that is what is kept. */
  lemma FirstIsStored(
    run: seq<State>, ops: seq<Operation>, services: Services, i: nat, slot: Slot, bytes: Bytes, now: u64)
    requires IsRun(run, ops, services) && i < |ops| && ops[i] == Submit(slot, bytes, now)
    requires slot !in run[i].artifacts && slot in run[i + 1].artifacts
    ensures Submittable(run[i], slot, bytes, services)
    ensures Answer(Decide(run[i], slot, bytes, services)) == Ok(ManifestOf(slot, bytes, services))
    ensures run[i + 1].artifacts[slot].manifest == ManifestOf(slot, bytes, services)
  {
    assert Steps(run[i], ops[i], run[i + 1], services);
  }

  /**
   Once an upload has been stored, every later upload for the slot that passes
   the limits changes nothing: with the same hash it is answered as the first
   was, with another it is a conflict. The same bytes always pass.
   */
  lemma RetryIsAnswered(
    run: seq<State>, ops: seq<Operation>, services: Services, i: nat, j: nat, slot: Slot, first: Bytes, again: Bytes,
    now: u64, later: u64)
    requires IsRun(run, ops, services) && i < j < |ops|
    requires ops[i] == Submit(slot, first, now) && ops[j] == Submit(slot, again, later)
    requires slot !in run[i].artifacts && slot in run[i + 1].artifacts
    requires slot.mission in run[i].missions
    requires again == first || PassesLimits(run[i].missions[slot.mission].plan, again, services)
    ensures run[j + 1] == run[j]
    ensures Answer(Decide(run[j], slot, again, services))
         == if services.hash(again) == services.hash(first) then Ok(ManifestOf(slot, first, services))
            else Err(ArtifactConflict)
  {
    FirstIsStored(run, ops, services, i, slot, first, now);
    StillStored(run, ops, services, i, j, slot);
    assert Steps(run[j], ops[j], run[j + 1], services);
  }

  lemma StillStored(run: seq<State>, ops: seq<Operation>, services: Services, i: nat, j: nat, slot: Slot)
    requires IsRun(run, ops, services) && i < j < |ops| && slot.mission in run[i].missions
    requires slot in run[i + 1].artifacts
    ensures slot in run[j].artifacts && run[j].artifacts[slot] == run[i + 1].artifacts[slot]
    ensures slot.mission in run[j].missions
    ensures
      var m := run[j].missions[slot.mission];
      && m.plan == run[i].missions[slot.mission].plan && m.targets == run[i].missions[slot.mission].targets
      && slot.sensor in m.assignments && m.assignments[slot.sensor] != Pending
  {
    ArtifactStays(run, ops, services, i + 1, j, slot);
    MissionStays(run, ops, services, i, j, slot.mission);
    StoredMeansSubmitted(run, ops, services, j, slot);
  }

  lemma ArtifactStays(run: seq<State>, ops: seq<Operation>, services: Services, i: nat, j: nat, slot: Slot)
    requires IsRun(run, ops, services) && i <= j < |run| && slot in run[i].artifacts
    ensures slot in run[j].artifacts && run[j].artifacts[slot] == run[i].artifacts[slot]
  {
    RunEvolves(run, ops, services, i, j);
  }

  lemma MissionStays(run: seq<State>, ops: seq<Operation>, services: Services, i: nat, j: nat, id: string)
    requires IsRun(run, ops, services) && i <= j < |run| && id in run[i].missions
    ensures id in run[j].missions
    ensures run[j].missions[id].plan == run[i].missions[id].plan
    ensures run[j].missions[id].targets == run[i].missions[id].targets
  {
    RunEvolves(run, ops, services, i, j);
  }

  lemma StoredMeansSubmitted(run: seq<State>, ops: seq<Operation>, services: Services, j: nat, slot: Slot)
    requires IsRun(run, ops, services) && j < |run| && slot in run[j].artifacts
    ensures slot.mission in run[j].missions
    ensures slot.sensor in run[j].missions[slot.mission].assignments
    ensures run[j].missions[slot.mission].assignments[slot.sensor] == Submitted
  {
    RunKeepsInvariant(run, ops, services, j);
    assert SlotOk(run[j], slot) && MissionOk(run[j], slot.mission);
  }

  // ----- polling -----

  lemma NextIsOne(s: State, sensor: string, id: string, other: string)
    requires IsNextMission(s, sensor, id) && IsNextMission(s, sensor, other)
    ensures id == other
  {
    FlowKeys.StringLeqTotal(id, other);
  }

  /** What a poll does to the lease of the mission the sensor is to work on next. */
  lemma PollMeans(
    run: seq<State>, ops: seq<Operation>, services: Services, i: nat, sensor: string, now: u64, id: string)
    requires IsRun(run, ops, services) && i < |ops| && ops[i] == Next(sensor, now)
    requires IsIdentifier(sensor) && sensor in run[i].sensors && IsNextMission(run[i], sensor, id)
    ensures
      var (s, s', slot) := (run[i], run[i + 1], Slot(id, sensor));
      && slot in s'.leases
      && if slot in s.leases && s.leases[slot].expires > now then
           s'.leases == s.leases && s'.generation == s.generation && s'.missions == s.missions
         else
           && s'.leases == s.leases[slot := s'.leases[slot]]
           && s'.leases[slot].generation == s'.generation == SatAdd(s.generation, 1)
           && s'.leases[slot].plan == s.missions[id].plan
           && s'.leases[slot].expires == SatAdd(now, 30_000_000_000)
  {
    var (s, s') := (run[i], run[i + 1]);
    assert Steps(s, ops[i], s', services);
    var next :| IsNextMission(s, sensor, next)
      && s'
      == if IsLive(s, Slot(next, sensor), now) then Seen(s, sensor, now) else LeasedTo(s, Slot(next, sensor), now);
    NextIsOne(s, sensor, id, next);
  }

  /**
   A lease lasts thirty seconds: a poll before that finds the same generation and
   plan, one at or after that is given the next generation.
   */
  lemma LeaseLasts(
    run: seq<State>, ops: seq<Operation>, services: Services, i: nat, j: nat, sensor: string, now: u64, later: u64,
    id: string)
    requires IsRun(run, ops, services) && i < j < |ops| && ops[i] == Next(sensor, now) && ops[j] == Next(sensor, later)
    requires IsIdentifier(sensor) && sensor in run[i].sensors
    requires IsNextMission(run[i], sensor, id) && IsNextMission(run[j], sensor, id)
    requires var slot := Slot(id, sensor);
             && (slot in run[i].leases ==> run[i].leases[slot].expires <= now)
             && slot in run[i + 1].leases && slot in run[j].leases && run[j].leases[slot] == run[i + 1].leases[slot]
    requires now <= later <= U64_MAX - 30_000_000_000
    ensures
      var slot := Slot(id, sensor);
      && slot in run[j + 1].leases
      && (later < now + 30_000_000_000 ==>
            run[j + 1].leases[slot] == run[i + 1].leases[slot] && run[j + 1].generation == run[j].generation)
      && (later >= now + 30_000_000_000 ==>
            run[j + 1].leases[slot].generation == SatAdd(run[j].generation, 1)
            && run[j + 1].leases[slot].expires == later + 30_000_000_000)
  {
    PollMeans(run, ops, services, i, sensor, now, id);
    RunEvolves(run, ops, services, i, j);
    PollMeans(run, ops, services, j, sensor, later, id);
  }

  // ----- names -----

  /** ASCII letters and digits, full stop, underscore, colon and hyphen, by code. */
  predicate MayName(code: int) {
    || 0x30 <= code <= 0x39 || 0x41 <= code <= 0x5A || 0x61 <= code <= 0x7A
    || code == 0x2E || code == 0x5F || code == 0x3A || code == 0x2D
  }

  /** Names have one to sixty-four of them, and nothing else. */
  lemma IdentifierMeans(s: string)
    ensures IsIdentifier(s) <==> 1 <= |s| <= 64 && forall i :: 0 <= i < |s| ==> MayName(s[i] as int)
  {
    forall i | 0 <= i < |s|
      ensures MayName(s[i] as int) <==>
        'a' <= s[i] <= 'z' || 'A' <= s[i] <= 'Z' || '0' <= s[i] <= '9' || s[i] in {'.', '_', ':', '-'}
    {
    }
  }

  // ----- bounds -----

  /** The documented bounds of a mission. */
  predicate WithinBounds(targets: seq<string>, plan: CapturePlan) {
    && 1 <= |targets| <= 32 && (forall i, j :: 0 <= i < j < |targets| ==> targets[i] != targets[j])
    && 1 <= plan.durationSeconds <= 300 && 1 <= plan.maxEvents <= 1_000_000
    && 1 <= plan.maxArtifactBytes <= 64 * 1024 * 1024 && 1 <= plan.window <= 5_000_000_000
    && |plan.probes| <= 64
  }

  /** A mission is refused for its request exactly when it has no proper name or filter or is out of bounds. */
  lemma RequestMeans(r: MissionRequest)
    ensures ValidRequest(r) <==>
      && WithinBounds(r.targets, r.plan)
      && IsIdentifier(r.missionId) && (forall i :: 0 <= i < |r.targets| ==> IsIdentifier(r.targets[i]))
      && (exists i :: 0 <= i < |r.name| && !FilterSyntax.IsWhitespace(r.name[i])) && Utf8Length(r.name) <= 120
      && (exists i :: 0 <= i < |r.plan.filter| && !FilterSyntax.IsWhitespace(r.plan.filter[i]))
  {
  }

  /** Every mission there ever is stays within them. */
  lemma {:induction false} MissionsAreBounded(
    run: seq<State>, ops: seq<Operation>, services: Services, i: nat, id: string)
    requires IsRun(run, ops, services) && i < |run| && id in run[i].missions
    ensures WithinBounds(run[i].missions[id].targets, run[i].missions[id].plan)
  {
    var (s, op, s') := (run[i - 1], ops[i - 1], run[i]);
    assert Steps(s, op, s', services);
    if id in s.missions {
      MissionsAreBounded(run, ops, services, i - 1, id);
      OneStepEvolves(run, ops, services, i - 1);
    } else {
      OnlyCreateAdds(s, op, s', services, id);
      RequestMeans(op.request);
    }
  }

  lemma OnlyCreateAdds(s: State, op: Operation, s': State, services: Services, id: string)
    requires Steps(s, op, s', services) && id !in s.missions && id in s'.missions
    ensures op.Create? && ValidRequest(op.request)
    ensures s'.missions[id].targets == op.request.targets && s'.missions[id].plan == op.request.plan
  {
  }
}
