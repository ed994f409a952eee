/**
 What the lineage probes pass on: a buffer that is cloned, replaced or found by
 its data head does receive the identity, however the CPUs interleave.
 */
module LineageSharing {
  import opened Common
  import opened Lineage

  /** Another CPU's step, or an eviction. */
  predicate Elsewhere(s: Step, cpu: nat) {
    s.Evict? || s.cpu != cpu
  }

  /** From `i` up to `j` this CPU does nothing. */
  predicate Rests(steps: seq<Step>, cpu: nat, i: nat, j: nat) {
    i <= j <= |steps| && forall k :: i <= k < j ==> Elsewhere(steps[k], cpu)
  }

  lemma ElsewhereKeepsCpu(w: World, s: Step, cpu: nat)
    requires Enabled(w, s) && Elsewhere(s, cpu) && cpu < |w.cpus|
    ensures cpu < |Apply(w, s).cpus| && Apply(w, s).cpus[cpu] == w.cpus[cpu]
  {
    if s.Continue? && w.cpus[s.cpu].todo != [] {
      PerformGrows(w, w.cpus[s.cpu].held, w.cpus[s.cpu].todo[0], s.head);
    }
  }

  /** A CPU is where it was when it last did something. */
  lemma {:induction false} RestKeepsCpu(
    run: seq<World>, steps: seq<Step>, cpus: nat, cpu: nat, i: nat, j: nat)
    requires IsRun(run, steps, cpus) && Rests(steps, cpu, i, j) && cpu < |run[i].cpus|
    ensures cpu < |run[j].cpus| && run[j].cpus[cpu] == run[i].cpus[cpu]
    decreases j - i
  {
    if i < j {
      RestKeepsCpu(run, steps, cpus, cpu, i, j - 1);
      ElsewhereKeepsCpu(run[j - 1], steps[j - 1], cpu);
    }
  }

  /** What a CPU has in hand it stores with its next step. */
  lemma StoresNext(
    run: seq<World>, steps: seq<Step>, cpus: nat, cpu: nat, i: nat, j: nat, held: Held, action: Action,
    rest: seq<Action>, head: Option<nat>)
    requires IsRun(run, steps, cpus) && i < j < |steps| && Rests(steps, cpu, i + 1, j)
    requires cpu < |run[i + 1].cpus| && run[i + 1].cpus[cpu] == Storing(held, [action] + rest)
    requires steps[j] == Continue(cpu, head)
    ensures cpu < |run[j].cpus| && run[j + 1] == At(Perform(run[j], held, action, head), cpu, Storing(held, rest))
  {
    RestKeepsCpu(run, steps, cpus, cpu, i + 1, j);
    assert ([action] + rest)[1..] == rest;
    PerformGrows(run[j], held, action, head);
  }

  /** Storing an identity at a place leaves that identity there. */
  lemma PutIsThere(w: World, place: Place, held: Held, link: Link, slot: nat)
    ensures
      var there := StoredAt(Stored(w, place, held, link, slot), place);
      there.Some? && there.value.id == held.id
  {
  }

  // ----- clones -----

  /** Entering a clone puts the original's identity in the thread's slot. */
  lemma CloneIsRemembered(
    run: seq<World>, steps: seq<Step>, cpus: nat, cpu: nat, i: nat, j: nat, original: nat, thread: nat,
    head: Option<nat>)
    requires IsRun(run, steps, cpus) && i < j < |steps| && Rests(steps, cpu, i + 1, j)
    requires steps[i] == CloneEntry(cpu, original, thread) && original in run[i].tracked
    requires steps[j] == Continue(cpu, head)
    ensures thread in run[j + 1].clones && run[j + 1].clones[thread].id == run[i].tracked[original].id
  {
    var held := run[i].tracked[original];
    assert [Put(CloneSlot(thread), Cloned)] == [Put(CloneSlot(thread), Cloned)] + [];
    StoresNext(run, steps, cpus, cpu, i, j, held, Put(CloneSlot(thread), Cloned), [], head);
    PutIsThere(run[j], CloneSlot(thread), held, Cloned, 0);
  }

  /** Leaving it gives the clone the identity in the slot, then the clone's data head, and then empties the slot. */
  lemma CloneIsTracked(
    run: seq<World>, steps: seq<Step>, cpus: nat, cpu: nat, i: nat, j: nat, k: nat, l: nat, cloned: nat, thread: nat,
    first: Option<nat>, head: nat, last: Option<nat>)
    requires IsRun(run, steps, cpus) && i < j < k < l < |steps|
    requires Rests(steps, cpu, i + 1, j) && Rests(steps, cpu, j + 1, k) && Rests(steps, cpu, k + 1, l)
    requires steps[i] == CloneExit(cpu, cloned, thread) && thread in run[i].clones && cloned != 0
    requires steps[j] == Continue(cpu, first) && steps[k] == Continue(cpu, Some(head)) && head != 0
    requires steps[l] == Continue(cpu, last)
    ensures cloned in run[j + 1].tracked && run[j + 1].tracked[cloned].id == run[i].clones[thread].id
    ensures head in run[k + 1].heads && run[k + 1].heads[head].id == run[i].clones[thread].id
    ensures thread !in run[l + 1].clones
  {
    var held := run[i].clones[thread];
    var (put, pass, clear) := (Put(Skb(cloned), Cloned), Associate(Cloned), Delete(CloneSlot(thread)));
    assert [put, pass, clear] == [put] + [pass, clear] && [pass, clear] == [pass] + [clear] && [clear] == [clear] + [];
    StoresNext(run, steps, cpus, cpu, i, j, held, put, [pass, clear], first);
    PutIsThere(run[j], Skb(cloned), held, Cloned, 0);
    StoresNext(run, steps, cpus, cpu, j, k, held, pass, [clear], Some(head));
    PutIsThere(run[k], Head(head), held, Cloned, 0);
    StoresNext(run, steps, cpus, cpu, k, l, held, clear, [], last);
  }

  // ----- replacements -----

  /** Entering a call that may replace the buffer in `slot` remembers its identity, and the slot. */
  lemma ReplacementIsRemembered(
    run: seq<World>, steps: seq<Step>, cpus: nat, cpu: nat, i: nat, j: nat, original: nat, slot: nat, thread: nat,
    head: Option<nat>)
    requires IsRun(run, steps, cpus) && i < j < |steps| && Rests(steps, cpu, i + 1, j)
    requires steps[i] == ReplacementEntry(cpu, Some(original), slot, thread) && slot != 0 && original != 0
    requires original in run[i].tracked && steps[j] == Continue(cpu, head)
    ensures
      var pending := run[j + 1].replacements;
      thread in pending && pending[thread].held.id == run[i].tracked[original].id && pending[thread].slot == slot
  {
    var held := run[i].tracked[original];
    assert [PutPending(thread, slot)] == [PutPending(thread, slot)] + [];
    StoresNext(run, steps, cpus, cpu, i, j, held, PutPending(thread, slot), [], head);
  }

  /** Leaving it gives the buffer found in the slot that identity, and then its data head. */
  lemma ReplacementIsTracked(
    run: seq<World>, steps: seq<Step>, cpus: nat, cpu: nat, i: nat, j: nat, k: nat, replacement: nat, thread: nat,
    first: Option<nat>, head: nat)
    requires IsRun(run, steps, cpus) && i < j < k < |steps|
    requires Rests(steps, cpu, i + 1, j) && Rests(steps, cpu, j + 1, k)
    requires steps[i] == ReplacementExit(cpu, Some(replacement), thread) && replacement != 0
    requires thread in run[i].replacements
    requires steps[j] == Continue(cpu, first) && steps[k] == Continue(cpu, Some(head)) && head != 0
    ensures replacement in run[j + 1].tracked
    ensures run[j + 1].tracked[replacement].id == run[i].replacements[thread].held.id
    ensures head in run[k + 1].heads && run[k + 1].heads[head].id == run[i].replacements[thread].held.id
  {
    var held := run[i].replacements[thread].held;
    var (put, pass, clear) := (Put(Skb(replacement), Replaced), Associate(Replaced), Delete(ReplacementSlot(thread)));
    assert [put, pass, clear] == [put] + [pass, clear] && [pass, clear] == [pass] + [clear];
    StoresNext(run, steps, cpus, cpu, i, j, held, put, [pass, clear], first);
    PutIsThere(run[j], Skb(replacement), held, Replaced, 0);
    StoresNext(run, steps, cpus, cpu, j, k, held, pass, [clear], Some(head));
    PutIsThere(run[k], Head(head), held, Replaced, 0);
  }

  // ----- data heads and first sightings -----

  /** A buffer that is not tracked but whose data head is takes the head's identity over. */
  lemma HeadHandsOver(
    run: seq<World>, steps: seq<Step>, cpus: nat, cpu: nat, i: nat, j: nat, k: nat, skb: nat, head: nat,
    next: Option<nat>)
    requires IsRun(run, steps, cpus) && i < j < k < |steps|
    requires Rests(steps, cpu, i + 1, j) && Rests(steps, cpu, j + 1, k)
    requires cpu < |run[i].cpus| && run[i].cpus[cpu] == LookingUp(skb) && skb !in run[i].tracked && head != 0
    requires steps[i] == LookUp(cpu, Some(head)) && steps[j] == LookUpHead(cpu) && head in run[j].heads
    requires steps[k] == Continue(cpu, next)
    ensures skb in run[k + 1].tracked && run[k + 1].tracked[skb].id == run[j].heads[head].id
  {
    var held := run[j].heads[head];
    var (put, clear, pass) := (Put(Skb(skb), DataHead), Delete(Head(head)), Associate(DataHead));
    RestKeepsCpu(run, steps, cpus, cpu, i + 1, j);
    assert [put, clear, pass] == [put] + [clear, pass];
    StoresNext(run, steps, cpus, cpu, j, k, held, put, [clear, pass], next);
    PutIsThere(run[k], Skb(skb), held, DataHead, 0);
  }

  /**
   A matching buffer seen for the first time is tracked under the next identity; one already tracked keeps its own.
   */
  lemma FirstMatchIsTracked(
    run: seq<World>, steps: seq<Step>, cpus: nat, cpu: nat, i: nat, j: nat, k: nat, skb: nat, next: Option<nat>)
    requires IsRun(run, steps, cpus) && i < j < k < |steps|
    requires Rests(steps, cpu, i + 1, j) && Rests(steps, cpu, j + 1, k)
    requires cpu < |run[i].cpus| && run[i].cpus[cpu] == Deciding(skb) && steps[i] == Decide(cpu, true)
    requires skb !in run[i].tracked ==> steps[j] == Issue(cpu) && steps[k] == Continue(cpu, next)
    ensures skb !in run[i].tracked ==>
      && run[j + 1].sequence == run[j].sequence + 1
      && skb in run[k + 1].tracked && run[k + 1].tracked[skb].id == run[j].sequence + 1
    ensures skb in run[i].tracked ==> run[i + 1].tracked == run[i].tracked && run[i + 1].sequence == run[i].sequence
  {
    if skb !in run[i].tracked {
      RestKeepsCpu(run, steps, cpus, cpu, i + 1, j);
      var held := Held(run[j].sequence + 1, |run[j].log|);
      var (put, pass) := (Put(Skb(skb), Begun), Associate(DataHead));
      assert [put, pass] == [put] + [pass];
      StoresNext(run, steps, cpus, cpu, j, k, held, put, [pass], next);
      PutIsThere(run[k], Skb(skb), held, Begun, 0);
    }
  }

  /** A matching packet at XDP puts the next identity on its data head, for the buffer made of it to find. */
  lemma XdpMatchIsTracked(
    run: seq<World>, steps: seq<Step>, cpus: nat, cpu: nat, i: nat, j: nat, k: nat, head: nat, next: Option<nat>)
    requires IsRun(run, steps, cpus) && i < j < k < |steps|
    requires Rests(steps, cpu, i + 1, j) && Rests(steps, cpu, j + 1, k)
    requires steps[i] == TraceXdp(cpu, Some(head), true) && head != 0 && head !in run[i].heads
    requires steps[j] == Issue(cpu) && steps[k] == Continue(cpu, next)
    ensures run[j + 1].sequence == run[j].sequence + 1
    ensures head in run[k + 1].heads && run[k + 1].heads[head].id == run[j].sequence + 1
  {
    RestKeepsCpu(run, steps, cpus, cpu, i + 1, j);
    var held := Held(run[j].sequence + 1, |run[j].log|);
    assert [Put(Head(head), Begun)] == [Put(Head(head), Begun)] + [];
    StoresNext(run, steps, cpus, cpu, j, k, held, Put(Head(head), Begun), [], next);
    PutIsThere(run[k], Head(head), held, Begun, 0);
  }

  /** A buffer that goes away is forgotten, and no other is. */
  lemma LifetimeEnds(w: World, cpu: nat, skb: nat)
    requires Enabled(w, LifetimeEnd(cpu, skb)) && skb != 0
    ensures
      var w' := Apply(w, LifetimeEnd(cpu, skb));
      && (forall other :: other in w'.tracked <==> other in w.tracked && other != skb)
      && (forall other :: other in w'.tracked ==> w'.tracked[other] == w.tracked[other])
      && w'.heads == w.heads && w'.clones == w.clones && w'.replacements == w.replacements
  {
  }
}
