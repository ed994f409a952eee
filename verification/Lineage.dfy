/**
 Packet lineage in the kernel: the maps that carry an identity from one buffer
 address to another, as steps of CPUs that interleave between any two map
 operations, with the log of where every stored identity came from.
 */
module Lineage {
  import opened Common

  /** Where an identity can be stored. */
  datatype Place = Skb(address: nat) | Head(address: nat) | CloneSlot(thread: nat) | ReplacementSlot(thread: nat)

  /** How a stored identity relates to the one it was copied from. */
  datatype Link = Issued | Begun | DataHead | Cloned | Replaced

  /** One entry per identity issued or stored; an issue names the place it is for. */
  datatype Entry = Entry(place: Place, id: nat, parent: Option<nat>, link: Link)

  /** An identity in a map or in a register, and the entry that says where it came from. */
  datatype Held = Held(id: nat, at: nat)

  // ----- the log -----

  function CountIssued(log: seq<Entry>): nat {
    if log == [] then 0 else CountIssued(log[..|log| - 1]) + if log[|log| - 1].link == Issued then 1 else 0
  }

  /** The copies the probes make: to and from a data head, across a clone, across a replacement. */
  predicate LinkFits(parent: Entry, place: Place, link: Link) {
    match link
    case Issued => false
    case Begun => parent.link == Issued && parent.place == place
    case DataHead => (parent.place.Skb? && place.Head?) || (parent.place.Head? && (place.Skb? || place.Head?))
    case Cloned => (parent.place.Skb? && place.CloneSlot?) || (parent.place.CloneSlot? && (place.Skb? || place.Head?))
    case Replaced =>
      (parent.place.Skb? && place.ReplacementSlot?) || (parent.place.ReplacementSlot? && (place.Skb? || place.Head?))
  }

  predicate EntryFits(log: seq<Entry>, e: Entry) {
    if e.link == Issued then e.parent.None? && e.id == CountIssued(log) + 1
    else
      && e.parent.Some? && e.parent.value < |log|
      && log[e.parent.value].id == e.id && LinkFits(log[e.parent.value], e.place, e.link)
  }

  predicate Justified(log: seq<Entry>) {
    log == [] || (Justified(log[..|log| - 1]) && EntryFits(log[..|log| - 1], log[|log| - 1]))
  }

  /** The issue an entry descends from. */
  function Root(log: seq<Entry>, i: nat): (r: nat)
    requires i < |log|
    ensures r <= i
  {
    if log[i].parent.Some? && log[i].parent.value < i then Root(log, log[i].parent.value) else i
  }

  lemma {:induction false} EntryAt(log: seq<Entry>, i: nat)
    requires Justified(log) && i < |log|
    ensures EntryFits(log[..i], log[i])
  {
    if i < |log| - 1 {
      EntryAt(log[..|log| - 1], i);
      assert log[..|log| - 1][..i] == log[..i];
    }
  }

  lemma {:induction false} RootIssues(log: seq<Entry>, i: nat)
    requires Justified(log) && i < |log|
    ensures log[Root(log, i)].link == Issued && log[Root(log, i)].id == log[i].id
  {
    EntryAt(log, i);
    if log[i].link != Issued {
      RootIssues(log, log[i].parent.value);
    }
  }

  lemma {:induction false} CountGrows(log: seq<Entry>, i: nat)
    requires i <= |log|
    ensures CountIssued(log[..i]) <= CountIssued(log)
    ensures i < |log| && log[i].link == Issued ==> CountIssued(log[..i]) < CountIssued(log)
  {
    if i < |log| {
      CountGrows(log[..|log| - 1], i);
      assert log[..|log| - 1][..i] == log[..i];
    } else {
      assert log[..i] == log;
    }
  }

  /** No identity is issued twice. */
  lemma IssuedOnce(log: seq<Entry>, i: nat, j: nat)
    requires Justified(log) && i < |log| && j < |log|
    requires log[i].link == Issued && log[j].link == Issued && log[i].id == log[j].id
    ensures i == j
  {
    EntryAt(log, i);
    EntryAt(log, j);
    if i < j {
      assert log[..j][..i] == log[..i];
      CountGrows(log[..j], i);
    } else if j < i {
      assert log[..i][..j] == log[..j];
      CountGrows(log[..i], j);
    }
  }

  /** Entries with the same identity are exactly those that descend from the same issue. */
  lemma SameIdentitySameIssue(log: seq<Entry>, i: nat, j: nat)
    requires Justified(log) && i < |log| && j < |log|
    ensures log[i].id == log[j].id <==> Root(log, i) == Root(log, j)
  {
    RootIssues(log, i);
    RootIssues(log, j);
    if log[i].id == log[j].id {
      IssuedOnce(log, Root(log, i), Root(log, j));
    }
  }

  lemma IdentityWasIssued(log: seq<Entry>, i: nat)
    requires Justified(log) && i < |log|
    ensures 1 <= log[i].id <= CountIssued(log)
  {
    RootIssues(log, i);
    EntryAt(log, Root(log, i));
    CountGrows(log, Root(log, i));
  }

  // ----- the maps and the CPUs -----

  /** A store or a delete a probe still has to do with the identity in hand. */
  datatype Action =
    | Put(place: Place, link: Link)
    | Associate(link: Link)
    | PutPending(thread: nat, slot: nat)
    | Delete(place: Place)

  /** Where a CPU is in a probe. */
  datatype Cpu =
    | Idle
    | LookingUp(skb: nat)
    | LookingUpHead(skb: nat, head: nat)
    | Deciding(skb: nat)
    | Issuing(skb: nat)
    | IssuingXdp(head: nat)
    | Storing(held: Held, todo: seq<Action>)

  datatype Pending = Pending(slot: nat, held: Held)

  datatype World = World(
    tracked: map<nat, Held>, heads: map<nat, Held>, clones: map<nat, Held>, replacements: map<nat, Pending>,
    sequence: nat, cpus: seq<Cpu>, log: seq<Entry>)

  /** One map operation, or one choice of the environment, on one CPU; or an eviction. */
  datatype Step =
    | Trace(cpu: nat, skb: nat)
    | LookUp(cpu: nat, head: Option<nat>)
    | LookUpHead(cpu: nat)
    | Decide(cpu: nat, matched: bool)
    | Issue(cpu: nat)
    | TraceXdp(cpu: nat, hardStart: Option<nat>, matched: bool)
    | CloneEntry(cpu: nat, original: nat, thread: nat)
    | CloneExit(cpu: nat, cloned: nat, thread: nat)
    | ReplacementEntry(cpu: nat, inSlot: Option<nat>, slot: nat, thread: nat)
    | ReplacementExit(cpu: nat, replacement: Option<nat>, thread: nat)
    | LifetimeEnd(cpu: nat, skb: nat)
    | Continue(cpu: nat, head: Option<nat>)
    | Evict(place: Place)

  function Removed(w: World, place: Place): World {
    match place
    case Skb(a) => w.(tracked := w.tracked - {a})
    case Head(a) => w.(heads := w.heads - {a})
    case CloneSlot(t) => w.(clones := w.clones - {t})
    case ReplacementSlot(t) => w.(replacements := w.replacements - {t})
  }

  /** Stores the identity and records where it came from. */
  function Stored(w: World, place: Place, held: Held, link: Link, slot: nat): World {
    WithEntry(w.(log := w.log + [Entry(place, held.id, Some(held.at), link)]), place, Held(held.id, |w.log|), slot)
  }

  /** One map entry written. */
  function WithEntry(w: World, place: Place, now: Held, slot: nat): World {
    match place
    case Skb(a) => w.(tracked := w.tracked[a := now])
    case Head(a) => w.(heads := w.heads[a := now])
    case CloneSlot(t) => w.(clones := w.clones[t := now])
    case ReplacementSlot(t) => w.(replacements := w.replacements[t := Pending(slot, now)])
  }

  function Perform(w: World, held: Held, action: Action, head: Option<nat>): World {
    match action
    case Put(place, link) => Stored(w, place, held, link, 0)
    case PutPending(thread, slot) => Stored(w, ReplacementSlot(thread), held, Replaced, slot)
    case Associate(link) => if head.None? || head.value == 0 then w else Stored(w, Head(head.value), held, link, 0)
    case Delete(place) => Removed(w, place)
  }

  function At(w: World, cpu: nat, to: Cpu): World
    requires cpu < |w.cpus|
  {
    w.(cpus := w.cpus[cpu := to])
  }

  function NewIdentity(w: World, cpu: nat, place: Place, todo: seq<Action>): World
    requires cpu < |w.cpus|
  {
    var held := Held(w.sequence + 1, |w.log|);
    At(w, cpu, Storing(held, todo)).(sequence := w.sequence + 1, log := w.log + [Entry(place, held.id, None, Issued)])
  }

  predicate Enabled(w: World, s: Step) {
    match s
    case Evict(_) => true
    case LookUp(cpu, _) => cpu < |w.cpus| && w.cpus[cpu].LookingUp?
    case LookUpHead(cpu) => cpu < |w.cpus| && w.cpus[cpu].LookingUpHead?
    case Decide(cpu, _) => cpu < |w.cpus| && w.cpus[cpu].Deciding?
    case Issue(cpu) => cpu < |w.cpus| && (w.cpus[cpu].Issuing? || w.cpus[cpu].IssuingXdp?)
    case Continue(cpu, _) => cpu < |w.cpus| && w.cpus[cpu].Storing?
    case _ => s.cpu < |w.cpus| && w.cpus[s.cpu].Idle?
  }

  function Apply(w: World, s: Step): World
    requires Enabled(w, s)
  {
    match s
    case Evict(place) => Removed(w, place)
    case Trace(cpu, skb) => if skb == 0 then w else At(w, cpu, LookingUp(skb))
    case LookUp(cpu, head) =>
      var skb := w.cpus[cpu].skb;
      if skb !in w.tracked && head.Some? && head.value != 0 then At(w, cpu, LookingUpHead(skb, head.value))
      else At(w, cpu, Deciding(skb))
    case LookUpHead(cpu) =>
      var (skb, head) := (w.cpus[cpu].skb, w.cpus[cpu].head);
      if head in w.heads
      then At(w, cpu, Storing(w.heads[head], [Put(Skb(skb), DataHead), Delete(Head(head)), Associate(DataHead)]))
      else At(w, cpu, Deciding(skb))
    case Decide(cpu, matched) =>
      var skb := w.cpus[cpu].skb;
      if skb in w.tracked then At(w, cpu, Storing(w.tracked[skb], [Associate(DataHead)]))
      else if matched then At(w, cpu, Issuing(skb))
      else At(w, cpu, Idle)
    case Issue(cpu) =>
      if w.cpus[cpu].Issuing?
      then NewIdentity(w, cpu, Skb(w.cpus[cpu].skb), [Put(Skb(w.cpus[cpu].skb), Begun), Associate(DataHead)])
      else NewIdentity(w, cpu, Head(w.cpus[cpu].head), [Put(Head(w.cpus[cpu].head), Begun)])
    case TraceXdp(cpu, hardStart, matched) =>
      if hardStart.None? || hardStart.value == 0 || hardStart.value in w.heads || !matched then w
      else At(w, cpu, IssuingXdp(hardStart.value))
    case CloneEntry(cpu, original, thread) =>
      if original in w.tracked then At(w, cpu, Storing(w.tracked[original], [Put(CloneSlot(thread), Cloned)])) else w
    case CloneExit(cpu, cloned, thread) =>
      if thread !in w.clones then w
      else if cloned == 0 then At(w, cpu, Storing(w.clones[thread], [Delete(CloneSlot(thread))]))
      else At(w, cpu, Storing(
        w.clones[thread], [Put(Skb(cloned), Cloned), Associate(Cloned), Delete(CloneSlot(thread))]))
    case ReplacementEntry(cpu, original, slot, thread) =>
      if slot == 0 || original.None? || original.value == 0 || original.value !in w.tracked then w
      else At(w, cpu, Storing(w.tracked[original.value], [PutPending(thread, slot)]))
    case ReplacementExit(cpu, replacement, thread) =>
      if thread !in w.replacements then w
      else
        var held := w.replacements[thread].held;
        if replacement.None? || replacement.value == 0 then At(w, cpu, Storing(held, [Delete(ReplacementSlot(thread))]))
        else At(w, cpu, Storing(
          held, [Put(Skb(replacement.value), Replaced), Associate(Replaced), Delete(ReplacementSlot(thread))]))
    case LifetimeEnd(cpu, skb) => if skb == 0 then w else Removed(w, Skb(skb))
    case Continue(cpu, head) =>
      var (held, todo) := (w.cpus[cpu].held, w.cpus[cpu].todo);
      if todo == [] then At(w, cpu, Idle)
      else At(Perform(w, held, todo[0], head), cpu, Storing(held, todo[1..]))
  }

  // ----- the invariant -----

  /** The entry says this place got this identity. */
  predicate Vouched(log: seq<Entry>, held: Held, place: Place) {
    held.at < |log| && log[held.at].place == place && log[held.at].id == held.id && log[held.at].link != Issued
  }

  ghost predicate ActionFits(parent: Entry, action: Action) {
    match action
    case Put(place, link) => LinkFits(parent, place, link) && !place.ReplacementSlot?
    case PutPending(thread, slot) => LinkFits(parent, ReplacementSlot(thread), Replaced)
    case Associate(link) => forall h :: LinkFits(parent, Head(h), link)
    case Delete(_) => true
  }

  ghost predicate CpuFits(log: seq<Entry>, cpu: Cpu) {
    cpu.Storing? ==>
      && cpu.held.at < |log| && log[cpu.held.at].id == cpu.held.id
      && forall i :: 0 <= i < |cpu.todo| ==> ActionFits(log[cpu.held.at], cpu.todo[i])
  }

  ghost predicate MapsFit(w: World) {
    && (forall a :: a in w.tracked ==> Vouched(w.log, w.tracked[a], Skb(a)))
    && (forall a :: a in w.heads ==> Vouched(w.log, w.heads[a], Head(a)))
    && (forall t :: t in w.clones ==> Vouched(w.log, w.clones[t], CloneSlot(t)))
    && (forall t :: t in w.replacements ==> Vouched(w.log, w.replacements[t].held, ReplacementSlot(t)))
  }

  ghost predicate Invariant(w: World) {
    && Justified(w.log) && w.sequence == CountIssued(w.log)
    && MapsFit(w)
    && forall c :: 0 <= c < |w.cpus| ==> CpuFits(w.log, w.cpus[c])
  }

  lemma JustifiedAppend(log: seq<Entry>, e: Entry)
    requires Justified(log) && EntryFits(log, e)
    ensures Justified(log + [e])
    ensures CountIssued(log + [e]) == CountIssued(log) + if e.link == Issued then 1 else 0
  {
    assert (log + [e])[..|log|] == log;
  }

  /** The log only grows, and what it vouched for it still does. */
  lemma MapsOutliveLog(w: World, w': World, more: seq<Entry>)
    requires MapsFit(w) && w'.log == w.log + more
    requires w'.tracked == w.tracked && w'.heads == w.heads && w'.clones == w.clones
    requires w'.replacements == w.replacements
    ensures MapsFit(w')
  {
  }

  lemma CpusOutliveLog(log: seq<Entry>, more: seq<Entry>, cpus: seq<Cpu>)
    requires forall c :: 0 <= c < |cpus| ==> CpuFits(log, cpus[c])
    ensures forall c :: 0 <= c < |cpus| ==> CpuFits(log + more, cpus[c])
  {
    forall c | 0 <= c < |cpus| ensures CpuFits(log + more, cpus[c]) {
      assert CpuFits(log, cpus[c]);
    }
  }

  lemma RemovedKeeps(w: World, place: Place)
    requires Invariant(w)
    ensures Invariant(Removed(w, place))
  {
  }

  lemma StoredKeeps(w: World, place: Place, held: Held, link: Link, slot: nat)
    requires Invariant(w) && held.at < |w.log| && w.log[held.at].id == held.id && LinkFits(w.log[held.at], place, link)
    ensures Invariant(Stored(w, place, held, link, slot)) && Stored(w, place, held, link, slot).cpus == w.cpus
  {
    var e := Entry(place, held.id, Some(held.at), link);
    var grown := w.(log := w.log + [e]);
    JustifiedAppend(w.log, e);
    MapsOutliveLog(w, grown, [e]);
    CpusOutliveLog(w.log, [e], w.cpus);
    PutKeeps(grown, place, Held(held.id, |w.log|), slot);
  }

  lemma PutKeeps(w: World, place: Place, now: Held, slot: nat)
    requires MapsFit(w) && Vouched(w.log, now, place)
    ensures MapsFit(WithEntry(w, place, now, slot))
  {
  }

  lemma AtKeeps(w: World, cpu: nat, to: Cpu)
    requires Invariant(w) && cpu < |w.cpus| && CpuFits(w.log, to)
    ensures Invariant(At(w, cpu, to))
  {
  }

  lemma NewIdentityKeeps(w: World, cpu: nat, place: Place, todo: seq<Action>)
    requires Invariant(w) && cpu < |w.cpus|
    requires forall i :: 0 <= i < |todo| ==> ActionFits(Entry(place, w.sequence + 1, None, Issued), todo[i])
    ensures Invariant(NewIdentity(w, cpu, place, todo))
  {
    var e := Entry(place, w.sequence + 1, None, Issued);
    var grown := w.(sequence := w.sequence + 1, log := w.log + [e]);
    JustifiedAppend(w.log, e);
    MapsOutliveLog(w, grown, [e]);
    CpusOutliveLog(w.log, [e], w.cpus);
    AtKeeps(grown, cpu, Storing(Held(e.id, |w.log|), todo));
  }

  lemma PerformKeeps(w: World, held: Held, action: Action, head: Option<nat>)
    requires Invariant(w) && held.at < |w.log| && w.log[held.at].id == held.id && ActionFits(w.log[held.at], action)
    ensures Invariant(Perform(w, held, action, head))
  {
    match action
    case Put(place, link) => StoredKeeps(w, place, held, link, 0);
    case PutPending(thread, slot) => StoredKeeps(w, ReplacementSlot(thread), held, Replaced, slot);
    case Associate(link) =>
      if head.Some? && head.value != 0 {
        StoredKeeps(w, Head(head.value), held, link, 0);
      }
    case Delete(place) => RemovedKeeps(w, place);
  }

  lemma PerformGrows(w: World, held: Held, action: Action, head: Option<nat>)
    ensures Perform(w, held, action, head).cpus == w.cpus && w.log <= Perform(w, held, action, head).log
  {
  }

  lemma ContinueKeeps(w: World, cpu: nat, head: Option<nat>)
    requires Invariant(w) && Enabled(w, Continue(cpu, head))
    ensures Invariant(Apply(w, Continue(cpu, head)))
  {
    var (held, todo) := (w.cpus[cpu].held, w.cpus[cpu].todo);
    assert CpuFits(w.log, w.cpus[cpu]);
    if todo == [] {
      AtKeeps(w, cpu, Idle);
    } else {
      var after := Perform(w, held, todo[0], head);
      PerformKeeps(w, held, todo[0], head);
      PerformGrows(w, held, todo[0], head);
      AtKeeps(after, cpu, Storing(held, todo[1..]));
    }
  }

  // What a probe has left to do fits the entry its identity came from.

  lemma HeadTodo(log: seq<Entry>, held: Held, skb: nat, head: nat)
    requires Vouched(log, held, Head(head))
    ensures CpuFits(log, Storing(held, [Put(Skb(skb), DataHead), Delete(Head(head)), Associate(DataHead)]))
  {
  }

  lemma SkbTodo(log: seq<Entry>, held: Held, skb: nat, thread: nat, slot: nat)
    requires Vouched(log, held, Skb(skb))
    ensures CpuFits(log, Storing(held, [Associate(DataHead)]))
    ensures CpuFits(log, Storing(held, [Put(CloneSlot(thread), Cloned)]))
    ensures CpuFits(log, Storing(held, [PutPending(thread, slot)]))
  {
  }

  lemma CloneTodo(log: seq<Entry>, held: Held, skb: nat, thread: nat)
    requires Vouched(log, held, CloneSlot(thread))
    ensures CpuFits(log, Storing(held, [Delete(CloneSlot(thread))]))
    ensures CpuFits(log, Storing(held, [Put(Skb(skb), Cloned), Associate(Cloned), Delete(CloneSlot(thread))]))
  {
  }

  lemma ReplacementTodo(log: seq<Entry>, held: Held, skb: nat, thread: nat)
    requires Vouched(log, held, ReplacementSlot(thread))
    ensures CpuFits(log, Storing(held, [Delete(ReplacementSlot(thread))]))
    ensures CpuFits(log, Storing(held, [Put(Skb(skb), Replaced), Associate(Replaced), Delete(ReplacementSlot(thread))]))
  {
  }

  lemma LookUpHeadKeeps(w: World, cpu: nat)
    requires Invariant(w) && Enabled(w, LookUpHead(cpu))
    ensures Invariant(Apply(w, LookUpHead(cpu)))
  {
    var (skb, head) := (w.cpus[cpu].skb, w.cpus[cpu].head);
    if head in w.heads {
      HeadTodo(w.log, w.heads[head], skb, head);
    }
    AtKeeps(w, cpu, Apply(w, LookUpHead(cpu)).cpus[cpu]);
  }

  lemma DecideKeeps(w: World, cpu: nat, matched: bool)
    requires Invariant(w) && Enabled(w, Decide(cpu, matched))
    ensures Invariant(Apply(w, Decide(cpu, matched)))
  {
    var skb := w.cpus[cpu].skb;
    if skb in w.tracked {
      SkbTodo(w.log, w.tracked[skb], skb, 0, 0);
    }
    AtKeeps(w, cpu, Apply(w, Decide(cpu, matched)).cpus[cpu]);
  }

  lemma IssueKeeps(w: World, cpu: nat)
    requires Invariant(w) && Enabled(w, Issue(cpu))
    ensures Invariant(Apply(w, Issue(cpu)))
  {
    if w.cpus[cpu].Issuing? {
      NewIdentityKeeps(w, cpu, Skb(w.cpus[cpu].skb), [Put(Skb(w.cpus[cpu].skb), Begun), Associate(DataHead)]);
    } else {
      NewIdentityKeeps(w, cpu, Head(w.cpus[cpu].head), [Put(Head(w.cpus[cpu].head), Begun)]);
    }
  }

  lemma CloneEntryKeeps(w: World, cpu: nat, original: nat, thread: nat)
    requires Invariant(w) && cpu < |w.cpus| && w.cpus[cpu].Idle?
    ensures Invariant(Apply(w, CloneEntry(cpu, original, thread)))
  {
    if original in w.tracked {
      SkbTodo(w.log, w.tracked[original], original, thread, 0);
      AtKeeps(w, cpu, Storing(w.tracked[original], [Put(CloneSlot(thread), Cloned)]));
    }
  }

  lemma CloneExitKeeps(w: World, cpu: nat, cloned: nat, thread: nat)
    requires Invariant(w) && cpu < |w.cpus| && w.cpus[cpu].Idle?
    ensures Invariant(Apply(w, CloneExit(cpu, cloned, thread)))
  {
    if thread in w.clones {
      CloneTodo(w.log, w.clones[thread], cloned, thread);
      AtKeeps(w, cpu, Apply(w, CloneExit(cpu, cloned, thread)).cpus[cpu]);
    }
  }

  lemma ReplacementEntryKeeps(w: World, cpu: nat, inSlot: Option<nat>, slot: nat, thread: nat)
    requires Invariant(w) && cpu < |w.cpus| && w.cpus[cpu].Idle?
    ensures Invariant(Apply(w, ReplacementEntry(cpu, inSlot, slot, thread)))
  {
    if slot != 0 && inSlot.Some? && inSlot.value != 0 && inSlot.value in w.tracked {
      SkbTodo(w.log, w.tracked[inSlot.value], inSlot.value, thread, slot);
      AtKeeps(w, cpu, Storing(w.tracked[inSlot.value], [PutPending(thread, slot)]));
    }
  }

  lemma ReplacementExitKeeps(w: World, cpu: nat, replacement: Option<nat>, thread: nat)
    requires Invariant(w) && cpu < |w.cpus| && w.cpus[cpu].Idle?
    ensures Invariant(Apply(w, ReplacementExit(cpu, replacement, thread)))
  {
    if thread in w.replacements {
      ReplacementTodo(w.log, w.replacements[thread].held, if replacement.Some? then replacement.value else 0, thread);
      AtKeeps(w, cpu, Apply(w, ReplacementExit(cpu, replacement, thread)).cpus[cpu]);
    }
  }

  lemma StepKeepsInvariant(w: World, s: Step)
    requires Invariant(w) && Enabled(w, s)
    ensures Invariant(Apply(w, s))
  {
    match s
    case Evict(place) => RemovedKeeps(w, place);
    case Trace(cpu, skb) => AtKeeps(w, cpu, LookingUp(skb));
    case LookUp(cpu, head) => AtKeeps(w, cpu, Apply(w, s).cpus[cpu]);
    case LookUpHead(cpu) => LookUpHeadKeeps(w, cpu);
    case Decide(cpu, matched) => DecideKeeps(w, cpu, matched);
    case Issue(cpu) => IssueKeeps(w, cpu);
    case TraceXdp(cpu, hardStart, matched) =>
      if Apply(w, s) != w {
        AtKeeps(w, cpu, IssuingXdp(hardStart.value));
      }
    case CloneEntry(cpu, original, thread) => CloneEntryKeeps(w, cpu, original, thread);
    case CloneExit(cpu, cloned, thread) => CloneExitKeeps(w, cpu, cloned, thread);
    case ReplacementEntry(cpu, inSlot, slot, thread) => ReplacementEntryKeeps(w, cpu, inSlot, slot, thread);
    case ReplacementExit(cpu, replacement, thread) => ReplacementExitKeeps(w, cpu, replacement, thread);
    case LifetimeEnd(cpu, skb) => RemovedKeeps(w, Skb(skb));
    case Continue(cpu, head) => ContinueKeeps(w, cpu, head);
  }

  // ----- runs -----

  ghost predicate IsRun(run: seq<World>, steps: seq<Step>, cpus: nat) {
    && |run| == |steps| + 1
    && run[0].tracked == map[] && run[0].heads == map[] && run[0].clones == map[] && run[0].replacements == map[]
    && run[0].sequence == 0 && run[0].log == []
    && |run[0].cpus| == cpus && (forall c :: 0 <= c < cpus ==> run[0].cpus[c] == Idle)
    && forall i :: 0 <= i < |steps| ==> Enabled(run[i], steps[i]) && run[i + 1] == Apply(run[i], steps[i])
  }

  lemma {:induction false} RunKeepsInvariant(run: seq<World>, steps: seq<Step>, cpus: nat, i: nat)
    requires IsRun(run, steps, cpus) && i < |run|
    ensures Invariant(run[i])
  {
    if i > 0 {
      RunKeepsInvariant(run, steps, cpus, i - 1);
      StepKeepsInvariant(run[i - 1], steps[i - 1]);
    }
  }

  /** What is stored at a place, if anything. */
  function StoredAt(w: World, place: Place): Option<Held> {
    match place
    case Skb(a) => if a in w.tracked then Some(w.tracked[a]) else None
    case Head(a) => if a in w.heads then Some(w.heads[a]) else None
    case CloneSlot(t) => if t in w.clones then Some(w.clones[t]) else None
    case ReplacementSlot(t) => if t in w.replacements then Some(w.replacements[t].held) else None
  }

  /** In every run every stored identity was issued, and is shared exactly by what descends from one issue. */
  lemma SharingIsDescent(run: seq<World>, steps: seq<Step>, cpus: nat, i: nat, p: Place, q: Place)
    requires IsRun(run, steps, cpus) && i < |run| && StoredAt(run[i], p).Some? && StoredAt(run[i], q).Some?
    ensures var (w, a, b) := (run[i], StoredAt(run[i], p).value, StoredAt(run[i], q).value);
            && 1 <= a.id <= w.sequence
            && a.at < |w.log| && b.at < |w.log|
            && (a.id == b.id <==> Root(w.log, a.at) == Root(w.log, b.at))
  {
    var (w, a, b) := (run[i], StoredAt(run[i], p).value, StoredAt(run[i], q).value);
    RunKeepsInvariant(run, steps, cpus, i);
    assert Vouched(w.log, a, p) && Vouched(w.log, b, q);
    IdentityWasIssued(w.log, a.at);
    SameIdentitySameIssue(w.log, a.at, b.at);
  }

  /** Two buffers share an identity only if one of them got it from a data head, a clone or a replacement. */
  lemma BuffersShareByCopying(run: seq<World>, steps: seq<Step>, cpus: nat, i: nat, a: nat, b: nat)
    requires IsRun(run, steps, cpus) && i < |run| && a in run[i].tracked && b in run[i].tracked
    requires a != b && run[i].tracked[a].id == run[i].tracked[b].id
    ensures var (log, x, y) := (run[i].log, run[i].tracked[a].at, run[i].tracked[b].at);
            && x < |log| && y < |log|
            && (log[x].link in {DataHead, Cloned, Replaced} || log[y].link in {DataHead, Cloned, Replaced})
  {
    var (w, x, y) := (run[i], run[i].tracked[a].at, run[i].tracked[b].at);
    RunKeepsInvariant(run, steps, cpus, i);
    assert Vouched(w.log, w.tracked[a], Skb(a)) && Vouched(w.log, w.tracked[b], Skb(b));
    EntryAt(w.log, x);
    EntryAt(w.log, y);
    if w.log[x].link == Begun && w.log[y].link == Begun {
      IssuedOnce(w.log, w.log[x].parent.value, w.log[y].parent.value);
    }
  }

  /** The identity sequence never runs backwards, so no run issues an identity twice. */
  lemma RunIssuesOnce(run: seq<World>, steps: seq<Step>, cpus: nat, i: nat, x: nat, y: nat)
    requires IsRun(run, steps, cpus) && i < |run| && x < |run[i].log| && y < |run[i].log|
    requires run[i].log[x].link == Issued && run[i].log[y].link == Issued && run[i].log[x].id == run[i].log[y].id
    ensures x == y
  {
    RunKeepsInvariant(run, steps, cpus, i);
    IssuedOnce(run[i].log, x, y);
  }
}
