/**
 `record_reserve_failure` and `record_skb_loss` as steps of concurrent CPUs over
 the shared per-packet table and the per-CPU probe-site table.

 One step is one map operation, so every interleaving of lookups, insertions and
 increments is a run. Neither table ever deletes an entry.
 */
module LossLedger {
  import opened Reliability
  import opened LossBooks

  const MAX_SKB_LOSSES: nat := 4096
  const MAX_PROBE_SITES: nat := 512

  /** Operations of `record_skb_loss`. */
  datatype SkbOp = LookupSkb | AddSkb | InsertSkb | LookupSkbAgain

  /** Operations of `record_reserve_failure` once the packet has been dealt with. */
  datatype SiteOp = LookupSite | AddSite | InsertSite

  /** Where a CPU is inside the failure path. */
  datatype Pc = Idle | FilingSkb(skbOp: SkbOp, key: SkbKey) | FilingSite(siteOp: SiteOp, site: Site)

  datatype Cpu = Cpu(reserveFailures: nat, unattributedReserve: nat, unattributedSkb: nat, pc: Pc)

  datatype Kernel = Kernel(cpus: seq<Cpu>, skbLoss: map<SkbKey, nat>, siteLoss: map<Site, seq<nat>>)

  function Count(table: map<SkbKey, nat>, key: SkbKey): nat {
    if key in table then table[key] else 0
  }

  // ----- the code: what a CPU does next, and to which table -----

  /** A failure is counted on entry, before it is attributed anywhere. */
  function Begin(cpu: Cpu, key: SkbKey): Cpu {
    cpu.(reserveFailures := cpu.reserveFailures + 1, pc := FilingSkb(LookupSkb, key))
  }

  /** One operation of `record_skb_loss`: the CPU and the packet table after it. */
  function StepSkb(cpu: Cpu, table: map<SkbKey, nat>, op: SkbOp, key: SkbKey): (Cpu, map<SkbKey, nat>) {
    var filed := cpu.(pc := FilingSite(LookupSite, key.site));
    match op
    case LookupSkb => (cpu.(pc := FilingSkb(if key in table then AddSkb else InsertSkb, key)), table)
    case AddSkb => (filed, table[key := Count(table, key) + 1])
    case InsertSkb =>
      // BPF_NOEXIST: refused when the key has appeared meanwhile or the table is full.
      if key in table || |table| >= MAX_SKB_LOSSES then (cpu.(pc := FilingSkb(LookupSkbAgain, key)), table)
      else (filed, table[key := 1])
    case LookupSkbAgain =>
      if key in table then (cpu.(pc := FilingSkb(AddSkb, key)), table)
      else (filed.(unattributedSkb := cpu.unattributedSkb + 1), table)
  }

  function Zeros(n: nat): (s: seq<nat>)
    ensures |s| == n && forall i :: 0 <= i < n ==> s[i] == 0
  {
    seq(n, _ => 0)
  }

  /** The per-CPU slots of a site; a new entry starts with every slot at zero. */
  function Slots(table: map<Site, seq<nat>>, cpus: nat, site: Site): seq<nat> {
    if site in table then table[site] else Zeros(cpus)
  }

  function SetSlot(slots: seq<nat>, c: nat, n: nat): seq<nat> {
    if c < |slots| then slots[c := n] else slots
  }

  function OwnSlot(slots: seq<nat>, c: nat): nat {
    if c < |slots| then slots[c] else 0
  }

  /** One operation on the probe-site table by CPU `c` of `cpus`. */
  function StepSite(
    cpu: Cpu, table: map<Site, seq<nat>>, cpus: nat, c: nat, op: SiteOp, site: Site): (Cpu, map<Site, seq<nat>>)
  {
    var slots := Slots(table, cpus, site);
    match op
    case LookupSite => (cpu.(pc := FilingSite(if site in table then AddSite else InsertSite, site)), table)
    case AddSite => (cpu.(pc := Idle), table[site := SetSlot(slots, c, OwnSlot(slots, c) + 1)])
    case InsertSite =>
      // BPF_ANY: overwrites this CPU's own slot, and fails only when the table is full.
      if site in table || |table| < MAX_PROBE_SITES then (cpu.(pc := Idle), table[site := SetSlot(slots, c, 1)])
      else (cpu.(pc := Idle, unattributedReserve := cpu.unattributedReserve + 1), table)
  }

  // ----- the true losses beside the code -----

  /** The kernel with the true losses of every CPU beside it. */
  datatype World = World(kernel: Kernel, skb: Books<SkbKey>, sites: Books<Site>)

  function Suffer<K>(a: Account<K>, key: K): Account<K> {
    a.(lost := a.lost + multiset{key}, pending := a.pending + multiset{key})
  }

  function File<K>(a: Account<K>, key: K): Account<K> {
    a.(filed := a.filed + multiset{key}, pending := a.pending - multiset{key})
  }

  function GiveUp<K>(a: Account<K>, key: K): Account<K> {
    a.(unfiled := a.unfiled + multiset{key}, pending := a.pending - multiset{key})
  }

  /** How the packet account changes with one operation of `record_skb_loss`. */
  function SkbEntry(a: Account<SkbKey>, table: map<SkbKey, nat>, op: SkbOp, key: SkbKey): Account<SkbKey> {
    match op
    case LookupSkb => a
    case AddSkb => File(a, key)
    case InsertSkb => if key in table || |table| >= MAX_SKB_LOSSES then a else File(a, key)
    case LookupSkbAgain => if key in table then a else GiveUp(a, key)
  }

  function SiteEntry(a: Account<Site>, table: map<Site, seq<nat>>, op: SiteOp, site: Site): Account<Site> {
    match op
    case LookupSite => a
    case AddSite => File(a, site)
    case InsertSite => if site in table || |table| < MAX_PROBE_SITES then File(a, site) else GiveUp(a, site)
  }

  datatype Step = Fail(c: nat, key: SkbKey) | Go(c: nat)

  ghost predicate Enabled(w: World, s: Step) {
    && s.c < |w.kernel.cpus| == |w.skb| == |w.sites|
    && (s.Fail? <==> w.kernel.cpus[s.c].pc == Idle)
  }

  ghost function Apply(w: World, s: Step): World
    requires Enabled(w, s)
  {
    var (c, k) := (s.c, w.kernel);
    var cpu := k.cpus[c];
    match s
    case Fail(_, key) =>
      World(k.(cpus := k.cpus[c := Begin(cpu, key)]), w.skb[c := Suffer(w.skb[c], key)],
        w.sites[c := Suffer(w.sites[c], key.site)])
    case Go(_) =>
      match cpu.pc
      case FilingSkb(op, key) =>
        var (cpu', table) := StepSkb(cpu, k.skbLoss, op, key);
        World(k.(cpus := k.cpus[c := cpu'], skbLoss := table), w.skb[c := SkbEntry(w.skb[c], k.skbLoss, op, key)],
          w.sites)
      case FilingSite(op, site) =>
        var (cpu', table) := StepSite(cpu, k.siteLoss, |k.cpus|, c, op, site);
        World(k.(cpus := k.cpus[c := cpu'], siteLoss := table), w.skb,
          w.sites[c := SiteEntry(w.sites[c], k.siteLoss, op, site)])
  }

  // ----- what every step keeps -----

  function InFlightSkb(pc: Pc): multiset<SkbKey> {
    if pc.FilingSkb? then multiset{pc.key} else multiset{}
  }

  function InFlightSite(pc: Pc): multiset<Site> {
    match pc
    case Idle => multiset{}
    case FilingSkb(_, key) => multiset{key.site}
    case FilingSite(_, site) => multiset{site}
  }

  ghost predicate CpuMatches(cpu: Cpu, skb: Account<SkbKey>, sites: Account<Site>) {
    && Balanced(skb) && Balanced(sites)
    && cpu.reserveFailures == |skb.lost| == |sites.lost|
    && cpu.unattributedSkb == |skb.unfiled| && cpu.unattributedReserve == |sites.unfiled|
    && skb.pending == InFlightSkb(cpu.pc) && sites.pending == InFlightSite(cpu.pc)
  }

  /** What a CPU has seen in a table stays true, and its own slot is its own. */
  ghost predicate PcSound(pc: Pc, skbKeys: set<SkbKey>, siteKeys: set<Site>, sites: Account<Site>) {
    match pc
    case Idle => true
    case FilingSkb(op, key) => op.AddSkb? ==> key in skbKeys
    case FilingSite(op, site) => (op.AddSite? ==> site in siteKeys) && (op.InsertSite? ==> sites.filed[site] == 0)
  }

  ghost predicate CpuSound(
    cpu: Cpu, skbKeys: set<SkbKey>, siteKeys: set<Site>, skb: Account<SkbKey>, sites: Account<Site>)
  {
    CpuMatches(cpu, skb, sites) && PcSound(cpu.pc, skbKeys, siteKeys, sites)
  }

  ghost predicate CpusSound(
    cpus: seq<Cpu>, skbKeys: set<SkbKey>, siteKeys: set<Site>, skb: Books<SkbKey>, sites: Books<Site>)
  {
    && |cpus| == |skb| == |sites|
    && forall c :: 0 <= c < |cpus| ==> CpuSound(cpus[c], skbKeys, siteKeys, skb[c], sites[c])
  }

  /** The other CPUs do not notice a step: entries are never taken away. */
  lemma OneCpuMoves(
    cpus: seq<Cpu>, skbKeys: set<SkbKey>, siteKeys: set<Site>, skb: Books<SkbKey>, sites: Books<Site>,
    c: nat, cpu': Cpu, skbKeys': set<SkbKey>, siteKeys': set<Site>, skb': Account<SkbKey>, sites': Account<Site>)
    requires CpusSound(cpus, skbKeys, siteKeys, skb, sites) && c < |cpus|
    requires skbKeys <= skbKeys' && siteKeys <= siteKeys'
    requires CpuSound(cpu', skbKeys', siteKeys', skb', sites')
    ensures CpusSound(cpus[c := cpu'], skbKeys', siteKeys', skb[c := skb'], sites[c := sites'])
  {
  }

  ghost predicate SkbTableMatches(table: map<SkbKey, nat>, filed: multiset<SkbKey>) {
    && |table| <= MAX_SKB_LOSSES
    && (forall key :: key in table ==> table[key] >= 1)
    && (forall key: SkbKey :: filed[key] == Count(table, key))
  }

  ghost predicate SlotsMatch(table: map<Site, seq<nat>>, books: Books<Site>, site: Site) {
    if site in table then
      |table[site]| == |books| && forall c :: 0 <= c < |books| ==> table[site][c] == books[c].filed[site]
    else forall c :: 0 <= c < |books| ==> books[c].filed[site] == 0
  }

  ghost predicate SiteTableMatches(table: map<Site, seq<nat>>, books: Books<Site>) {
    |table| <= MAX_PROBE_SITES && forall site: Site :: SlotsMatch(table, books, site)
  }

  ghost predicate Invariant(w: World) {
    && CpusSound(w.kernel.cpus, w.kernel.skbLoss.Keys, w.kernel.siteLoss.Keys, w.skb, w.sites)
    && SkbTableMatches(w.kernel.skbLoss, Filed(w.skb))
    && SiteTableMatches(w.kernel.siteLoss, w.sites)
  }

  ghost predicate Initial(w: World) {
    && |w.kernel.cpus| == |w.skb| == |w.sites|
    && (forall c :: 0 <= c < |w.kernel.cpus| ==>
        && w.kernel.cpus[c] == Cpu(0, 0, 0, Idle)
        && w.skb[c] == Account(multiset{}, multiset{}, multiset{}, multiset{})
        && w.sites[c] == Account(multiset{}, multiset{}, multiset{}, multiset{}))
    && w.kernel.skbLoss == map[] && w.kernel.siteLoss == map[]
  }

  lemma {:induction false} NothingFiled<K>(books: Books<K>)
    requires forall c :: 0 <= c < |books| ==> books[c].filed == multiset{}
    ensures Filed(books) == multiset{}
  {
    if books != [] {
      NothingFiled(books[..|books| - 1]);
    }
  }

  lemma InitialHolds(w: World)
    requires Initial(w)
    ensures Invariant(w)
  {
    NothingFiled(w.skb);
  }

  lemma BagCancel<K>(a: multiset<K>, b: multiset<K>, own: multiset<K>, more: multiset<K>)
    requires a + own == b + (own + more)
    ensures a == b + more
  {
    assert a == (a + own) - own;
    assert b + more == (b + (own + more)) - own;
  }

  /** Filing a key puts one more count on its table entry, or opens the entry. */
  lemma OneMoreFiled(table: map<SkbKey, nat>, filed: multiset<SkbKey>, key: SkbKey)
    requires SkbTableMatches(table, filed) && (key in table || |table| < MAX_SKB_LOSSES)
    ensures SkbTableMatches(table[key := Count(table, key) + 1], filed + multiset{key})
  {
    assert table[key := Count(table, key) + 1].Keys == table.Keys + {key};
  }

  /** One operation on the packet table keeps the table equal to what has been filed. */
  lemma StepSkbMatches(
    cpu: Cpu, table: map<SkbKey, nat>, a: Account<SkbKey>, filed: multiset<SkbKey>, filed': multiset<SkbKey>, op: SkbOp,
    key: SkbKey)
    requires SkbTableMatches(table, filed) && (op.AddSkb? ==> key in table)
    requires filed' + a.filed == filed + SkbEntry(a, table, op, key).filed
    ensures SkbTableMatches(StepSkb(cpu, table, op, key).1, filed')
    ensures table.Keys <= StepSkb(cpu, table, op, key).1.Keys
  {
    if SkbEntry(a, table, op, key) == File(a, key) {
      BagCancel(filed', filed, a.filed, multiset{key});
      OneMoreFiled(table, filed, key);
    } else {
      assert a.filed + multiset{} == a.filed && filed + multiset{} == filed;
      BagCancel(filed', filed, a.filed, multiset{});
    }
  }

  lemma EntriesBalance<K>(a: Account<K>, key: K)
    requires Balanced(a)
    ensures a.pending == multiset{} ==> Balanced(Suffer(a, key)) && |Suffer(a, key).lost| == |a.lost| + 1
    ensures a.pending == multiset{} ==> Suffer(a, key).pending == multiset{key}
    ensures a.pending == multiset{key} ==> Balanced(File(a, key)) && File(a, key).pending == multiset{}
    ensures a.pending == multiset{key} ==>
      Balanced(GiveUp(a, key)) && GiveUp(a, key).pending == multiset{} && |GiveUp(a, key).unfiled| == |a.unfiled| + 1
  {
    if a.pending == multiset{key} {
      assert a.pending - multiset{key} == multiset{};
      assert a.filed + multiset{key} + a.unfiled + multiset{} == a.lost;
      assert a.filed + (a.unfiled + multiset{key}) + multiset{} == a.lost;
    }
    if a.pending == multiset{} {
      assert a.lost + multiset{key} == a.filed + a.unfiled + (a.pending + multiset{key});
    }
  }

  /** A CPU's account follows its counters through `record_skb_loss`. */
  lemma StepSkbKeeps(
    cpu: Cpu, table: map<SkbKey, nat>, siteKeys: set<Site>, skb: Account<SkbKey>, sites: Account<Site>, op: SkbOp,
    key: SkbKey)
    requires CpuMatches(cpu, skb, sites) && cpu.pc == FilingSkb(op, key)
    ensures
      var (cpu', table') := StepSkb(cpu, table, op, key);
      CpuSound(cpu', table'.Keys, siteKeys, SkbEntry(skb, table, op, key), sites)
  {
    EntriesBalance(skb, key);
  }

  lemma StepSiteKeeps(
    cpu: Cpu, skbKeys: set<SkbKey>, table: map<Site, seq<nat>>, books: Books<Site>, c: nat, skb: Account<SkbKey>,
    op: SiteOp, site: Site)
    requires c < |books| && SiteTableMatches(table, books)
    requires CpuMatches(cpu, skb, books[c]) && cpu.pc == FilingSite(op, site)
    ensures
      var (cpu', table') := StepSite(cpu, table, |books|, c, op, site);
      CpuSound(cpu', skbKeys, table'.Keys, skb, SiteEntry(books[c], table, op, site))
  {
    assert SlotsMatch(table, books, site);
    EntriesBalance(books[c], site);
  }

  /** Filing a site raises the CPU's own slot by one. */
  lemma OneMoreSite(table: map<Site, seq<nat>>, books: Books<Site>, c: nat, a: Account<Site>, site: Site)
    requires c < |books| && SiteTableMatches(table, books) && a.filed == books[c].filed + multiset{site}
    requires site in table || |table| < MAX_PROBE_SITES
    ensures c < |Slots(table, |books|, site)|
    ensures SiteTableMatches(
      table[site := SetSlot(Slots(table, |books|, site), c, books[c].filed[site] + 1)], books[c := a])
  {
    assert SlotsMatch(table, books, site);
    var table' := table[site := SetSlot(Slots(table, |books|, site), c, books[c].filed[site] + 1)];
    var books' := books[c := a];
    assert table'.Keys == table.Keys + {site};
    forall x: Site
      ensures SlotsMatch(table', books', x)
    {
      assert SlotsMatch(table, books, x);
    }
  }

  lemma SameFiledSameSlots(table: map<Site, seq<nat>>, books: Books<Site>, c: nat, a: Account<Site>)
    requires c < |books| && SiteTableMatches(table, books) && a.filed == books[c].filed
    ensures SiteTableMatches(table, books[c := a])
  {
    var books' := books[c := a];
    forall x: Site
      ensures SlotsMatch(table, books', x)
    {
      assert SlotsMatch(table, books, x);
    }
  }

  /**
   One operation on the probe-site table. The blind overwrite with 1 is an
   increment, because a CPU that missed the site has nothing in its own slot.
   */
  lemma StepSiteMatches(
    cpu: Cpu, table: map<Site, seq<nat>>, books: Books<Site>, c: nat, op: SiteOp, site: Site)
    requires c < |books| && SiteTableMatches(table, books)
    requires op.AddSite? ==> site in table
    requires op.InsertSite? ==> books[c].filed[site] == 0
    ensures SiteTableMatches(
      StepSite(cpu, table, |books|, c, op, site).1, books[c := SiteEntry(books[c], table, op, site)])
    ensures table.Keys <= StepSite(cpu, table, |books|, c, op, site).1.Keys
  {
    var entry := SiteEntry(books[c], table, op, site);
    if entry == File(books[c], site) {
      assert SlotsMatch(table, books, site);
      OneMoreSite(table, books, c, entry, site);
    } else {
      SameFiledSameSlots(table, books, c, entry);
    }
  }

  lemma {:induction false} FiledUnchanged<K>(books: Books<K>, c: nat, a: Account<K>)
    requires c < |books| && a.filed == books[c].filed
    ensures Filed(books[c := a]) == Filed(books)
  {
    FiledUpdate(books, c, a);
    assert Filed(books) == (Filed(books) + a.filed) - a.filed;
    assert Filed(books[c := a]) == (Filed(books[c := a]) + a.filed) - a.filed;
  }

  lemma FailKeepsInvariant(w: World, s: Step)
    requires Invariant(w) && Enabled(w, s) && s.Fail?
    ensures Invariant(Apply(w, s))
  {
    var (c, k) := (s.c, w.kernel);
    assert CpuSound(k.cpus[c], k.skbLoss.Keys, k.siteLoss.Keys, w.skb[c], w.sites[c]);
    EntriesBalance(w.skb[c], s.key);
    EntriesBalance(w.sites[c], s.key.site);
    FiledUnchanged(w.skb, c, Suffer(w.skb[c], s.key));
    OneCpuMoves(k.cpus, k.skbLoss.Keys, k.siteLoss.Keys, w.skb, w.sites, c,
                Begin(k.cpus[c], s.key), k.skbLoss.Keys, k.siteLoss.Keys, Suffer(w.skb[c], s.key),
                  Suffer(w.sites[c], s.key.site));
    SameFiledSameSlots(k.siteLoss, w.sites, c, Suffer(w.sites[c], s.key.site));
  }

  /** The packet table after one of its operations. */
  lemma SkbStepTable(w: World, c: nat, op: SkbOp, key: SkbKey)
    requires Invariant(w) && c < |w.kernel.cpus| && w.kernel.cpus[c].pc == FilingSkb(op, key)
    ensures
      var table' := StepSkb(w.kernel.cpus[c], w.kernel.skbLoss, op, key).1;
      var entry := SkbEntry(w.skb[c], w.kernel.skbLoss, op, key);
      SkbTableMatches(table', Filed(w.skb[c := entry])) && w.kernel.skbLoss.Keys <= table'.Keys
  {
    var (cpu, table) := (w.kernel.cpus[c], w.kernel.skbLoss);
    var entry := SkbEntry(w.skb[c], table, op, key);
    assert CpuSound(cpu, table.Keys, w.kernel.siteLoss.Keys, w.skb[c], w.sites[c]);
    FiledUpdate(w.skb, c, entry);
    StepSkbMatches(cpu, table, w.skb[c], Filed(w.skb), Filed(w.skb[c := entry]), op, key);
  }

  /** The CPUs after one operation on the packet table. */
  lemma SkbStepCpus(w: World, c: nat, op: SkbOp, key: SkbKey)
    requires Invariant(w) && c < |w.kernel.cpus| && w.kernel.cpus[c].pc == FilingSkb(op, key)
    requires w.kernel.skbLoss.Keys <= StepSkb(w.kernel.cpus[c], w.kernel.skbLoss, op, key).1.Keys
    ensures
      var (cpu', table') := StepSkb(w.kernel.cpus[c], w.kernel.skbLoss, op, key);
      var entry := SkbEntry(w.skb[c], w.kernel.skbLoss, op, key);
      CpusSound(w.kernel.cpus[c := cpu'], table'.Keys, w.kernel.siteLoss.Keys, w.skb[c := entry], w.sites)
  {
    var (k, siteKeys) := (w.kernel, w.kernel.siteLoss.Keys);
    var (cpu', table') := StepSkb(k.cpus[c], k.skbLoss, op, key);
    var entry := SkbEntry(w.skb[c], k.skbLoss, op, key);
    assert CpuSound(k.cpus[c], k.skbLoss.Keys, siteKeys, w.skb[c], w.sites[c]);
    StepSkbKeeps(k.cpus[c], k.skbLoss, siteKeys, w.skb[c], w.sites[c], op, key);
    OneCpuMoves(
      k.cpus, k.skbLoss.Keys, siteKeys, w.skb, w.sites, c, cpu', table'.Keys, siteKeys, entry, w.sites[c]);
    assert w.sites[c := w.sites[c]] == w.sites;
  }

  lemma SkbStepKeepsInvariant(w: World, s: Step)
    requires Invariant(w) && Enabled(w, s) && w.kernel.cpus[s.c].pc.FilingSkb?
    ensures Invariant(Apply(w, s))
  {
    var FilingSkb(op, key) := w.kernel.cpus[s.c].pc;
    SkbStepTable(w, s.c, op, key);
    SkbStepCpus(w, s.c, op, key);
  }

  lemma SiteStepKeepsInvariant(w: World, s: Step)
    requires Invariant(w) && Enabled(w, s) && w.kernel.cpus[s.c].pc.FilingSite?
    ensures Invariant(Apply(w, s))
  {
    var (c, k) := (s.c, w.kernel);
    var FilingSite(op, site) := k.cpus[c].pc;
    var (cpu', table') := StepSite(k.cpus[c], k.siteLoss, |k.cpus|, c, op, site);
    var entry := SiteEntry(w.sites[c], k.siteLoss, op, site);
    assert CpuSound(k.cpus[c], k.skbLoss.Keys, k.siteLoss.Keys, w.skb[c], w.sites[c]);
    StepSiteMatches(k.cpus[c], k.siteLoss, w.sites, c, op, site);
    StepSiteKeeps(k.cpus[c], k.skbLoss.Keys, k.siteLoss, w.sites, c, w.skb[c], op, site);
    OneCpuMoves(k.cpus, k.skbLoss.Keys, k.siteLoss.Keys, w.skb, w.sites, c, cpu', k.skbLoss.Keys, table'.Keys,
      w.skb[c], entry);
    assert w.skb[c := w.skb[c]] == w.skb;
  }

  /** Every step of every CPU, whatever the others are doing, keeps books and tables in agreement. */
  lemma StepKeepsInvariant(w: World, s: Step)
    requires Invariant(w) && Enabled(w, s)
    ensures Invariant(Apply(w, s))
  {
    match w.kernel.cpus[s.c].pc
    case Idle => FailKeepsInvariant(w, s);
    case FilingSkb(_, _) => SkbStepKeepsInvariant(w, s);
    case FilingSite(_, _) => SiteStepKeepsInvariant(w, s);
  }

  // ----- giving up, and getting done -----

  /** A CPU that looks a second time finds the key unless the table is full; and losses are given up only then. */
  ghost predicate GivesUpOnFull(k: Kernel) {
    forall c :: 0 <= c < |k.cpus| ==> CpuGivesUpOnFull(k, k.cpus[c])
  }

  ghost predicate CpuGivesUpOnFull(k: Kernel, cpu: Cpu) {
    && (cpu.pc.FilingSkb? && cpu.pc.skbOp.LookupSkbAgain? ==> cpu.pc.key in k.skbLoss || |k.skbLoss| >= 4096)
    && (cpu.unattributedSkb > 0 ==> |k.skbLoss| >= 4096)
    && (cpu.unattributedReserve > 0 ==> |k.siteLoss| >= 512)
  }

  lemma MoreKeys<K, V>(table: map<K, V>, key: K, value: V)
    ensures |table| <= |table[key := value]|
  {
    var more := table[key := value];
    assert more.Keys == table.Keys + {key};
    assert |table.Keys + {key}| == |table.Keys| + |{key} - table.Keys|;
  }

  /** The tables only grow, whatever a CPU does. */
  lemma TablesGrow(w: World, s: Step)
    requires Enabled(w, s)
    ensures var (k, k') := (w.kernel, Apply(w, s).kernel);
            && |k'.cpus| == |k.cpus| && |k.skbLoss| <= |k'.skbLoss| && |k.siteLoss| <= |k'.siteLoss|
            && (forall key :: key in k.skbLoss ==> key in k'.skbLoss)
            && (forall c :: 0 <= c < |k.cpus| && c != s.c ==> k'.cpus[c] == k.cpus[c])
  {
    var k := w.kernel;
    match k.cpus[s.c].pc
    case Idle =>
    case FilingSkb(op, key) =>
      MoreKeys(k.skbLoss, key, 1);
      MoreKeys(k.skbLoss, key, Count(k.skbLoss, key) + 1);
    case FilingSite(op, site) =>
      var slots := Slots(k.siteLoss, |k.cpus|, site);
      MoreKeys(k.siteLoss, site, SetSlot(slots, s.c, OwnSlot(slots, s.c) + 1));
      MoreKeys(k.siteLoss, site, SetSlot(slots, s.c, 1));
  }

  lemma OwnStepGivesUpOnFull(w: World, s: Step)
    requires Enabled(w, s) && CpuGivesUpOnFull(w.kernel, w.kernel.cpus[s.c])
    ensures CpuGivesUpOnFull(Apply(w, s).kernel, Apply(w, s).kernel.cpus[s.c])
  {
    TablesGrow(w, s);
  }

  lemma StepGivesUpOnFull(w: World, s: Step)
    requires Enabled(w, s) && GivesUpOnFull(w.kernel)
    ensures GivesUpOnFull(Apply(w, s).kernel)
  {
    TablesGrow(w, s);
    OwnStepGivesUpOnFull(w, s);
    var (k, k') := (w.kernel, Apply(w, s).kernel);
    forall c | 0 <= c < |k'.cpus|
      ensures CpuGivesUpOnFull(k', k'.cpus[c])
    {
      assert CpuGivesUpOnFull(k, k.cpus[c]);
    }
  }

  /** How many map operations a CPU may still need before the loss is dealt with. */
  function Remaining(pc: Pc): nat {
    match pc
    case Idle => 0
    case FilingSite(op, _) => if op.LookupSite? then 2 else 1
    case FilingSkb(op, _) =>
      match op
      case AddSkb => 3
      case LookupSkbAgain => 4
      case InsertSkb => 5
      case LookupSkb => 6
  }

  /** Filing a loss takes at most six map operations, whatever the other CPUs do in between. */
  lemma FilingEnds(w: World, s: Step)
    requires Enabled(w, s)
    ensures Remaining(Apply(w, s).kernel.cpus[s.c].pc)
         <= if s.Fail? then 6 else Remaining(w.kernel.cpus[s.c].pc) - 1
    ensures s.Go? ==> Apply(w, s).kernel.cpus[s.c].reserveFailures == w.kernel.cpus[s.c].reserveFailures
  {
  }
}
