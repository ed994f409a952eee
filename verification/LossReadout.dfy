/**
 Runs of the kernel, what is conserved in them, and userspace reading the loss
 tables and counters while they run.

 `skb_loss` and `probe_loss` walk live keys; `stats` reads each CPU's counters.
 A run fixes the interleaving, and every read happens at some moment of the run.
 */
module LossReadout {
  import opened Reliability
  import opened LossBooks
  import opened LossLedger

  // ----- runs of the kernel -----

  ghost predicate Follows(w: World, w': World) {
    exists s :: Enabled(w, s) && w' == Apply(w, s)
  }

  ghost predicate IsRun(run: seq<World>) {
    && |run| > 0 && Initial(run[0])
    && forall t {:trigger run[t + 1]} :: 0 <= t < |run| - 1 ==> Follows(run[t], run[t + 1])
  }

  lemma {:induction false} RunInvariant(run: seq<World>, t: nat)
    requires IsRun(run) && t < |run|
    ensures Invariant(run[t])
  {
    if t == 0 {
      InitialHolds(run[0]);
    } else {
      var u := t - 1;
      RunInvariant(run, u);
      assert Follows(run[u], run[u + 1]);
      var s :| Enabled(run[u], s) && run[u + 1] == Apply(run[u], s);
      StepKeepsInvariant(run[u], s);
    }
  }

  lemma EntriesGrow<K>(a: Account<K>, key: K)
    ensures Grows(a, a) && Grows(a, Suffer(a, key)) && Grows(a, File(a, key)) && Grows(a, GiveUp(a, key))
  {
  }

  lemma OneAccountGrows<K>(books: Books<K>, c: nat, a: Account<K>)
    requires c < |books| && Grows(books[c], a)
    ensures BooksGrow(books, books[c := a]) && BooksGrow(books, books)
  {
  }

  lemma SufferGrows(w: World, c: nat, key: SkbKey)
    requires c < |w.skb| && c < |w.sites|
    ensures BooksGrow(w.skb, w.skb[c := Suffer(w.skb[c], key)])
    ensures BooksGrow(w.sites, w.sites[c := Suffer(w.sites[c], key.site)])
  {
    EntriesGrow(w.skb[c], key);
    EntriesGrow(w.sites[c], key.site);
    OneAccountGrows(w.skb, c, Suffer(w.skb[c], key));
    OneAccountGrows(w.sites, c, Suffer(w.sites[c], key.site));
  }

  lemma SkbFilingGrows(w: World, c: nat, op: SkbOp, key: SkbKey)
    requires c < |w.skb|
    ensures BooksGrow(w.skb, w.skb[c := SkbEntry(w.skb[c], w.kernel.skbLoss, op, key)])
  {
    EntriesGrow(w.skb[c], key);
    OneAccountGrows(w.skb, c, SkbEntry(w.skb[c], w.kernel.skbLoss, op, key));
  }

  lemma SiteFilingGrows(w: World, c: nat, op: SiteOp, site: Site)
    requires c < |w.sites|
    ensures BooksGrow(w.sites, w.sites[c := SiteEntry(w.sites[c], w.kernel.siteLoss, op, site)])
  {
    EntriesGrow(w.sites[c], site);
    OneAccountGrows(w.sites, c, SiteEntry(w.sites[c], w.kernel.siteLoss, op, site));
  }

  lemma StepGrows(w: World, s: Step)
    requires Enabled(w, s)
    ensures BooksGrow(w.skb, Apply(w, s).skb) && BooksGrow(w.sites, Apply(w, s).sites)
  {
    match w.kernel.cpus[s.c].pc
    case Idle => SufferGrows(w, s.c, s.key);
    case FilingSkb(op, key) => SkbFilingGrows(w, s.c, op, key);
    case FilingSite(op, site) => SiteFilingGrows(w, s.c, op, site);
  }

  function SkbHistory(run: seq<World>): (h: History<SkbKey>)
    ensures |h| == |run| && forall t :: 0 <= t < |h| ==> h[t] == run[t].skb
  {
    seq(|run|, t requires 0 <= t < |run| => run[t].skb)
  }

  function SiteHistory(run: seq<World>): (h: History<Site>)
    ensures |h| == |run| && forall t :: 0 <= t < |h| ==> h[t] == run[t].sites
  {
    seq(|run|, t requires 0 <= t < |run| => run[t].sites)
  }

  lemma InvariantBalances(w: World)
    requires Invariant(w)
    ensures AllBalanced(w.skb) && AllBalanced(w.sites)
  {
    forall c | 0 <= c < |w.kernel.cpus|
      ensures Balanced(w.skb[c]) && Balanced(w.sites[c])
    {
      assert CpuSound(w.kernel.cpus[c], w.kernel.skbLoss.Keys, w.kernel.siteLoss.Keys, w.skb[c], w.sites[c]);
    }
  }

  lemma RunIsHistory(run: seq<World>)
    requires IsRun(run)
    ensures IsHistory(SkbHistory(run)) && IsHistory(SiteHistory(run))
  {
    var (h, g) := (SkbHistory(run), SiteHistory(run));
    forall t | 0 <= t < |run|
      ensures AllBalanced(h[t]) && AllBalanced(g[t])
    {
      RunInvariant(run, t);
      InvariantBalances(run[t]);
    }
    forall t | 0 <= t < |run| - 1
      ensures BooksGrow(h[t], h[t + 1]) && BooksGrow(g[t], g[t + 1])
    {
      assert Follows(run[t], run[t + 1]);
      var s :| Enabled(run[t], s) && run[t + 1] == Apply(run[t], s);
      StepGrows(run[t], s);
    }
  }

  // ----- conservation -----

  function ReserveFailures(cpus: seq<Cpu>): nat {
    if cpus == [] then 0 else ReserveFailures(cpus[..|cpus| - 1]) + cpus[|cpus| - 1].reserveFailures
  }

  function UnattributedSkb(cpus: seq<Cpu>): nat {
    if cpus == [] then 0 else UnattributedSkb(cpus[..|cpus| - 1]) + cpus[|cpus| - 1].unattributedSkb
  }

  function UnattributedReserve(cpus: seq<Cpu>): nat {
    if cpus == [] then 0 else UnattributedReserve(cpus[..|cpus| - 1]) + cpus[|cpus| - 1].unattributedReserve
  }

  function InFlight(cpus: seq<Cpu>): nat {
    if cpus == [] then 0 else InFlight(cpus[..|cpus| - 1]) + (if cpus[|cpus| - 1].pc.FilingSkb? then 1 else 0)
  }

  lemma {:induction false} ReserveSum<K>(cpus: seq<Cpu>, books: Books<K>)
    requires |cpus| == |books| && forall c :: 0 <= c < |cpus| ==> cpus[c].reserveFailures == |books[c].lost|
    ensures ReserveFailures(cpus) == |Lost(books)|
  {
    if cpus != [] {
      ReserveSum(cpus[..|cpus| - 1], books[..|books| - 1]);
    }
  }

  lemma {:induction false} UnattributedSkbSum(cpus: seq<Cpu>, books: Books<SkbKey>)
    requires |cpus| == |books| && forall c :: 0 <= c < |cpus| ==> cpus[c].unattributedSkb == |books[c].unfiled|
    ensures UnattributedSkb(cpus) == |Unfiled(books)|
  {
    if cpus != [] {
      UnattributedSkbSum(cpus[..|cpus| - 1], books[..|books| - 1]);
    }
  }

  lemma {:induction false} UnattributedReserveSum(cpus: seq<Cpu>, books: Books<Site>)
    requires |cpus| == |books| && forall c :: 0 <= c < |cpus| ==> cpus[c].unattributedReserve == |books[c].unfiled|
    ensures UnattributedReserve(cpus) == |Unfiled(books)|
  {
    if cpus != [] {
      UnattributedReserveSum(cpus[..|cpus| - 1], books[..|books| - 1]);
    }
  }

  lemma {:induction false} InFlightSum(cpus: seq<Cpu>, books: Books<SkbKey>)
    requires |cpus| == |books| && forall c :: 0 <= c < |cpus| ==> books[c].pending == InFlightSkb(cpus[c].pc)
    ensures InFlight(cpus) == |Pending(books)|
  {
    if cpus != [] {
      InFlightSum(cpus[..|cpus| - 1], books[..|books| - 1]);
    }
  }

  /**
   Nothing is lost twice or forgotten: packet by packet and site by site, true
   losses are what the table holds, what was given up, and what is in flight. So
   table and unattributed counters add up to the total whenever nothing is in flight.
   */
  lemma Conservation(run: seq<World>, t: nat)
    requires IsRun(run) && t < |run|
    ensures
      var w := run[t];
      && (forall key: SkbKey ::
        Lost(w.skb)[key] == Count(w.kernel.skbLoss, key) + Unfiled(w.skb)[key] + Pending(w.skb)[key])
      && |Bag(w.kernel.skbLoss)| + UnattributedSkb(w.kernel.cpus) + InFlight(w.kernel.cpus)
        == ReserveFailures(w.kernel.cpus)
  {
    var w := run[t];
    RunInvariant(run, t);
    TableIsFiled(w);
    CpusMatch(w);
    ReserveSum(w.kernel.cpus, w.skb);
    UnattributedSkbSum(w.kernel.cpus, w.skb);
    InFlightSum(w.kernel.cpus, w.skb);
    var (filed, unfiled, pending) := (Filed(w.skb), Unfiled(w.skb), Pending(w.skb));
    assert Lost(w.skb) == filed + unfiled + pending by {
      InvariantBalances(w);
      BooksBalance(w.skb);
    }
    BagOfThree(filed, unfiled, pending);
  }

  lemma BagOfThree<K(!new)>(a: multiset<K>, b: multiset<K>, c: multiset<K>)
    ensures forall k {:trigger (a + b + c)[k]} :: (a + b + c)[k] == a[k] + b[k] + c[k]
    ensures |a + b + c| == |a| + |b| + |c|
  {
  }

  lemma TableIsFiled(w: World)
    requires Invariant(w)
    ensures Bag(w.kernel.skbLoss) == Filed(w.skb)
  {
    forall key: SkbKey
      ensures Bag(w.kernel.skbLoss)[key] == Filed(w.skb)[key]
    {
      assert Filed(w.skb)[key] == Count(w.kernel.skbLoss, key);
    }
  }

  lemma CpusMatch(w: World)
    requires Invariant(w)
    ensures |w.kernel.cpus| == |w.skb| == |w.sites|
    ensures forall c :: 0 <= c < |w.kernel.cpus| ==> CpuMatches(w.kernel.cpus[c], w.skb[c], w.sites[c])
  {
    forall c | 0 <= c < |w.kernel.cpus|
      ensures CpuMatches(w.kernel.cpus[c], w.skb[c], w.sites[c])
    {
      assert CpuSound(w.kernel.cpus[c], w.kernel.skbLoss.Keys, w.kernel.siteLoss.Keys, w.skb[c], w.sites[c]);
    }
  }

  function SlotSum(slots: seq<nat>): nat {
    if slots == [] then 0 else SlotSum(slots[..|slots| - 1]) + slots[|slots| - 1]
  }

  lemma {:induction false} SlotsAddUp(slots: seq<nat>, books: Books<Site>, site: Site)
    requires |slots| == |books| && forall c :: 0 <= c < |books| ==> slots[c] == books[c].filed[site]
    ensures SlotSum(slots) == Filed(books)[site]
  {
    if books != [] {
      SlotsAddUp(slots[..|slots| - 1], books[..|books| - 1], site);
    }
  }

  /** What `probe_loss` reports for a site: the sum of its per-CPU slots. */
  function SiteCount(table: map<Site, seq<nat>>, site: Site): nat {
    if site in table then SlotSum(table[site]) else 0
  }

  lemma SiteCountIsFiled(w: World, site: Site)
    requires Invariant(w)
    ensures SiteCount(w.kernel.siteLoss, site) == Filed(w.sites)[site]
  {
    assert SlotsMatch(w.kernel.siteLoss, w.sites, site);
    if site in w.kernel.siteLoss {
      SlotsAddUp(w.kernel.siteLoss[site], w.sites, site);
    } else {
      SlotsAddUp(Zeros(|w.sites|), w.sites, site);
      ZerosSum(|w.sites|);
    }
  }

  lemma {:induction false} ZerosSum(n: nat)
    ensures SlotSum(Zeros(n)) == 0
  {
    if n > 0 {
      ZerosSum(n - 1);
      assert Zeros(n)[..n - 1] == Zeros(n - 1);
    }
  }

  /** What `probe_loss` would report of every site at one moment. */
  function SiteTotals(table: map<Site, seq<nat>>): map<Site, nat> {
    map site | site in table :: SlotSum(table[site])
  }

  lemma SiteTotalsAreFiled(w: World)
    requires Invariant(w)
    ensures Bag(SiteTotals(w.kernel.siteLoss)) == Filed(w.sites)
  {
    forall site: Site
      ensures Bag(SiteTotals(w.kernel.siteLoss))[site] == Filed(w.sites)[site]
    {
      SiteCountIsFiled(w, site);
    }
  }

  /** The CPUs inside the failure path. */
  function Busy(cpus: seq<Cpu>): nat {
    if cpus == [] then 0 else Busy(cpus[..|cpus| - 1]) + (if cpus[|cpus| - 1].pc.Idle? then 0 else 1)
  }

  lemma {:induction false} BusySum(cpus: seq<Cpu>, books: Books<Site>)
    requires |cpus| == |books| && forall c :: 0 <= c < |cpus| ==> books[c].pending == InFlightSite(cpus[c].pc)
    ensures Busy(cpus) == |Pending(books)|
  {
    if cpus != [] {
      BusySum(cpus[..|cpus| - 1], books[..|books| - 1]);
    }
  }

  /** The same conservation for the per-CPU probe table with its blind overwrite, site by site and in total. */
  lemma SiteConservation(run: seq<World>, t: nat, site: Site)
    requires IsRun(run) && t < |run|
    ensures
      var w := run[t];
      && Lost(w.sites)[site] == SiteCount(w.kernel.siteLoss, site) + Unfiled(w.sites)[site] + Pending(w.sites)[site]
      && |Bag(SiteTotals(w.kernel.siteLoss))| + UnattributedReserve(w.kernel.cpus) + Busy(w.kernel.cpus)
      == ReserveFailures(w.kernel.cpus)
  {
    var w := run[t];
    RunInvariant(run, t);
    SiteCountIsFiled(w, site);
    SiteTotalsAreFiled(w);
    CpusMatch(w);
    ReserveSum(w.kernel.cpus, w.sites);
    UnattributedReserveSum(w.kernel.cpus, w.sites);
    BusySum(w.kernel.cpus, w.sites);
    var (filed, unfiled, pending) := (Filed(w.sites), Unfiled(w.sites), Pending(w.sites));
    assert Lost(w.sites) == filed + unfiled + pending by {
      InvariantBalances(w);
      BooksBalance(w.sites);
    }
    BagOfThree(filed, unfiled, pending);
  }

  /** A loss is left unattributed only by a table that is really full, of 4096 packets at sites or of 512 sites. */
  lemma {:induction false} GivenUpOnlyWhenFull(run: seq<World>, t: nat)
    requires IsRun(run) && t < |run|
    ensures GivesUpOnFull(run[t].kernel)
    ensures UnattributedSkb(run[t].kernel.cpus) > 0 ==> |run[t].kernel.skbLoss| == 4096
    ensures UnattributedReserve(run[t].kernel.cpus) > 0 ==> |run[t].kernel.siteLoss| == 512
  {
    if t > 0 {
      var u := t - 1;
      GivenUpOnlyWhenFull(run, u);
      assert Follows(run[u], run[u + 1]);
      var s :| Enabled(run[u], s) && run[u + 1] == Apply(run[u], s);
      StepGivesUpOnFull(run[u], s);
    }
    RunInvariant(run, t);
    SomeCpuGaveUp(run[t].kernel.cpus);
  }

  lemma {:induction false} SomeCpuGaveUp(cpus: seq<Cpu>)
    ensures UnattributedSkb(cpus) > 0 ==> exists c :: 0 <= c < |cpus| && cpus[c].unattributedSkb > 0
    ensures UnattributedReserve(cpus) > 0 ==> exists c :: 0 <= c < |cpus| && cpus[c].unattributedReserve > 0
  {
    if cpus != [] {
      var (front, n) := (cpus[..|cpus| - 1], |cpus| - 1);
      SomeCpuGaveUp(front);
      if UnattributedSkb(cpus) > 0 && cpus[n].unattributedSkb == 0 {
        var c :| 0 <= c < |front| && front[c].unattributedSkb > 0;
        assert cpus[c].unattributedSkb > 0;
      }
      if UnattributedReserve(cpus) > 0 && cpus[n].unattributedReserve == 0 {
        var c :| 0 <= c < |front| && front[c].unattributedReserve > 0;
        assert cpus[c].unattributedReserve > 0;
      }
    }
  }

  // ----- readers -----

  method Collect<K(==)>(readings: seq<(K, nat)>) returns (losses: map<K, nat>)
    ensures losses == Latest(readings)
  {
    losses := map[];
    for n := 0 to |readings|
      invariant losses == Latest(readings[..n])
    {
      assert readings[..n + 1][..n] == readings[..n];
      var (key, count) := readings[n];
      if count != 0 {
        losses := losses[key := count];
      }
    }
    assert readings[..|readings|] == readings;
  }

  /** A strict order on ledger lines that tells any two sites apart. */
  ghost predicate OrdersLines<K(!new)>(before: (Line<K>, Line<K>) -> bool) {
    && (forall a: Line<K>, b: Line<K>, c: Line<K> :: before(a, b) && before(b, c) ==> before(a, c))
    && (forall a: Line<K>, b: Line<K> :: a.site != b.site ==> before(a, b) || before(b, a))
  }

  /** The line of `losses` that no other line comes before. */
  ghost predicate IsFirst<K>(losses: map<K, nat>, keys: set<K>, before: (Line<K>, Line<K>) -> bool, key: K)
    requires keys <= losses.Keys
  {
    key in keys && forall k :: k in keys && k != key ==> before(Line(key, losses[key]), Line(k, losses[k]))
  }

  lemma {:induction false} SomeFirst<K(!new)>(
    losses: map<K, nat>, keys: set<K>, before: (Line<K>, Line<K>) -> bool) returns (first: K)
    requires keys != {} && keys <= losses.Keys && OrdersLines(before)
    ensures IsFirst(losses, keys, before, first)
    decreases |keys|
  {
    first :| first in keys;
    if keys != {first} {
      var other := SomeFirst(losses, keys - {first}, before);
      if before(Line(other, losses[other]), Line(first, losses[first])) {
        first := other;
      }
    }
  }

  /** Everything but `remaining` is listed in order, and comes before it. */
  ghost predicate Listed<K(!new)>(
    losses: map<K, nat>, ledger: Ledger<K>, remaining: set<K>, before: (Line<K>, Line<K>) -> bool)
  {
    && remaining <= losses.Keys
    && (forall i :: 0 <= i < |ledger| ==>
          ledger[i].site in losses && ledger[i].site !in remaining && ledger[i].count == losses[ledger[i].site])
    && (forall k :: k in losses && k !in remaining ==> Line(k, losses[k]) in ledger)
    && (forall i, j :: 0 <= i < j < |ledger| ==> ledger[i].site != ledger[j].site && before(ledger[i], ledger[j]))
    && (forall i, k :: 0 <= i < |ledger| && k in remaining ==> before(ledger[i], Line(k, losses[k])))
  }

  lemma ListNext<K(!new)>(
    losses: map<K, nat>, ledger: Ledger<K>, remaining: set<K>, before: (Line<K>, Line<K>) -> bool, key: K)
    requires Listed(losses, ledger, remaining, before) && IsFirst(losses, remaining, before, key)
    ensures Listed(losses, ledger + [Line(key, losses[key])], remaining - {key}, before)
  {
    var ledger' := ledger + [Line(key, losses[key])];
    assert ledger'[|ledger|] == Line(key, losses[key]);
    forall k | k in losses && k !in remaining
      ensures Line(k, losses[k]) in ledger'
    {
      assert Line(k, losses[k]) in ledger;
    }
  }

  lemma ListedAll<K(!new)>(losses: map<K, nat>, ledger: Ledger<K>, before: (Line<K>, Line<K>) -> bool)
    requires Listed(losses, ledger, {}, before)
    ensures Losses(ledger) == Bag(losses)
  {
    forall k: K
      ensures Losses(ledger)[k] == Bag(losses)[k]
    {
      LossesAt(ledger, k);
      if k in losses {
        CountOfLine(ledger, Line(k, losses[k]));
      } else {
        LineOfCount(ledger, k);
      }
    }
  }

  /** The ledger of a table of losses: one line per key, in the order `before`. */
  method ToLedger<K(==,!new)>(losses: map<K, nat>, before: (Line<K>, Line<K>) -> bool) returns (ledger: Ledger<K>)
    requires OrdersLines(before)
    ensures Losses(ledger) == Bag(losses) && UniqueSites(ledger)
    ensures forall i, j :: 0 <= i < j < |ledger| ==> before(ledger[i], ledger[j])
  {
    ledger := [];
    var remaining := losses.Keys;
    while remaining != {}
      invariant Listed(losses, ledger, remaining, before)
      decreases remaining
    {
      ghost var first := SomeFirst(losses, remaining, before);
      var key :| key in remaining
              && forall k :: k in remaining && k != key ==> before(Line(key, losses[key]), Line(k, losses[k]));
      ListNext(losses, ledger, remaining, before, key);
      ledger := ledger + [Line(key, losses[key])];
      remaining := remaining - {key};
    }
    ListedAll(losses, ledger, before);
  }

  /** The packet ledger is listed in key order. */
  predicate ByKey(a: Line<SkbKey>, b: Line<SkbKey>) {
    KeyLess(a.site, b.site)
  }

  /** The probe breakdown is listed heaviest first, then by site. */
  predicate HeaviestFirst(a: Line<Site>, b: Line<Site>) {
    a.count > b.count || (a.count == b.count && SiteLess(a.site, b.site))
  }

  /** What a walk over the packet table returns: the counts it saw, each at its own moment. */
  ghost function SkbReadings(run: seq<World>, samples: seq<Sample<SkbKey>>): (r: seq<(SkbKey, nat)>)
    requires forall i :: 0 <= i < |samples| ==> samples[i].time < |run|
    ensures |r| == |samples|
    ensures forall i :: 0 <= i < |r| ==>
      r[i] == (samples[i].key, Count(run[samples[i].time].kernel.skbLoss, samples[i].key))
  {
    seq(|samples|, i requires 0 <= i < |samples| =>
      (samples[i].key, Count(run[samples[i].time].kernel.skbLoss, samples[i].key)))
  }

  /** What a walk over the probe table returns: the sum of each site's per-CPU slots. */
  ghost function SiteReadings(run: seq<World>, samples: seq<Sample<Site>>): (r: seq<(Site, nat)>)
    requires forall i :: 0 <= i < |samples| ==> samples[i].time < |run|
    ensures |r| == |samples|
    ensures forall i :: 0 <= i < |r| ==>
      r[i] == (samples[i].key, SiteCount(run[samples[i].time].kernel.siteLoss, samples[i].key))
  {
    seq(|samples|, i requires 0 <= i < |samples| =>
      (samples[i].key, SiteCount(run[samples[i].time].kernel.siteLoss, samples[i].key)))
  }

  /** Present keys only, in any order and perhaps repeatedly, and no key present at the start is missed. */
  ghost predicate WalksSkb(run: seq<World>, samples: seq<Sample<SkbKey>>, from: nat, to: nat) {
    && from <= to < |run|
    && (forall i :: 0 <= i < |samples| ==>
          from <= samples[i].time <= to && samples[i].key in run[samples[i].time].kernel.skbLoss)
    && (forall key :: key in run[from].kernel.skbLoss ==> exists i :: 0 <= i < |samples| && samples[i].key == key)
  }

  ghost predicate WalksSites(run: seq<World>, samples: seq<Sample<Site>>, from: nat, to: nat) {
    && from <= to < |run|
    && (forall i :: 0 <= i < |samples| ==>
          from <= samples[i].time <= to && samples[i].key in run[samples[i].time].kernel.siteLoss)
    && (forall site :: site in run[from].kernel.siteLoss ==> exists i :: 0 <= i < |samples| && samples[i].key == site)
  }

  lemma SkbWalkIsWalk(run: seq<World>, samples: seq<Sample<SkbKey>>, from: nat, to: nat)
    requires IsRun(run) && WalksSkb(run, samples, from, to)
    ensures IsHistory(SkbHistory(run)) && IsWalk(SkbHistory(run), samples, from, to)
    ensures SkbReadings(run, samples) == Readings(SkbHistory(run), samples)
  {
    RunIsHistory(run);
    RunInvariant(run, from);
    forall i | 0 <= i < |samples|
      ensures SkbReadings(run, samples)[i] == Readings(SkbHistory(run), samples)[i]
    {
      RunInvariant(run, samples[i].time);
    }
    forall key | key in Filed(SkbHistory(run)[from])
      ensures exists i :: 0 <= i < |samples| && samples[i].key == key
    {
      assert Filed(run[from].skb)[key] == Count(run[from].kernel.skbLoss, key);
    }
  }

  lemma SiteWalkIsWalk(run: seq<World>, samples: seq<Sample<Site>>, from: nat, to: nat)
    requires IsRun(run) && WalksSites(run, samples, from, to)
    ensures IsHistory(SiteHistory(run)) && IsWalk(SiteHistory(run), samples, from, to)
    ensures SiteReadings(run, samples) == Readings(SiteHistory(run), samples)
  {
    RunIsHistory(run);
    RunInvariant(run, from);
    forall i | 0 <= i < |samples|
      ensures SiteReadings(run, samples)[i] == Readings(SiteHistory(run), samples)[i]
    {
      RunInvariant(run, samples[i].time);
      SiteCountIsFiled(run[samples[i].time], samples[i].key);
    }
    forall site | site in Filed(SiteHistory(run)[from])
      ensures exists i :: 0 <= i < |samples| && samples[i].key == site
    {
      SiteCountIsFiled(run[from], site);
      assert site in run[from].kernel.siteLoss;
    }
  }
}
