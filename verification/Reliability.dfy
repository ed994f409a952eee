/** The reliability record of a capture footer and the verdict read from it. */
module Reliability {
  import opened Common

  /** A kernel probe is named by its instruction pointer, a TC or XDP probe by its program id; the other field is 0. */
  datatype Site = Site(functionIp: nat, programId: nat)

  datatype SkbKey = SkbKey(identity: nat, site: Site)

  predicate SiteLess(a: Site, b: Site) {
    a.functionIp < b.functionIp || (a.functionIp == b.functionIp && a.programId < b.programId)
  }

  predicate KeyLess(a: SkbKey, b: SkbKey) {
    a.identity < b.identity || (a.identity == b.identity && SiteLess(a.site, b.site))
  }

  /** A line of a loss ledger: a probe site, or a packet at a probe site. */
  datatype Line<K> = Line(site: K, count: nat)

  type Ledger<K> = seq<Line<K>>

  ghost predicate UniqueSites<K>(l: Ledger<K>) {
    forall i, j :: 0 <= i < j < |l| ==> l[i].site != l[j].site
  }

  /** A CPU that lost events keeps its line for either kind of loss. */
  datatype CpuLine = CpuLine(cpu: nat, reserveFailures: nat, readFailures: nat)

  datatype Reliability = Reliability(
    reserveFailures: nat, readFailures: nat, filteredEvents: nat, recursionMisses: nat,
    decodeFailures: nat, enrichmentFailures: nat, outputFailures: nat,
    lossByCpu: seq<CpuLine>, lossByProbe: Ledger<Site>, unattributedReserveFailures: nat,
    lossBySkb: Ledger<SkbKey>, unattributedSkbLosses: nat)
  {
    predicate Complete() {
      && reserveFailures == 0
      && recursionMisses == 0 && decodeFailures == 0 && enrichmentFailures == 0 && outputFailures == 0
    }

    predicate LossIsFullyAttributed() {
      && unattributedSkbLosses == 0
      && recursionMisses == 0 && decodeFailures == 0 && enrichmentFailures == 0 && outputFailures == 0
    }
  }

  datatype SkbEvidence = NothingLost | ObservationsLost(count: nat) | NotKnown

  function LossesForSkb(ledger: Ledger<SkbKey>, identity: nat): nat {
    if ledger == [] then 0
    else (if ledger[0].site.identity == identity then ledger[0].count else 0) + LossesForSkb(ledger[1..], identity)
  }

  /** The ruling on one packet; no footer means no ruling. */
  function Verdict(footer: Option<Reliability>, identity: nat): SkbEvidence {
    match footer
    case None => NotKnown
    case Some(reliability) =>
      if !reliability.LossIsFullyAttributed() then NotKnown
      else
        var lost := LossesForSkb(reliability.lossBySkb, identity);
        if lost == 0 then NothingLost else ObservationsLost(lost)
  }

  /** No ruling without a footer, or when a loss of any kind could not be filed against a packet; then for no packet. */
  lemma WithheldExactly(footer: Option<Reliability>, identity: nat)
    ensures Verdict(footer, identity) == NotKnown <==>
      || footer == None
      || footer.value.unattributedSkbLosses > 0 || footer.value.recursionMisses > 0
      || footer.value.decodeFailures > 0 || footer.value.enrichmentFailures > 0 || footer.value.outputFailures > 0
  {
  }

  // ----- a ledger as a bag of losses -----

  ghost function Copies<K(!new)>(site: K, count: nat): (b: multiset<K>)
    ensures |b| == count && forall k :: b[k] == if k == site then count else 0
  {
    var none: multiset<K> := multiset{};
    none[site := count]
  }

  ghost function Losses<K(!new)>(l: Ledger<K>): multiset<K> {
    if l == [] then multiset{} else Copies(l[0].site, l[0].count) + Losses(l[1..])
  }

  function Total<K>(l: Ledger<K>): nat {
    if l == [] then 0 else l[0].count + Total(l[1..])
  }

  lemma {:induction false} TotalIsLosses<K(!new)>(l: Ledger<K>)
    ensures |Losses(l)| == Total(l)
  {
    if l != [] {
      TotalIsLosses(l[1..]);
    }
  }

  /** The count of the first line for a site; none means nothing was lost there. */
  function CountAt<K(==)>(l: Ledger<K>, site: K): nat {
    if l == [] then 0 else if l[0].site == site then l[0].count else CountAt(l[1..], site)
  }

  lemma {:induction false} CountOfLine<K>(l: Ledger<K>, line: Line<K>)
    requires UniqueSites(l) && line in l
    ensures CountAt(l, line.site) == line.count
  {
    if line != l[0] {
      var i :| 1 <= i < |l| && l[i] == line;
      assert l[1..][i - 1] == line;
      CountOfLine(l[1..], line);
    }
  }

  lemma {:induction false} LineOfCount<K>(l: Ledger<K>, site: K)
    ensures CountAt(l, site) > 0 ==> Line(site, CountAt(l, site)) in l
  {
    if l != [] && l[0].site != site {
      LineOfCount(l[1..], site);
    }
  }

  lemma FirstSiteOnce<K>(l: Ledger<K>)
    requires UniqueSites(l) && l != []
    ensures CountAt(l[1..], l[0].site) == 0
  {
    LineOfCount(l[1..], l[0].site);
    assert forall i :: 0 <= i < |l[1..]| ==> l[1..][i] == l[i + 1] && l[i + 1].site != l[0].site;
  }

  lemma {:induction false} LossesAt<K(!new)>(l: Ledger<K>, site: K)
    requires UniqueSites(l)
    ensures Losses(l)[site] == CountAt(l, site)
  {
    if l != [] {
      LossesAt(l[1..], site);
      FirstSiteOnce(l);
    }
  }

  /** The losses of one packet in a bag of losses. */
  ghost function Of(b: multiset<SkbKey>, identity: nat): (r: multiset<SkbKey>)
    ensures forall k :: r[k] == if k.identity == identity then b[k] else 0
    decreases |b|
  {
    if b == multiset{} then multiset{}
    else
      var k :| k in b;
      var rest := b[k := 0];
      assert b == rest + Copies(k, b[k]);
      Of(rest, identity) + (if k.identity == identity then Copies(k, b[k]) else multiset{})
  }

  lemma OfOne(key: SkbKey, identity: nat)
    ensures |Of(multiset{key}, identity)| == if key.identity == identity then 1 else 0
  {
    var part := Of(multiset{key}, identity);
    if key.identity == identity {
      assert part == multiset{key};
    } else {
      assert part == multiset{};
    }
  }

  lemma OfAdds(b: multiset<SkbKey>, key: SkbKey, count: nat, identity: nat)
    ensures Of(Copies(key, count) + b, identity)
         == (if key.identity == identity then Copies(key, count) else multiset{}) + Of(b, identity)
  {
  }

  lemma OfGrows(a: multiset<SkbKey>, b: multiset<SkbKey>, identity: nat)
    requires a <= b
    ensures Of(a, identity) <= Of(b, identity) && |Of(a, identity)| <= |Of(b, identity)|
  {
    var (mine, all) := (Of(a, identity), Of(b, identity));
    assert all == mine + (all - mine);
  }

  /** The losses of a packet are the entries of the ledger that name it. */
  lemma {:induction false} LedgerSums(ledger: Ledger<SkbKey>, identity: nat)
    ensures LossesForSkb(ledger, identity) == |Of(Losses(ledger), identity)|
  {
    if ledger != [] {
      LedgerSums(ledger[1..], identity);
      OfAdds(Losses(ledger[1..]), ledger[0].site, ledger[0].count, identity);
    }
  }

  lemma SizeOfDifference<K>(a: multiset<K>, b: multiset<K>)
    requires a <= b
    ensures |b - a| == |b| - |a| && |a| <= |b|
  {
    assert b == a + (b - a);
  }

  lemma OfMinus(a: multiset<SkbKey>, b: multiset<SkbKey>, identity: nat)
    requires a <= b
    ensures |Of(b - a, identity)| == |Of(b, identity)| - |Of(a, identity)|
  {
    OfGrows(a, b, identity);
    var (mine, all) := (Of(a, identity), Of(b, identity));
    forall k
      ensures Of(b - a, identity)[k] == (all - mine)[k]
    {
    }
    assert Of(b - a, identity) == all - mine;
    SizeOfDifference(mine, all);
  }

  lemma OfWithout(a: multiset<SkbKey>, part: multiset<SkbKey>, gone: nat, identity: nat)
    requires part == Of(a, gone)
    ensures |Of(a - part, identity)| == if identity == gone then 0 else |Of(a, identity)|
  {
    var (left, all) := (Of(a - part, identity), Of(a, identity));
    if identity == gone {
      assert forall k :: left[k] == 0;
      assert left == multiset{};
    } else {
      assert forall k :: left[k] == all[k];
      assert left == all;
    }
  }

  lemma OfIsPart(a: multiset<SkbKey>, part: multiset<SkbKey>, identity: nat)
    requires part == Of(a, identity)
    ensures |a - part| == |a| - |part|
    ensures forall k :: k in a && k.identity == identity ==> |part| > 0
  {
    assert part <= a;
    SizeOfDifference(part, a);
    forall k | k in a && k.identity == identity
      ensures |part| > 0
    {
      assert k in part;
    }
  }

  /** Bags that count the same for every packet have the same size. */
  lemma {:induction false} PacketwiseSizes(a: multiset<SkbKey>, b: multiset<SkbKey>)
    requires forall identity: nat :: |Of(a, identity)| == |Of(b, identity)|
    ensures |a| == |b|
    decreases |a| + |b|
  {
    if a == multiset{} && b == multiset{} {
    } else {
      var k :| k in a || k in b;
      var (mine, yours) := (Of(a, k.identity), Of(b, k.identity));
      OfIsPart(a, mine, k.identity);
      OfIsPart(b, yours, k.identity);
      forall identity: nat
        ensures |Of(a - mine, identity)| == |Of(b - yours, identity)|
      {
        OfWithout(a, mine, k.identity, identity);
        OfWithout(b, yours, k.identity, identity);
      }
      PacketwiseSizes(a - mine, b - yours);
    }
  }

  /** Bags nested in one another agree packet by packet only if they are equal. */
  lemma PacketwiseEqual(a: multiset<SkbKey>, b: multiset<SkbKey>)
    requires a <= b && forall identity: nat :: |Of(a, identity)| == |Of(b, identity)|
    ensures a == b
  {
    forall k
      ensures a[k] == b[k]
    {
      var (mine, all) := (Of(a, k.identity), Of(b, k.identity));
      assert mine <= all;
      assert all == mine + (all - mine);
      assert |all - mine| == 0;
      assert mine[k] == a[k] && all[k] == b[k];
    }
  }
}
