/**
 Double-entry books for lost observations.

 Every CPU keeps an account of the losses it suffered: each is filed in the
 shared table, given up as unattributed, or still being filed. A reader samples
 the shared table key by key and then the CPU counters one by one, while the
 CPUs keep running. Everything here is independent of what a key names.
 */
module LossBooks {
  datatype Account<!K> = Account(lost: multiset<K>, filed: multiset<K>, unfiled: multiset<K>, pending: multiset<K>)

  /** One account per CPU. */
  type Books<!K> = seq<Account<K>>

  ghost predicate Balanced<K>(a: Account<K>) {
    a.lost == a.filed + a.unfiled + a.pending
  }

  ghost predicate AllBalanced<K>(books: Books<K>) {
    forall c :: 0 <= c < |books| ==> Balanced(books[c])
  }

  function Lost<K>(books: Books<K>): multiset<K> {
    if books == [] then multiset{} else Lost(books[..|books| - 1]) + books[|books| - 1].lost
  }

  function Filed<K>(books: Books<K>): multiset<K> {
    if books == [] then multiset{} else Filed(books[..|books| - 1]) + books[|books| - 1].filed
  }

  function Unfiled<K>(books: Books<K>): multiset<K> {
    if books == [] then multiset{} else Unfiled(books[..|books| - 1]) + books[|books| - 1].unfiled
  }

  function Pending<K>(books: Books<K>): multiset<K> {
    if books == [] then multiset{} else Pending(books[..|books| - 1]) + books[|books| - 1].pending
  }

  /** Balanced accounts add up to balanced books. */
  lemma {:induction false} BooksBalance<K>(books: Books<K>)
    requires AllBalanced(books)
    ensures Lost(books) == Filed(books) + Unfiled(books) + Pending(books)
  {
    if books != [] {
      BooksBalance(books[..|books| - 1]);
    }
  }

  lemma BagShift<K>(a: multiset<K>, b: multiset<K>, c: multiset<K>, d: multiset<K>, more: multiset<K>)
    requires a + b == c + d
    ensures (a + more) + b == (c + more) + d
  {
    assert (a + more) + b == (a + b) + more;
    assert (c + more) + d == (c + d) + more;
  }

  lemma {:induction false} FiledUpdate<K>(books: Books<K>, c: nat, a: Account<K>)
    requires c < |books|
    ensures Filed(books[c := a]) + books[c].filed == Filed(books) + a.filed
  {
    var last := |books| - 1;
    if c == last {
      assert books[c := a][..last] == books[..last];
    } else {
      FiledUpdate(books[..last], c, a);
      assert books[c := a][..last] == books[..last][c := a] && books[c := a][last] == books[last];
      BagShift(Filed(books[..last][c := a]), books[c].filed, Filed(books[..last]), a.filed, books[last].filed);
    }
  }

  /** Entries are only ever added to an account; filing moves an entry out of `pending`. */
  ghost predicate Grows<K>(a: Account<K>, b: Account<K>) {
    a.lost <= b.lost && a.filed <= b.filed && a.unfiled <= b.unfiled
  }

  ghost predicate BooksGrow<K>(books: Books<K>, later: Books<K>) {
    |books| == |later| && forall c :: 0 <= c < |books| ==> Grows(books[c], later[c])
  }

  lemma {:induction false} GrowsTotals<K>(books: Books<K>, later: Books<K>)
    requires BooksGrow(books, later)
    ensures Lost(books) <= Lost(later) && Filed(books) <= Filed(later) && Unfiled(books) <= Unfiled(later)
  {
    if books != [] {
      GrowsTotals(books[..|books| - 1], later[..|later| - 1]);
    }
  }

  // ----- histories and readers -----

  type History<!K> = seq<Books<K>>

  ghost predicate IsHistory<K>(h: History<K>) {
    && (forall t :: 0 <= t < |h| ==> AllBalanced(h[t]))
    && (forall t {:trigger h[t + 1]} :: 0 <= t < |h| - 1 ==> BooksGrow(h[t], h[t + 1]))
  }

  lemma {:induction false} GrowsOver<K>(h: History<K>, t: nat, u: nat)
    requires IsHistory(h) && t <= u < |h|
    ensures BooksGrow(h[t], h[u])
    decreases u - t
  {
    if t < u {
      GrowsOver(h, t, u - 1);
      var v := u - 1;
      assert BooksGrow(h[v], h[v + 1]);
    }
  }

  /**
   What a reader came away with: the table between times `from` and `to`, then
   CPU `c`'s counters at time `at[c]`.
   */
  datatype Readout<!K> = Readout(ledger: multiset<K>, from: nat, to: nat, at: seq<nat>)

  /** The books as the counters were read, each CPU at its own time. */
  ghost function Counted<K>(h: History<K>, at: seq<nat>): (b: Books<K>)
    requires forall c :: 0 <= c < |at| ==> at[c] < |h| && c < |h[at[c]]|
    ensures |b| == |at| && forall c :: 0 <= c < |at| ==> b[c] == h[at[c]][c]
  {
    seq(|at|, c requires 0 <= c < |at| => h[at[c]][c])
  }

  /**
   A key is read, perhaps more than once, some time between `from` and `to`; a
   key already present at `from` is not missed. Counters are read after the table.
   */
  ghost predicate IsReadout<K>(h: History<K>, r: Readout<K>) {
    && IsHistory(h) && r.from <= r.to < |h|
    && |r.at| == |h[0]| && (forall c :: 0 <= c < |r.at| ==> r.to <= r.at[c] < |h|)
    && Filed(h[r.from]) <= r.ledger <= Filed(h[r.to])
  }

  lemma ReadoutShape<K>(h: History<K>, r: Readout<K>)
    requires IsReadout(h, r)
    ensures forall c :: 0 <= c < |r.at| ==> c < |h[r.at[c]]|
    ensures |h[r.from]| == |h[r.to]| == |r.at|
  {
    forall c | 0 <= c < |r.at|
      ensures |h[r.at[c]]| == |h[0]|
    {
      GrowsOver(h, 0, r.at[c]);
    }
    GrowsOver(h, 0, r.from);
    GrowsOver(h, 0, r.to);
  }

  ghost function CountedBy<K>(h: History<K>, r: Readout<K>): (b: Books<K>)
    requires IsReadout(h, r)
    ensures |b| == |r.at|
    ensures forall c :: 0 <= c < |r.at| ==> r.at[c] < |h| && c < |h[r.at[c]]| && b[c] == h[r.at[c]][c]
  {
    ReadoutShape(h, r);
    Counted(h, r.at)
  }

  lemma OneCpuCounted<K>(h: History<K>, r: Readout<K>)
    requires IsReadout(h, r) && |r.at| == 1
    ensures |h[r.at[0]]| > 0 && Lost(CountedBy(h, r)) == h[r.at[0]][0].lost
  {
    assert CountedBy(h, r)[..0] == [];
  }

  /**
   Reading attribution before totals never over-attributes, key by key: whatever
   the interleaving, the ledger and the unattributed losses fit inside the losses
   the counters report.
   */
  lemma LedgerNeverExceeds<K>(h: History<K>, r: Readout<K>)
    requires IsReadout(h, r)
    ensures r.ledger + Unfiled(CountedBy(h, r)) <= Lost(CountedBy(h, r))
    ensures |r.ledger| + |Unfiled(CountedBy(h, r))| <= |Lost(CountedBy(h, r))|
  {
    var counted := CountedBy(h, r);
    ReadoutShape(h, r);
    forall c | 0 <= c < |r.at|
      ensures Grows(h[r.to][c], counted[c]) && Balanced(counted[c])
    {
      GrowsOver(h, r.to, r.at[c]);
    }
    GrowsTotals(h[r.to], counted);
    BooksBalance(counted);
    assert r.ledger <= Filed(counted);
    SmallerBag(r.ledger + Unfiled(counted), Lost(counted));
  }

  lemma SmallerBag<K>(a: multiset<K>, b: multiset<K>)
    requires a <= b
    ensures |a| <= |b| && (|a| == |b| ==> a == b)
  {
    assert b == a + (b - a);
  }

  /**
   The footer's own arithmetic decides exactness: the ledger is complete for the
   counted losses exactly when ledger and unattributed losses add up to the total.
   */
  lemma ExactIffSumsAgree<K>(h: History<K>, r: Readout<K>)
    requires IsReadout(h, r)
    ensures r.ledger + Unfiled(CountedBy(h, r)) == Lost(CountedBy(h, r))
       <==> |r.ledger| + |Unfiled(CountedBy(h, r))| == |Lost(CountedBy(h, r))|
  {
    LedgerNeverExceeds(h, r);
    SmallerBag(r.ledger + Unfiled(CountedBy(h, r)), Lost(CountedBy(h, r)));
  }

  /** One readout has ended before the next begins. */
  ghost predicate Successive<K>(h: History<K>, r: Readout<K>, later: Readout<K>) {
    && IsReadout(h, r) && IsReadout(h, later) && r.to <= later.from
    && forall c :: 0 <= c < |r.at| ==> r.at[c] <= later.from
  }

  /** Nothing a readout reports is less in the next. */
  lemma ReadoutsGrow<K>(h: History<K>, r: Readout<K>, later: Readout<K>)
    requires Successive(h, r, later)
    ensures r.ledger <= Filed(h[later.from]) <= later.ledger
    ensures Lost(CountedBy(h, r)) <= Lost(CountedBy(h, later))
    ensures Unfiled(CountedBy(h, r)) <= Unfiled(CountedBy(h, later))
  {
    ReadoutShape(h, r);
    ReadoutShape(h, later);
    forall c | 0 <= c < |r.at|
      ensures Grows(CountedBy(h, r)[c], CountedBy(h, later)[c])
    {
      GrowsOver(h, r.at[c], later.at[c]);
    }
    GrowsTotals(CountedBy(h, r), CountedBy(h, later));
    GrowsOver(h, r.to, later.from);
    GrowsTotals(h[r.to], h[later.from]);
  }

  /** Losses settled before the readout began are all reported, if none is unattributed. */
  lemma SettledIsReported<K>(h: History<K>, r: Readout<K>)
    requires IsReadout(h, r) && Unfiled(CountedBy(h, r)) == multiset{}
    ensures Lost(h[r.from]) - Pending(h[r.from]) <= r.ledger
  {
    var counted := CountedBy(h, r);
    ReadoutShape(h, r);
    forall c | 0 <= c < |r.at|
      ensures Grows(h[r.from][c], counted[c])
    {
      GrowsOver(h, r.from, r.at[c]);
    }
    GrowsTotals(h[r.from], counted);
    BooksBalance(h[r.from]);
    assert Filed(h[r.from]) <= r.ledger;
  }

  /** No loss was being filed when the readout began, and none has been suffered since. */
  ghost predicate Quiet<K>(h: History<K>, r: Readout<K>)
    requires IsReadout(h, r)
  {
    Pending(h[r.from]) == multiset{} && Lost(CountedBy(h, r)) == Lost(h[r.from])
  }

  /** A quiet readout accounts for every loss. */
  lemma QuietIsExact<K>(h: History<K>, r: Readout<K>)
    requires IsReadout(h, r) && Quiet(h, r)
    ensures r.ledger + Unfiled(CountedBy(h, r)) == Lost(CountedBy(h, r))
  {
    var counted := CountedBy(h, r);
    ReadoutShape(h, r);
    forall c | 0 <= c < |r.at|
      ensures Grows(h[r.from][c], counted[c])
    {
      GrowsOver(h, r.from, r.at[c]);
    }
    GrowsTotals(h[r.from], counted);
    BooksBalance(h[r.from]);
    LedgerNeverExceeds(h, r);
  }

  // ----- walking a live table -----

  /** A table of counts as a bag of losses. */
  ghost function Bag<K(!new)>(table: map<K, nat>): (b: multiset<K>)
    ensures forall k :: b[k] == if k in table then table[k] else 0
    decreases |table|
  {
    if table == map[] then multiset{}
    else
      var k :| k in table;
      assert |table - {k}| < |table| by { assert table.Keys == (table - {k}).Keys + {k}; }
      Bag(table - {k})[k := table[k]]
  }

  /** Readings keyed by what they name: a revisit overwrites, a zero is not a loss. */
  function Latest<K(==)>(readings: seq<(K, nat)>): map<K, nat> {
    if readings == [] then map[]
    else
      var (key, count) := readings[|readings| - 1];
      var before := Latest(readings[..|readings| - 1]);
      if count != 0 then before[key := count] else before
  }

  lemma {:induction false} LatestIsSomeReading<K>(readings: seq<(K, nat)>, key: K)
    ensures key in Latest(readings) <==> exists i :: 0 <= i < |readings| && readings[i].0 == key && readings[i].1 > 0
    ensures key in Latest(readings) ==> exists i :: 0 <= i < |readings| && readings[i] == (key, Latest(readings)[key])
  {
    if readings != [] {
      var front, last := readings[..|readings| - 1], readings[|readings| - 1];
      LatestIsSomeReading(front, key);
      assert readings[|readings| - 1] == last;
      assert forall i :: 0 <= i < |front| ==> readings[i] == front[i];
    }
  }

  /** The last reading of a key that is not zero is the one that counts. */
  lemma {:induction false} LastReadingCounts<K>(readings: seq<(K, nat)>, i: nat)
    requires i < |readings| && readings[i].1 > 0
    requires forall j :: i < j < |readings| ==> readings[j].0 != readings[i].0 || readings[j].1 == 0
    ensures readings[i].0 in Latest(readings) && Latest(readings)[readings[i].0] == readings[i].1
  {
    if i < |readings| - 1 {
      LastReadingCounts(readings[..|readings| - 1], i);
    }
  }

  /** A reading of `key` taken from a table at moment `time`. */
  datatype Sample<K> = Sample(key: K, time: nat)

  /**
   A walk over the keys of the table: it visits present keys only, in any order
   and perhaps repeatedly, and misses no key present when it starts.
   */
  ghost predicate IsWalk<K(!new)>(h: History<K>, samples: seq<Sample<K>>, from: nat, to: nat) {
    && from <= to < |h|
    && (forall i :: 0 <= i < |samples| ==> from <= samples[i].time <= to)
    && (forall key :: key in Filed(h[from]) ==> exists i :: 0 <= i < |samples| && samples[i].key == key)
  }

  /** The counts the walk sees, each at its own moment. */
  ghost function Readings<K>(h: History<K>, samples: seq<Sample<K>>): (r: seq<(K, nat)>)
    requires forall i :: 0 <= i < |samples| ==> samples[i].time < |h|
    ensures |r| == |samples|
    ensures forall i :: 0 <= i < |r| ==> r[i] == (samples[i].key, Filed(h[samples[i].time])[samples[i].key])
  {
    seq(|samples|, i requires 0 <= i < |samples| => (samples[i].key, Filed(h[samples[i].time])[samples[i].key]))
  }

  /** Every reading lies between the table's before and after. */
  lemma ReadingIsBetween<K(!new)>(h: History<K>, samples: seq<Sample<K>>, from: nat, to: nat, i: nat)
    requires IsHistory(h) && IsWalk(h, samples, from, to) && i < |samples|
    ensures Filed(h[from])[samples[i].key] <= Readings(h, samples)[i].1 <= Filed(h[to])[samples[i].key]
  {
    var t := samples[i].time;
    GrowsOver(h, from, t);
    GrowsTotals(h[from], h[t]);
    GrowsOver(h, t, to);
    GrowsTotals(h[t], h[to]);
  }

  /** Readings between two tables that miss no key of the first collapse to a ledger between them. */
  lemma LatestIsBetween<K(!new)>(readings: seq<(K, nat)>, low: multiset<K>, high: multiset<K>, key: K)
    requires low <= high
    requires forall i :: 0 <= i < |readings| ==> low[readings[i].0] <= readings[i].1 <= high[readings[i].0]
    requires key in low ==> exists i :: 0 <= i < |readings| && readings[i].0 == key
    ensures low[key] <= Bag(Latest(readings))[key] <= high[key]
  {
    LatestIsSomeReading(readings, key);
    if key in low {
      var i :| 0 <= i < |readings| && readings[i].0 == key;
      assert readings[i].1 > 0;
    }
  }

  lemma WalkMissesNothing<K(!new)>(h: History<K>, samples: seq<Sample<K>>, from: nat, to: nat, key: K)
    requires IsHistory(h) && IsWalk(h, samples, from, to) && key in Filed(h[from])
    ensures exists i :: 0 <= i < |samples| && Readings(h, samples)[i].0 == key
  {
    var i :| 0 <= i < |samples| && samples[i].key == key;
    assert Readings(h, samples)[i].0 == key;
  }

  lemma WalkIsBetween<K(!new)>(h: History<K>, samples: seq<Sample<K>>, from: nat, to: nat, key: K)
    requires IsHistory(h) && IsWalk(h, samples, from, to) && Filed(h[from]) <= Filed(h[to])
    ensures Filed(h[from])[key] <= Bag(Latest(Readings(h, samples)))[key] <= Filed(h[to])[key]
  {
    var (readings, low, high) := (Readings(h, samples), Filed(h[from]), Filed(h[to]));
    forall i | 0 <= i < |readings|
      ensures low[readings[i].0] <= readings[i].1 <= high[readings[i].0]
    {
      ReadingIsBetween(h, samples, from, to, i);
    }
    if key in low {
      WalkMissesNothing(h, samples, from, to, key);
    }
    LatestIsBetween(readings, low, high, key);
  }

  /** However the walk interleaves with the CPUs, each count lies between the table's before and after. */
  lemma WalkIsReadout<K(!new)>(h: History<K>, samples: seq<Sample<K>>, from: nat, to: nat, at: seq<nat>)
    requires IsHistory(h) && IsWalk(h, samples, from, to)
    requires |at| == |h[0]| && forall c :: 0 <= c < |at| ==> to <= at[c] < |h|
    ensures IsReadout(h, Readout(Bag(Latest(Readings(h, samples))), from, to, at))
  {
    GrowsOver(h, from, to);
    GrowsTotals(h[from], h[to]);
    var (ledger, low, high) := (Bag(Latest(Readings(h, samples))), Filed(h[from]), Filed(h[to]));
    forall key
      ensures low[key] <= ledger[key] <= high[key]
    {
      WalkIsBetween(h, samples, from, to, key);
    }
  }
}
