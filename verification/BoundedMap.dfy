/** `BoundedMap`: a hash map with an insertion queue whose stale nodes are skipped when it evicts. */
module BoundedMap {
  import opened Common

  // ----- the list it stands for -----

  /** Entries ordered by their last insertion, oldest first. */
  type Entries<K, V> = seq<(K, V)>

  function Without<K(==), V>(entries: Entries<K, V>, key: K): Entries<K, V> {
    if entries == [] then []
    else if entries[0].0 == key then Without(entries[1..], key)
    else [entries[0]] + Without(entries[1..], key)
  }

  function Lookup<K(==), V>(entries: Entries<K, V>, key: K): Option<V> {
    if entries == [] then None
    else if entries[0].0 == key then Some(entries[0].1)
    else Lookup(entries[1..], key)
  }

  /** Drops the oldest entry of a list that has grown past the capacity. */
  function Trimmed<K, V>(entries: Entries<K, V>, capacity: nat): Entries<K, V> {
    if |entries| > capacity then entries[1..] else entries
  }

  // ----- queue nodes -----

  datatype Node<K> = Node(key: K, generation: u64)

  type Values<K, V> = map<K, (V, u64)>

  predicate IsLive<K(==), V>(values: Values<K, V>, node: Node<K>) {
    node.key in values && values[node.key].1 == node.generation
  }

  function EntryOf<K(==), V>(values: Values<K, V>, node: Node<K>): (K, V)
    requires IsLive(values, node)
  {
    (node.key, values[node.key].0)
  }

  /** The entries of the live nodes, in queue order. */
  function LiveEntries<K(==), V>(values: Values<K, V>, order: seq<Node<K>>): Entries<K, V> {
    if order == [] then []
    else if !IsLive(values, order[0]) then LiveEntries(values, order[1..])
    else [EntryOf(values, order[0])] + LiveEntries(values, order[1..])
  }

  function LiveKeys<K(==), V>(values: Values<K, V>, order: seq<Node<K>>): set<K> {
    if order == [] then {}
    else if !IsLive(values, order[0]) then LiveKeys(values, order[1..])
    else {order[0].key} + LiveKeys(values, order[1..])
  }

  function Retained<K(==), V>(values: Values<K, V>, order: seq<Node<K>>): seq<Node<K>> {
    if order == [] then []
    else if !IsLive(values, order[0]) then Retained(values, order[1..])
    else [order[0]] + Retained(values, order[1..])
  }

  /** Generations grow along the queue, between two bounds. */
  predicate Aging<K>(order: seq<Node<K>>, low: u64, high: u64) {
    if order == [] then low <= high
    else low < order[0].generation && Aging(order[1..], order[0].generation, high)
  }

  /** Every key has a node for its current generation. */
  ghost predicate Indexed<K, V>(values: Values<K, V>, order: seq<Node<K>>) {
    forall k :: k in values ==> Node(k, values[k].1) in order
  }

  // ----- how the entries follow the map and the queue -----

  lemma {:induction false} AgingBounds<K>(order: seq<Node<K>>, low: u64, high: u64, node: Node<K>)
    requires Aging(order, low, high)
    ensures low <= high
    ensures node in order ==> low < node.generation <= high
  {
    if order != [] {
      AgingBounds(order[1..], order[0].generation, high, node);
    }
  }

  lemma AgingWeakens<K>(order: seq<Node<K>>, low: u64, lower: u64, high: u64)
    requires Aging(order, low, high) && lower <= low
    ensures Aging(order, lower, high)
  {
  }

  lemma {:induction false} AgingAppend<K>(order: seq<Node<K>>, low: u64, high: u64, node: Node<K>)
    requires Aging(order, low, high) && high < node.generation
    ensures Aging(order + [node], low, node.generation)
  {
    if order == [] {
      assert order + [node] == [node] && [node][1..] == [];
    } else {
      assert (order + [node])[1..] == order[1..] + [node];
      AgingAppend(order[1..], order[0].generation, high, node);
    }
  }

  lemma {:induction false} AgingRetained<K, V>(values: Values<K, V>, order: seq<Node<K>>, low: u64, high: u64)
    requires Aging(order, low, high)
    ensures Aging(Retained(values, order), low, high)
  {
    if order != [] {
      AgingRetained(values, order[1..], order[0].generation, high);
      var rest := Retained(values, order[1..]);
      if IsLive(values, order[0]) {
        assert ([order[0]] + rest)[1..] == rest;
      } else {
        AgingWeakens(rest, order[0].generation, low, high);
      }
    }
  }

  lemma {:induction false} LiveKeysAre<K, V>(values: Values<K, V>, order: seq<Node<K>>, k: K)
    ensures k in LiveKeys(values, order) <==> k in values && Node(k, values[k].1) in order
  {
    if order != [] {
      LiveKeysAre(values, order[1..], k);
    }
  }

  /** As many entries as keys with a live node: no key has two. */
  lemma {:induction false} CountEntries<K, V>(values: Values<K, V>, order: seq<Node<K>>, low: u64, high: u64)
    requires Aging(order, low, high)
    ensures |LiveEntries(values, order)| == |LiveKeys(values, order)|
  {
    if order != [] {
      var node := order[0];
      CountEntries(values, order[1..], node.generation, high);
      LiveKeysAre(values, order[1..], node.key);
      AgingBounds(order[1..], node.generation, high, node);
    }
  }

  lemma EntriesMatchMap<K, V>(values: Values<K, V>, order: seq<Node<K>>, high: u64)
    requires Aging(order, 0, high) && Indexed(values, order)
    ensures |LiveEntries(values, order)| == |values|
  {
    CountEntries(values, order, 0, high);
    var keys := LiveKeys(values, order);
    forall k | k in keys ensures k in values.Keys {
      LiveKeysAre(values, order, k);
    }
    forall k | k in values.Keys ensures k in keys {
      LiveKeysAre(values, order, k);
    }
    assert keys == values.Keys;
  }

  lemma WithoutCons<K, V>(entry: (K, V), rest: Entries<K, V>, key: K)
    ensures Without([entry] + rest, key) == if entry.0 == key then Without(rest, key) else [entry] + Without(rest, key)
  {
    assert ([entry] + rest)[1..] == rest;
  }

  lemma {:induction false} AppendEntry<K, V>(
    values: Values<K, V>, order: seq<Node<K>>, low: u64, high: u64, key: K, value: V, generation: u64)
    requires Aging(order, low, high) && high < generation
    ensures LiveEntries(values[key := (value, generation)], order + [Node(key, generation)])
         == Without(LiveEntries(values, order), key) + [(key, value)]
  {
    var after, node := values[key := (value, generation)], Node(key, generation);
    if order == [] {
      assert order + [node] == [node] && [node][1..] == [];
      assert LiveEntries(after, [node]) == [(key, value)] + LiveEntries(after, []);
    } else {
      var first, rest := order[0], LiveEntries(values, order[1..]);
      assert (order + [node])[1..] == order[1..] + [node];
      AppendEntry(values, order[1..], first.generation, high, key, value, generation);
      AgingBounds(order, low, high, first);
      if IsLive(values, first) {
        WithoutCons(EntryOf(values, first), rest, key);
      }
    }
  }

  /** Removing a key makes its node stale and leaves the others. */
  lemma {:induction false} RemoveEntry<K, V>(values: Values<K, V>, order: seq<Node<K>>, key: K)
    ensures LiveEntries(values - {key}, order) == Without(LiveEntries(values, order), key)
  {
    if order != [] {
      var first, rest := order[0], LiveEntries(values, order[1..]);
      RemoveEntry(values, order[1..], key);
      if IsLive(values, first) {
        WithoutCons(EntryOf(values, first), rest, key);
      }
    }
  }

  /** A node that is not in the queue takes nothing away. */
  lemma {:induction false} WithoutAbsent<K, V>(values: Values<K, V>, order: seq<Node<K>>, key: K)
    requires key in values ==> Node(key, values[key].1) !in order
    ensures Without(LiveEntries(values, order), key) == LiveEntries(values, order)
  {
    if order != [] {
      var first, rest := order[0], LiveEntries(values, order[1..]);
      WithoutAbsent(values, order[1..], key);
      if IsLive(values, first) {
        WithoutCons(EntryOf(values, first), rest, key);
      }
    }
  }

  /** Evicting the node at the front drops the oldest entry. */
  lemma PopLive<K, V>(values: Values<K, V>, order: seq<Node<K>>, high: u64)
    requires order != [] && Aging(order, 0, high) && Indexed(values, order) && IsLive(values, order[0])
    ensures LiveEntries(values - {order[0].key}, order[1..]) == LiveEntries(values, order)[1..]
    ensures Aging(order[1..], 0, high) && Indexed(values - {order[0].key}, order[1..])
  {
    var first := order[0];
    AgingBounds(order[1..], first.generation, high, first);
    AgingWeakens(order[1..], first.generation, 0, high);
    RemoveEntry(values, order[1..], first.key);
    WithoutAbsent(values, order[1..], first.key);
  }

  lemma PopStale<K, V>(values: Values<K, V>, order: seq<Node<K>>, high: u64)
    requires order != [] && Aging(order, 0, high) && Indexed(values, order) && !IsLive(values, order[0])
    ensures LiveEntries(values, order[1..]) == LiveEntries(values, order)
    ensures Aging(order[1..], 0, high) && Indexed(values, order[1..])
  {
    AgingWeakens(order[1..], order[0].generation, 0, high);
  }

  lemma {:induction false} RetainEntries<K, V>(values: Values<K, V>, order: seq<Node<K>>)
    ensures LiveEntries(values, Retained(values, order)) == LiveEntries(values, order)
    ensures |Retained(values, order)| == |LiveEntries(values, order)|
  {
    if order != [] {
      var first, rest := order[0], Retained(values, order[1..]);
      RetainEntries(values, order[1..]);
      if IsLive(values, first) {
        assert ([first] + rest)[1..] == rest;
      }
    }
  }

  lemma {:induction false} RetainedNode<K, V>(values: Values<K, V>, order: seq<Node<K>>, node: Node<K>)
    requires node in order && IsLive(values, node)
    ensures node in Retained(values, order)
  {
    if node != order[0] {
      RetainedNode(values, order[1..], node);
    }
  }

  lemma RetainIndexed<K, V>(values: Values<K, V>, order: seq<Node<K>>)
    requires Indexed(values, order)
    ensures Indexed(values, Retained(values, order))
  {
    forall k | k in values ensures Node(k, values[k].1) in Retained(values, order) {
      RetainedNode(values, order, Node(k, values[k].1));
    }
  }

  lemma {:induction false} LookupEntry<K, V>(values: Values<K, V>, order: seq<Node<K>>, key: K)
    ensures Lookup(LiveEntries(values, order), key)
         == if key in values && Node(key, values[key].1) in order then Some(values[key].0) else None
  {
    if order != [] {
      var first, rest := order[0], LiveEntries(values, order[1..]);
      LookupEntry(values, order[1..], key);
      if IsLive(values, first) {
        assert ([EntryOf(values, first)] + rest)[1..] == rest;
      }
    }
  }

  /** A key that is inserted gets a new node, which makes its old one stale. */
  lemma InsertNode<K, V>(values: Values<K, V>, order: seq<Node<K>>, generation: u64, key: K, value: V)
    requires Aging(order, 0, generation) && Indexed(values, order) && generation < U64_MAX
    ensures var values', order' := values[key := (value, generation + 1)], order + [Node(key, generation + 1)];
            && Aging(order', 0, generation + 1) && Indexed(values', order')
            && LiveEntries(values', order') == Without(LiveEntries(values, order), key) + [(key, value)]
            && |LiveEntries(values', order')| == |values'| <= |values| + 1
  {
    var values', order' := values[key := (value, generation + 1)], order + [Node(key, generation + 1)];
    AppendEntry(values, order, 0, generation, key, value, generation + 1);
    AgingAppend(order, 0, generation, Node(key, generation + 1));
    EntriesMatchMap(values', order', generation + 1);
  }

  // ----- the structure -----

  class Bounded<K(==), V> {
    const capacity: nat
    var generation: u64
    var values: Values<K, V>
    var order: seq<Node<K>>
    var evictions: nat

    constructor (capacity: nat)
      requires capacity > 0
      ensures this.capacity == capacity && Valid() && Contents() == [] && evictions == 0 && generation == 0
    {
      this.capacity := capacity;
      generation, values, order, evictions := 0, map[], [], 0;
    }

    /** Never above capacity, and the queue at most four times as long. */
    ghost predicate Valid()
      reads this
    {
      && capacity > 0
      && |values| <= capacity && |order| <= 4 * capacity
      && Aging(order, 0, generation) && Indexed(values, order)
    }

    function Contents(): Entries<K, V>
      reads this
    {
      LiveEntries(values, order)
    }

    /** Fewer than 2^64 insertions: the generation has not wrapped. */
    method Insert(key: K, value: V) returns (previous: Option<V>)
      requires Valid() && generation < U64_MAX
      modifies this
      ensures Valid() && generation == old(generation) + 1
      ensures previous == Lookup(old(Contents()), key)
      ensures Contents() == Trimmed(Without(old(Contents()), key) + [(key, value)], capacity)
      ensures evictions == old(evictions) + if |Without(old(Contents()), key)| == capacity then 1 else 0
    {
      LookupEntry(values, order, key);
      InsertNode(values, order, generation, key, value);
      generation := generation + 1;
      previous := if key in values then Some(values[key].0) else None;
      values := values[key := (value, generation)];
      order := order + [Node(key, generation)];
      EvictToCapacity();
    }

    method Get(key: K) returns (value: Option<V>)
      requires Valid()
      ensures value == Lookup(Contents(), key)
    {
      LookupEntry(values, order, key);
      value := if key in values then Some(values[key].0) else None;
    }

    method Remove(key: K) returns (value: Option<V>)
      requires Valid()
      modifies `values
      ensures Valid() && value == Lookup(old(Contents()), key)
      ensures Contents() == Without(old(Contents()), key)
    {
      LookupEntry(values, order, key);
      RemoveEntry(values, order, key);
      value := if key in values then Some(values[key].0) else None;
      values := values - {key};
    }

    method EvictToCapacity()
      requires capacity > 0 && Aging(order, 0, generation) && Indexed(values, order)
      requires |values| <= capacity + 1 && |order| <= 4 * capacity + 1
      modifies `values, `order, `evictions
      ensures Valid() && Contents() == Trimmed(old(Contents()), capacity)
      ensures evictions == old(evictions) + if |old(Contents())| > capacity then 1 else 0
    {
      ghost var start := Contents();
      EntriesMatchMap(values, order, generation);
      while |values| > capacity
        invariant Aging(order, 0, generation) && Indexed(values, order)
        invariant |order| <= 4 * capacity + 1 && |values| == |Contents()|
        invariant |values| > capacity ==> Contents() == start && evictions == old(evictions)
        invariant |values| <= capacity ==> Contents() == Trimmed(start, capacity)
        invariant |values| <= capacity ==> evictions == old(evictions) + if |start| > capacity then 1 else 0
        decreases |order|
      {
        assert order != [];
        var candidate := order[0];
        if IsLive(values, candidate) {
          PopLive(values, order, generation);
          values := values - {candidate.key};
          evictions := evictions + 1;
        } else {
          PopStale(values, order, generation);
        }
        order := order[1..];
        EntriesMatchMap(values, order, generation);
      }
      // Refreshed keys leave stale nodes behind.
      if |order| > 4 * capacity {
        RetainEntries(values, order);
        AgingRetained(values, order, 0, generation);
        RetainIndexed(values, order);
        order := Retained(values, order);
      }
    }
  }
}
