/** Stable sorting by (timestamp, handle), with the permutation it applies. */
module Arrange {
  import opened Common
  import opened FlowKeys

  type Key = (nat, string)

  predicate KeyLeq(a: Key, b: Key) {
    a.0 < b.0 || (a.0 == b.0 && StringLeq(a.1, b.1))
  }

  ghost predicate Ordered<T>(s: seq<T>, key: T -> Key) {
    forall i, j :: 0 <= i < j < |s| ==> KeyLeq(key(s[i]), key(s[j]))
  }

  /** `arranged` holds the entries of `s`, each once, in the order `order`. */
  ghost predicate Arranges<T>(s: seq<T>, arranged: seq<T>, order: seq<nat>) {
    && |order| == |arranged| == |s| && Distinct(order)
    && (forall a :: 0 <= a < |order| ==> order[a] < |s| && arranged[a] == s[order[a]])
    && (forall i :: 0 <= i < |s| ==> i in order)
  }

  lemma KeyLeqOrder(a: Key, b: Key, c: Key)
    ensures KeyLeq(a, b) || KeyLeq(b, a)
    ensures KeyLeq(a, b) && KeyLeq(b, c) ==> KeyLeq(a, c)
  {
    StringLeqTotal(a.1, b.1);
    if StringLeq(a.1, b.1) && StringLeq(b.1, c.1) {
      StringLeqTransitive(a.1, b.1, c.1);
    }
  }

  function Insert<T>(s: seq<T>, k: nat, x: T): (r: seq<T>)
    requires k <= |s|
    ensures |r| == |s| + 1
    ensures forall i :: 0 <= i < |r| ==> r[i] == if i < k then s[i] else if i == k then x else s[i - 1]
  {
    s[..k] + [x] + s[k..]
  }

  lemma InsertArranges<T>(s: seq<T>, n: nat, arranged: seq<T>, order: seq<nat>, k: nat)
    requires n < |s| && k <= n && Arranges(s[..n], arranged, order)
    ensures Arranges(s[..n + 1], Insert(arranged, k, s[n]), Insert(order, k, n))
  {
    var order' := Insert(order, k, n);
    forall i | 0 <= i < n + 1
      ensures i in order'
    {
      if i < n {
        assert i in order;
        var a :| 0 <= a < |order| && order[a] == i;
        assert order'[if a < k then a else a + 1] == i;
      } else {
        assert order'[k] == n;
      }
    }
  }

  lemma InsertOrdered<T>(s: seq<T>, k: nat, x: T, key: T -> Key)
    requires k <= |s| && Ordered(s, key)
    requires k > 0 ==> KeyLeq(key(s[k - 1]), key(x))
    requires k < |s| ==> KeyLeq(key(x), key(s[k]))
    ensures Ordered(Insert(s, k, x), key)
  {
    var r := Insert(s, k, x);
    forall i, j | 0 <= i < j < |r|
      ensures KeyLeq(key(r[i]), key(r[j]))
    {
      if j == k && i < k - 1 {
        KeyLeqOrder(key(s[i]), key(s[k - 1]), key(x));
      } else if i == k && j > k + 1 {
        KeyLeqOrder(key(x), key(s[k]), key(s[j - 1]));
      }
    }
  }

  method SortByKey<T>(s: seq<T>, key: T -> Key) returns (arranged: seq<T>, ghost order: seq<nat>)
    ensures Arranges(s, arranged, order) && Ordered(arranged, key)
  {
    arranged, order := [], [];
    for n := 0 to |s|
      invariant Arranges(s[..n], arranged, order) && Ordered(arranged, key)
    {
      var k := n;
      while k > 0 && !KeyLeq(key(arranged[k - 1]), key(s[n]))
        invariant k <= n
        invariant k < n ==> KeyLeq(key(s[n]), key(arranged[k]))
      {
        KeyLeqOrder(key(arranged[k - 1]), key(s[n]), key(s[n]));
        k := k - 1;
      }
      InsertArranges(s, n, arranged, order, k);
      InsertOrdered(arranged, k, s[n], key);
      arranged, order := Insert(arranged, k, s[n]), Insert(order, k, n);
    }
    assert s[..|s|] == s;
  }
}
