/** Packet tuples and the direction-independent flow key that partitions them. */
module FlowKeys {
  import opened Common

  datatype PacketTuple = PacketTuple(
    source: string, destination: string, sourcePort: nat, destinationPort: nat,
    l3Protocol: nat, l4Protocol: nat, tcpFlags: nat, icmpType: Option<nat>, icmpCode: Option<nat>)

  datatype FlowKey = FlowKey(
    lowAddress: string, lowPort: nat, highAddress: string, highPort: nat, l3Protocol: nat, l4Protocol: nat)

  /** The order of strings. */
  predicate StringLeq(a: string, b: string) {
    a == [] || (b != [] && (a[0] < b[0] || (a[0] == b[0] && StringLeq(a[1..], b[1..]))))
  }

  /** The order of pairs compared by address first, port second. */
  predicate EndpointLeq(a: (string, nat), b: (string, nat)) {
    if a.0 == b.0 then a.1 <= b.1 else StringLeq(a.0, b.0)
  }

  predicate FirstDiffers(a: string, b: string, k: nat) {
    k < |a| && k < |b| && a[..k] == b[..k] && a[k] < b[k]
  }

  /** A string comes before its continuations, and otherwise the first difference decides. */
  lemma {:induction false} StringLeqMeans(a: string, b: string)
    ensures StringLeq(a, b) <==> a <= b || exists k: nat :: FirstDiffers(a, b, k)
  {
    if a != [] && b != [] && a[0] == b[0] {
      StringLeqMeans(a[1..], b[1..]);
      assert a == [a[0]] + a[1..] && b == [b[0]] + b[1..];
      if k: nat :| FirstDiffers(a[1..], b[1..], k) {
        assert a[..k + 1] == [a[0]] + a[1..][..k] && b[..k + 1] == [b[0]] + b[1..][..k];
        assert FirstDiffers(a, b, k + 1);
      }
      if k: nat :| FirstDiffers(a, b, k) {
        assert a[1..][..k - 1] == a[..k][1..] && b[1..][..k - 1] == b[..k][1..];
        assert FirstDiffers(a[1..], b[1..], k - 1);
      }
    } else if a != [] && b != [] {
      if a[0] < b[0] {
        assert FirstDiffers(a, b, 0);
      }
      if k: nat :| FirstDiffers(a, b, k) {
        assert k > 0 ==> a[..k][0] == b[..k][0];
      }
    }
  }

  lemma {:induction false} StringLeqTotal(a: string, b: string)
    ensures StringLeq(a, b) || StringLeq(b, a)
    ensures StringLeq(a, b) && StringLeq(b, a) ==> a == b
  {
    if a != [] && b != [] && a[0] == b[0] {
      StringLeqTotal(a[1..], b[1..]);
      assert a == [a[0]] + a[1..] && b == [b[0]] + b[1..];
    }
  }

  lemma {:induction false} StringLeqTransitive(a: string, b: string, c: string)
    requires StringLeq(a, b) && StringLeq(b, c)
    ensures StringLeq(a, c)
  {
    if a != [] && a[0] == b[0] && b[0] == c[0] {
      StringLeqTransitive(a[1..], b[1..], c[1..]);
    }
  }

  function FromTuple(tuple: PacketTuple): FlowKey {
    var source := (tuple.source, tuple.sourcePort);
    var destination := (tuple.destination, tuple.destinationPort);
    var (low, high) := if EndpointLeq(source, destination) then (source, destination) else (destination, source);
    FlowKey(low.0, low.1, high.0, high.1, tuple.l3Protocol, tuple.l4Protocol)
  }

  ghost function Endpoints(tuple: PacketTuple): multiset<(string, nat)> {
    multiset{(tuple.source, tuple.sourcePort), (tuple.destination, tuple.destinationPort)}
  }

  /**
   Two tuples share a key exactly when they join the same two endpoints, in either direction, by the same protocols.
   */
  lemma SameFlow(a: PacketTuple, b: PacketTuple)
    ensures FromTuple(a) == FromTuple(b) <==>
      a.l3Protocol == b.l3Protocol && a.l4Protocol == b.l4Protocol && Endpoints(a) == Endpoints(b)
  {
    var (p, q) := ((a.source, a.sourcePort), (a.destination, a.destinationPort));
    var (r, s) := ((b.source, b.sourcePort), (b.destination, b.destinationPort));
    StringLeqTotal(p.0, q.0);
    SamePair(p, q, r, s);
  }

  lemma SamePair<T>(p: T, q: T, r: T, s: T)
    ensures multiset{p, q} == multiset{r, s} <==> (p == r && q == s) || (p == s && q == r)
  {
    if multiset{p, q} == multiset{r, s} {
      assert p in multiset{r, s};
      assert multiset{p, q} - multiset{p} == multiset{q};
      assert multiset{r, s} - multiset{r} == multiset{s} && multiset{r, s} - multiset{s} == multiset{r};
      assert p == r ==> q in multiset{s};
      assert p == s ==> q in multiset{r};
    }
  }
}
