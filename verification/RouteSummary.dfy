/** `summarize_routes`: routes grouped into patterns, and the consensus among them. */
module RouteSummary {
  import opened Common
  import opened Arrange
  import opened FlowKeys
  import opened Routes

  /** Routes with the same functions and the same truncation are one pattern. */
  type Shape = (seq<string>, bool)

  datatype Pattern = Pattern(shape: Shape, routes: nat, outlier: bool)

  datatype Consensus = Consensus(
    handle: string, routes: nat, totalRoutes: nat, confidenceBasisPoints: nat, outlierRoutes: nat, ambiguous: bool)

  function Shapes(routes: seq<(string, Route)>): (shapes: seq<Shape>)
    ensures |shapes| == |routes|
  {
    seq(|routes|, i requires 0 <= i < |routes| => (routes[i].1.functions, routes[i].1.truncated))
  }

  /** One pattern for every shape, with the number of routes that have it. */
  ghost predicate Tallies(patterns: seq<Pattern>, shapes: multiset<Shape>) {
    && (forall i, j :: 0 <= i < j < |patterns| ==> patterns[i].shape != patterns[j].shape)
    && (forall i :: 0 <= i < |patterns| ==> patterns[i].routes == shapes[patterns[i].shape] > 0)
    && (forall s :: s in shapes ==> exists i :: 0 <= i < |patterns| && patterns[i].shape == s)
  }

  function Total(patterns: seq<Pattern>): nat {
    if patterns == [] then 0 else Total(patterns[..|patterns| - 1]) + patterns[|patterns| - 1].routes
  }

  /** The counts of the patterns add up to the number of routes. */
  lemma {:induction false} TalliesAddUp(patterns: seq<Pattern>, shapes: multiset<Shape>)
    requires Tallies(patterns, shapes)
    ensures Total(patterns) == |shapes|
  {
    if patterns == [] {
      assert forall s :: s !in shapes;
      assert shapes == multiset{};
    } else {
      var front, last := patterns[..|patterns| - 1], patterns[|patterns| - 1];
      var rest := shapes[last.shape := 0];
      forall s | s in rest ensures exists i :: 0 <= i < |front| && front[i].shape == s {
        assert s in shapes && s != last.shape;
        var i :| 0 <= i < |patterns| && patterns[i].shape == s;
        assert front[i].shape == s;
      }
      TalliesAddUp(front, rest);
      assert |rest| == |shapes| - shapes[last.shape];
    }
  }

  /** How often each shape occurs. */
  ghost predicate Counts(grouped: map<Shape, nat>, shapes: multiset<Shape>) {
    forall s :: (s in grouped <==> s in shapes) && (s in grouped ==> grouped[s] == shapes[s])
  }

  lemma CountOneMore(grouped: map<Shape, nat>, shapes: multiset<Shape>, shape: Shape)
    requires Counts(grouped, shapes)
    ensures Counts(grouped[shape := if shape in grouped then grouped[shape] + 1 else 1], shapes + multiset{shape})
  {
  }

  lemma ShapesOneMore(routes: seq<(string, Route)>, i: nat)
    requires i < |routes|
    ensures multiset(Shapes(routes)[..i + 1]) == multiset(Shapes(routes)[..i]) + multiset{Shapes(routes)[i]}
  {
    assert Shapes(routes)[..i + 1] == Shapes(routes)[..i] + [Shapes(routes)[i]];
  }

  method Group(routes: seq<(string, Route)>) returns (grouped: map<Shape, nat>)
    ensures Counts(grouped, multiset(Shapes(routes)))
  {
    grouped := map[];
    for i := 0 to |routes|
      invariant Counts(grouped, multiset(Shapes(routes)[..i]))
    {
      var shape := (routes[i].1.functions, routes[i].1.truncated);
      ShapesOneMore(routes, i);
      CountOneMore(grouped, multiset(Shapes(routes)[..i]), shape);
      grouped := grouped[shape := if shape in grouped then grouped[shape] + 1 else 1];
    }
    assert Shapes(routes)[..|routes|] == Shapes(routes);
  }

  method Collect(grouped: map<Shape, nat>, ghost shapes: multiset<Shape>) returns (patterns: seq<Pattern>)
    requires Counts(grouped, shapes)
    ensures Tallies(patterns, shapes) && forall i :: 0 <= i < |patterns| ==> !patterns[i].outlier
  {
    patterns := [];
    var keys := grouped.Keys;
    while keys != {}
      invariant keys <= grouped.Keys
      invariant forall i :: 0 <= i < |patterns| ==>
        patterns[i].shape in grouped && patterns[i].shape !in keys
        && patterns[i].routes == grouped[patterns[i].shape] && !patterns[i].outlier
      invariant forall i, j :: 0 <= i < j < |patterns| ==> patterns[i].shape != patterns[j].shape
      invariant forall s :: s in grouped && s !in keys ==> exists i :: 0 <= i < |patterns| && patterns[i].shape == s
      decreases keys
    {
      var key :| key in keys;
      ghost var before := patterns;
      patterns := patterns + [Pattern(key, grouped[key], false)];
      keys := keys - {key};
      forall s | s in grouped && s !in keys ensures exists i :: 0 <= i < |patterns| && patterns[i].shape == s {
        if s == key {
          assert patterns[|before|].shape == s;
        } else {
          var i :| 0 <= i < |before| && before[i].shape == s;
          assert patterns[i].shape == s;
        }
      }
    }
  }

  lemma ArrangedTallies(patterns: seq<Pattern>, arranged: seq<Pattern>, order: seq<nat>, shapes: multiset<Shape>)
    requires Tallies(patterns, shapes) && Arranges(patterns, arranged, order)
    ensures Tallies(arranged, shapes)
  {
    forall s | s in shapes ensures exists a :: 0 <= a < |arranged| && arranged[a].shape == s {
      var i :| 0 <= i < |patterns| && patterns[i].shape == s;
      assert i in order;
      var a :| 0 <= a < |order| && order[a] == i;
      assert arranged[a].shape == s;
    }
  }

  /** More routes first, then the smaller handle. */
  function RankOf(total: nat, handle: Shape -> string, p: Pattern): Key {
    (if p.routes > total then 0 else total - p.routes, handle(p.shape))
  }

  function RankKey(total: nat, handle: Shape -> string): Pattern -> Key {
    p => RankOf(total, handle, p)
  }

  lemma {:induction false} EachAtMostTotal(patterns: seq<Pattern>, i: nat)
    requires i < |patterns|
    ensures patterns[i].routes <= Total(patterns)
    ensures i > 0 ==> patterns[0].routes <= Total(patterns)
  {
    if i < |patterns| - 1 {
      EachAtMostTotal(patterns[..|patterns| - 1], i);
    } else if i > 0 {
      EachAtMostTotal(patterns[..|patterns| - 1], 0);
    }
  }

  predicate RanksBefore(a: Pattern, b: Pattern, handle: Shape -> string) {
    a.routes > b.routes || (a.routes == b.routes && StringLeq(handle(a.shape), handle(b.shape)))
  }

  ghost predicate Ranked(patterns: seq<Pattern>, handle: Shape -> string) {
    forall i, j :: 0 <= i < j < |patterns| ==> RanksBefore(patterns[i], patterns[j], handle)
  }

  method Rank(
    patterns: seq<Pattern>, handle: Shape -> string, ghost shapes: multiset<Shape>) returns (ranked: seq<Pattern>)
    requires Tallies(patterns, shapes) && forall i :: 0 <= i < |patterns| ==> !patterns[i].outlier
    ensures Tallies(ranked, shapes) && Ranked(ranked, handle) && forall i :: 0 <= i < |ranked| ==> !ranked[i].outlier
  {
    ghost var order;
    ranked, order := SortByKey(patterns, RankKey(Total(patterns), handle));
    ArrangedTallies(patterns, ranked, order, shapes);
    TalliesAddUp(patterns, shapes);
    TalliesAddUp(ranked, shapes);
    OrderedIsRanked(ranked, Total(patterns), handle);
  }

  lemma OrderedIsRanked(ranked: seq<Pattern>, total: nat, handle: Shape -> string)
    requires Ordered(ranked, RankKey(total, handle)) && Total(ranked) <= total
    ensures Ranked(ranked, handle)
  {
    forall i, j | 0 <= i < j < |ranked|
      ensures RanksBefore(ranked[i], ranked[j], handle)
    {
      EachAtMostTotal(ranked, i);
      EachAtMostTotal(ranked, j);
      var key := RankKey(total, handle);
      assert KeyLeq(key(ranked[i]), key(ranked[j]));
    }
  }

  /** A tie at the top leaves no outliers; otherwise every other pattern is one. */
  ghost predicate Summarizes(c: Consensus, patterns: seq<Pattern>, total: nat, handle: Shape -> string) {
    && patterns != []
    && c.handle == handle(patterns[0].shape) && c.routes == patterns[0].routes && c.totalRoutes == total
    && (c.ambiguous <==> exists j :: 0 < j < |patterns| && patterns[j].routes == c.routes)
    && (forall i :: 0 <= i < |patterns| ==>
      (patterns[i].outlier <==> !c.ambiguous && handle(patterns[i].shape) != c.handle))
    && c.outlierRoutes == (if c.ambiguous then 0 else total - c.routes)
    && IsShare(c.confidenceBasisPoints, c.routes, total)
  }

  /** `share` is `part` of `total` in basis points, rounded down. */
  predicate IsShare(share: nat, part: nat, total: nat) {
    total * share <= part * 10_000 < total * (share + 1) && share <= 10_000
  }

  function Marked(p: Pattern, dominant: string, handle: Shape -> string): Pattern {
    p.(outlier := handle(p.shape) != dominant)
  }

  method MarkOutliers(ranked: seq<Pattern>, dominant: string, handle: Shape -> string) returns (patterns: seq<Pattern>)
    ensures |patterns| == |ranked| && forall k :: 0 <= k < |ranked| ==>
      patterns[k] == Marked(ranked[k], dominant, handle)
  {
    patterns := ranked;
    for i := 0 to |ranked|
      invariant |patterns| == |ranked| && patterns[i..] == ranked[i..]
      invariant forall k :: 0 <= k < i ==> patterns[k] == Marked(ranked[k], dominant, handle)
    {
      assert patterns[i] == patterns[i..][0] == ranked[i];
      ghost var before := patterns;
      patterns := patterns[i := Marked(patterns[i], dominant, handle)];
      assert patterns[i + 1..] == before[i..][1..] == ranked[i + 1..];
    }
  }

  /** Only the first two patterns need looking at. */
  lemma ConsensusHolds(ranked: seq<Pattern>, patterns: seq<Pattern>, c: Consensus, total: nat, handle: Shape -> string)
    requires ranked != [] && Ranked(ranked, handle) && forall i :: 0 <= i < |ranked| ==> !ranked[i].outlier
    requires c.handle == handle(ranked[0].shape) && c.routes == ranked[0].routes && c.totalRoutes == total
    requires c.ambiguous == (|ranked| > 1 && ranked[1].routes == c.routes)
    requires |patterns| == |ranked|
    requires forall k :: 0 <= k < |ranked| ==>
      patterns[k] == if c.ambiguous then ranked[k] else Marked(ranked[k], c.handle, handle)
    requires c.outlierRoutes == (if c.ambiguous then 0 else total - c.routes)
    requires IsShare(c.confidenceBasisPoints, c.routes, total)
    ensures Summarizes(c, patterns, total, handle)
  {
    assert c.ambiguous ==> patterns[1].routes == c.routes;
  }

  /** The consensus among ranked patterns, and the patterns marked accordingly. */
  method Agree(ranked: seq<Pattern>, total: nat, handle: Shape -> string)
    returns (patterns: seq<Pattern>, c: Consensus)
    requires ranked != [] && Ranked(ranked, handle) && forall i :: 0 <= i < |ranked| ==> !ranked[i].outlier
    requires 0 < ranked[0].routes <= total
    ensures Summarizes(c, patterns, total, handle) && |patterns| == |ranked|
    ensures forall k :: 0 <= k < |ranked| ==>
      patterns[k].shape == ranked[k].shape && patterns[k].routes == ranked[k].routes
  {
    patterns := ranked;
    var dominant := ranked[0];
    var ambiguous := |ranked| > 1 && ranked[1].routes == dominant.routes;
    if !ambiguous {
      patterns := MarkOutliers(ranked, handle(dominant.shape), handle);
    }
    var confidence := Share(dominant.routes, total);
    ShareFloors(dominant.routes, total);
    var outliers := if ambiguous then 0 else total - dominant.routes;
    c := Consensus(handle(dominant.shape), dominant.routes, total, confidence, outliers, ambiguous);
    ConsensusHolds(ranked, patterns, c, total, handle);
  }

  /** Patterns with their counts, most frequent first, and the consensus among them. */
  method SummarizeRoutes(routes: seq<(string, Route)>, handle: Shape -> string)
    returns (patterns: seq<Pattern>, consensus: Option<Consensus>)
    ensures Tallies(patterns, multiset(Shapes(routes))) && Ranked(patterns, handle) && Total(patterns) == |routes|
    ensures consensus.None? <==> routes == []
    ensures consensus.Some? ==> Summarizes(consensus.value, patterns, |routes|, handle)
  {
    ghost var shapes := multiset(Shapes(routes));
    assert |shapes| == |routes|;
    var grouped := Group(routes);
    var ranked := Collect(grouped, shapes);
    ranked := Rank(ranked, handle, shapes);
    TalliesAddUp(ranked, shapes);
    if ranked == [] {
      return ranked, None;
    }
    EachAtMostTotal(ranked, 0);
    var c;
    patterns, c := Agree(ranked, Total(ranked), handle);
    SameTallies(ranked, patterns, shapes);
    SameRank(ranked, patterns, handle);
    consensus := Some(c);
  }

  function Share(part: nat, total: nat): nat
    requires total > 0
  {
    Quotient(part * 10_000, total)
  }

  function Quotient(n: nat, d: nat): (q: nat)
    requires d > 0
    ensures d * q <= n < d * q + d
  {
    n / d
  }

  lemma ShareFloors(part: nat, total: nat)
    requires 0 < part <= total
    ensures IsShare(Share(part, total), part, total)
  {
    var q := Share(part, total);
    assert total * (q + 1) == total * q + total;
    if q > 10_000 {
      Grows(total, 10_001, q);
    }
  }

  lemma Grows(d: nat, a: nat, b: nat)
    requires a <= b
    ensures d * a <= d * b
  {
    assert d * b - d * a == d * (b - a);
  }

  lemma SameRank(a: seq<Pattern>, b: seq<Pattern>, handle: Shape -> string)
    requires Ranked(a, handle) && |a| == |b|
    requires forall k :: 0 <= k < |a| ==> a[k].shape == b[k].shape && a[k].routes == b[k].routes
    ensures Ranked(b, handle)
  {
    forall i, j | 0 <= i < j < |b|
      ensures RanksBefore(b[i], b[j], handle)
    {
      assert RanksBefore(a[i], a[j], handle);
    }
  }

  lemma SameTallies(a: seq<Pattern>, b: seq<Pattern>, shapes: multiset<Shape>)
    requires Tallies(a, shapes) && |a| == |b|
    requires forall k :: 0 <= k < |a| ==> a[k].shape == b[k].shape && a[k].routes == b[k].routes
    ensures Tallies(b, shapes) && Total(b) == |shapes|
  {
    forall s | s in shapes ensures exists i :: 0 <= i < |b| && b[i].shape == s {
      var i :| 0 <= i < |a| && a[i].shape == s;
      assert b[i].shape == s;
    }
    TalliesAddUp(b, shapes);
  }
}
