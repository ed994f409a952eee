/**
 `bounded_dnf`: expansion into groups of clauses, abandoned as soon as a partial
 result has too many literals, and the Kleene value of trees and of groups.
 */
module FilterDnf {
  import opened Common
  import opened FilterSyntax

  type Groups<T> = seq<seq<T>>

  // ----- Kleene logic: a comparison is true, false, or could not be read -----

  datatype Truth = Yes | No | Unknown

  function Both(a: Truth, b: Truth): Truth {
    if a == No || b == No then No else if a == Yes && b == Yes then Yes else Unknown
  }

  function Either(a: Truth, b: Truth): Truth {
    if a == Yes || b == Yes then Yes else if a == No && b == No then No else Unknown
  }

  function Value(e: Expression, atom: string -> Truth): Truth {
    match e
    case Clause(text) => atom(text)
    case And(l, r) => Both(Value(l, atom), Value(r, atom))
    case Or(l, r) => Either(Value(l, atom), Value(r, atom))
  }

  function All<T>(group: seq<T>, atom: T -> Truth): Truth {
    if group == [] then Yes else Both(atom(group[0]), All(group[1..], atom))
  }

  function Any<T>(groups: Groups<T>, atom: T -> Truth): Truth {
    if groups == [] then No else Either(All(groups[0], atom), Any(groups[1..], atom))
  }

  // ----- the expansion without a bound -----

  function Literals<T>(groups: Groups<T>): nat {
    if groups == [] then 0 else |groups[0]| + Literals(groups[1..])
  }

  function Distribute<T>(group: seq<T>, over: Groups<T>): (r: Groups<T>)
    ensures |r| == |over|
  {
    if over == [] then [] else [group + over[0]] + Distribute(group, over[1..])
  }

  function Product<T>(left: Groups<T>, right: Groups<T>): Groups<T> {
    if left == [] then [] else Distribute(left[0], right) + Product(left[1..], right)
  }

  function Dnf(e: Expression): Groups<string> {
    match e
    case Clause(text) => [[text]]
    case Or(l, r) => Dnf(l) + Dnf(r)
    case And(l, r) => Product(Dnf(l), Dnf(r))
  }

  // ----- the expansion keeps the meaning -----

  lemma {:induction false} AllJoin<T>(a: seq<T>, b: seq<T>, atom: T -> Truth)
    ensures All(a + b, atom) == Both(All(a, atom), All(b, atom))
  {
    if a == [] {
      assert a + b == b;
    } else {
      assert (a + b)[1..] == a[1..] + b;
      AllJoin(a[1..], b, atom);
    }
  }

  lemma {:induction false} AnyJoin<T>(a: Groups<T>, b: Groups<T>, atom: T -> Truth)
    ensures Any(a + b, atom) == Either(Any(a, atom), Any(b, atom))
  {
    if a == [] {
      assert a + b == b;
    } else {
      assert (a + b)[1..] == a[1..] + b;
      AnyJoin(a[1..], b, atom);
    }
  }

  lemma {:induction false} AnyDistribute<T>(group: seq<T>, over: Groups<T>, atom: T -> Truth)
    ensures Any(Distribute(group, over), atom) == Both(All(group, atom), Any(over, atom))
  {
    if over != [] {
      AllJoin(group, over[0], atom);
      AnyDistribute(group, over[1..], atom);
      assert Distribute(group, over)[1..] == Distribute(group, over[1..]);
    }
  }

  lemma {:induction false} AnyProduct<T>(left: Groups<T>, right: Groups<T>, atom: T -> Truth)
    ensures Any(Product(left, right), atom) == Both(Any(left, atom), Any(right, atom))
  {
    if left != [] {
      AnyDistribute(left[0], right, atom);
      AnyProduct(left[1..], right, atom);
      AnyJoin(Distribute(left[0], right), Product(left[1..], right), atom);
    }
  }

  /** Whatever the comparisons give, also when some of them cannot be read. */
  lemma {:induction false} DnfKeepsValue(e: Expression, atom: string -> Truth)
    ensures Any(Dnf(e), atom) == Value(e, atom)
  {
    match e
    case Clause(text) =>
      assert [text][1..] == [] && [[text]][1..] == [];
      assert All([text], atom) == Both(atom(text), All([], atom));
      assert Any([[text]], atom) == Either(All([text], atom), Any([], atom));
    case Or(l, r) =>
      DnfKeepsValue(l, atom);
      DnfKeepsValue(r, atom);
      AnyJoin(Dnf(l), Dnf(r), atom);
    case And(l, r) =>
      DnfKeepsValue(l, atom);
      DnfKeepsValue(r, atom);
      AnyProduct(Dnf(l), Dnf(r), atom);
  }

  // ----- an inner node is never larger than the whole -----

  ghost predicate NoneEmpty<T>(groups: Groups<T>) {
    forall i :: 0 <= i < |groups| ==> groups[i] != []
  }

  lemma {:induction false} LiteralsJoin<T>(a: Groups<T>, b: Groups<T>)
    ensures Literals(a + b) == Literals(a) + Literals(b)
  {
    if a == [] {
      assert a + b == b;
    } else {
      assert (a + b)[1..] == a[1..] + b;
      LiteralsJoin(a[1..], b);
    }
  }

  lemma {:induction false} DistributeGrows<T>(group: seq<T>, over: Groups<T>)
    ensures Literals(Distribute(group, over)) >= Literals(over)
    ensures over != [] ==> Literals(Distribute(group, over)) >= |group|
    ensures group != [] ==> NoneEmpty(Distribute(group, over))
  {
    if over != [] {
      DistributeGrows(group, over[1..]);
      assert Distribute(group, over)[1..] == Distribute(group, over[1..]);
    }
  }

  lemma {:induction false} ProductGrows<T>(left: Groups<T>, right: Groups<T>)
    requires right != [] && NoneEmpty(left)
    ensures Literals(Product(left, right)) >= Literals(left)
    ensures left != [] ==> Product(left, right) != [] && Literals(Product(left, right)) >= Literals(right)
    ensures NoneEmpty(Product(left, right))
  {
    if left != [] {
      DistributeGrows(left[0], right);
      ProductGrows(left[1..], right);
      LiteralsJoin(Distribute(left[0], right), Product(left[1..], right));
    }
  }

  lemma {:induction false} DnfIsProper(e: Expression)
    ensures Dnf(e) != [] && NoneEmpty(Dnf(e))
  {
    match e
    case Clause(_) =>
    case Or(l, r) =>
      DnfIsProper(l);
      DnfIsProper(r);
    case And(l, r) =>
      DnfIsProper(l);
      DnfIsProper(r);
      ProductGrows(Dnf(l), Dnf(r));
  }

  /** A subexpression that is over the bound puts the whole expression over it. */
  lemma SubexpressionsAreSmaller(e: Expression, part: Expression)
    requires !e.Clause? && (part == e.left || part == e.right)
    ensures Literals(Dnf(part)) <= Literals(Dnf(e))
  {
    DnfIsProper(e.left);
    DnfIsProper(e.right);
    if e.Or? {
      LiteralsJoin(Dnf(e.left), Dnf(e.right));
    } else {
      ProductGrows(Dnf(e.left), Dnf(e.right));
    }
  }

  // ----- the bounded expansion -----

  lemma {:induction false} ProductSnoc<T>(done: Groups<T>, next: seq<T>, right: Groups<T>)
    ensures Product(done + [next], right) == Product(done, right) + Distribute(next, right)
  {
    if done == [] {
      assert done + [next] == [next] && [next][1..] == [];
      assert Product([next], right) == Distribute(next, right) + Product([], right);
    } else {
      assert (done + [next])[1..] == done[1..] + [next];
      ProductSnoc(done[1..], next, right);
    }
  }

  lemma {:induction false} DistributeSnoc<T>(group: seq<T>, done: Groups<T>, next: seq<T>)
    ensures Distribute(group, done + [next]) == Distribute(group, done) + [group + next]
  {
    if done == [] {
      assert done + [next] == [next] && [next][1..] == [];
    } else {
      assert (done + [next])[1..] == done[1..] + [next];
      DistributeSnoc(group, done[1..], next);
    }
  }

  /** Every left group followed by every right group, in order. */
  method Expand(left: Groups<string>, right: Groups<string>) returns (groups: Groups<string>)
    ensures groups == Product(left, right)
  {
    groups := [];
    for i := 0 to |left|
      invariant groups == Product(left[..i], right)
    {
      ghost var before := groups;
      for j := 0 to |right|
        invariant groups == before + Distribute(left[i], right[..j])
      {
        DistributeSnoc(left[i], right[..j], right[j]);
        assert right[..j] + [right[j]] == right[..j + 1];
        groups := groups + [left[i] + right[j]];
      }
      assert right[..|right|] == right;
      ProductSnoc(left[..i], left[i], right);
      assert left[..i] + [left[i]] == left[..i + 1];
    }
    assert left[..|left|] == left;
  }

  /** Fails exactly when the unbounded expansion is too large: the early checks reject nothing extra. */
  method BoundedDnf(e: Expression) returns (r: Result<Groups<string>, FilterError>)
    ensures r == if Literals(Dnf(e)) <= MAX_CONDITIONS then Ok(Dnf(e)) else Err(TooMany)
  {
    var groups: Groups<string> := [];
    match e {
      case Clause(text) =>
        groups := [[text]];
      case Or(l, r') =>
        SubexpressionsAreSmaller(e, l);
        SubexpressionsAreSmaller(e, r');
        var left := BoundedDnf(l);
        if left.Err? {
          return left;
        }
        var right := BoundedDnf(r');
        if right.Err? {
          return right;
        }
        groups := left.value + right.value;
      case And(l, r') =>
        SubexpressionsAreSmaller(e, l);
        SubexpressionsAreSmaller(e, r');
        var left := BoundedDnf(l);
        if left.Err? {
          return left;
        }
        var right := BoundedDnf(r');
        if right.Err? {
          return right;
        }
        groups := Expand(left.value, right.value);
    }
    var size := CountLiterals(groups);
    return if size > MAX_CONDITIONS then Err(TooMany) else Ok(groups);
  }

  method CountLiterals(groups: Groups<string>) returns (size: nat)
    ensures size == Literals(groups)
  {
    size := 0;
    for i := 0 to |groups|
      invariant size == Literals(groups[..i])
    {
      LiteralsJoin(groups[..i], [groups[i]]);
      assert groups[..i] + [groups[i]] == groups[..i + 1];
      assert [groups[i]][1..] == [];
      size := size + |groups[i]|;
    }
    assert groups[..|groups|] == groups;
  }
}
