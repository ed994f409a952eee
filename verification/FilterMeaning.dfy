/**
 From single comparisons back to the text: which literals are safe, and what a compiled filter says about a packet.
 */
module FilterMeaning {
  import opened Common
  import opened FilterDnf
  import opened FilterSyntax
  import opened KernelFilter
  import opened FilterCompiler
  import opened FilterLiteral

  // ----- literals that are safe with every comparison -----

  predicate MeantByAll(t: SourceTest) {
    var (n, m) := (t.literal, Modulus(Width(t.access)));
    if InNetworkOrder(t) && t.access.size > 1 then n == 0 || n == m - 1
    else if !t.signed then n < m
    else if Width(t.access) == 64 then n < TWO_TO_64 / 2
    else t.access.bits == 0 && n >= 0 && (n < m || Masked(n, Width(t.access)) >= m / 2)
  }

  /**
   Every comparison with a literal is right exactly when: it fits an unsigned
   field; it is an `i64` on a signed 64-bit field; on a narrower signed field it
   is not negative and fits or stays out of range after the cut; and in network
   order it is all zeros or all ones. No literal is safe on a signed bit-field.
   */
  lemma LiteralMeansWhatItSays(t: SourceTest)
    requires IsTest(t)
    ensures (forall code: nat :: IsComparison(code) ==> IsRight(t.(comparison := code))) <==> MeantByAll(t)
  {
    forall code: nat | IsComparison(code)
      ensures IsRight(t.(comparison := code)) <==> Meant(t.(comparison := code))
    {
      ComparisonMeansWhatItSays(t.(comparison := code));
    }
    CutLiteral(t.literal, Width(t.access), t.signed);
    EvenModulus(Width(t.access));
    if MeantByAll(t) {
      assert forall code: nat :: IsComparison(code) ==> Meant(t.(comparison := code));
    } else {
      assert !Meant(t.(comparison := 1)) || !Meant(t.(comparison := 3));
    }
  }

  /** In network order equality is right for every literal that fits; an ordered comparison only at the extremes. */
  lemma NetworkOrderComparisons(t: SourceTest)
    requires IsTest(t) && InNetworkOrder(t) && !t.signed && t.literal < Modulus(Width(t.access))
    ensures IsRight(t)
       <==> (IsEquality(t.comparison) || t.access.size == 1 || t.literal == 0
             || t.literal == Modulus(Width(t.access)) - 1)
  {
    ComparisonMeansWhatItSays(t);
  }

  /**
   On a signed bit-field a literal in the field's range is right for equality and wrong for every ordered comparison.
   */
  lemma SignedBitFields(t: SourceTest)
    requires IsTest(t) && t.signed && 0 < t.access.bits < 64
    requires -(Modulus(Width(t.access)) as int / 2) <= t.literal < Modulus(Width(t.access)) / 2
    ensures IsRight(t) <==> IsEquality(t.comparison)
  {
    ComparisonMeansWhatItSays(t);
  }

  /** `field == -1` on a 32-bit signed field never matches, not even a field that holds -1. */
  lemma MinusOneNeverMatches(access: Access, read: Reader)
    requires access.size == 4 && access.bits == 0 && read(access) == Some(0xFFFF_FFFF)
    ensures Held(SourceTest(access, 1, -1, true, false), 0xFFFF_FFFF) == -1
    ensures TestTruth(SourceTest(access, 1, -1, true, false), read) == No
  {
    TwoToValues();
    assert Masked(-1, 32) == 0xFFFF_FFFF;
  }

  // ----- back to the text -----

  /** A clause's truth value on the numbers the fields hold. */
  function NumberTruth(resolve: Resolver, read: Reader): string -> Truth {
    text => if resolve(text).Ok? then Intended(resolve(text).value, read) else Unknown
  }

  function Intended(t: SourceTest, read: Reader): Truth {
    if !IsComparison(t.comparison) || read(t.access).None? then Unknown
    else if Compare(t.comparison, Held(t, read(t.access).value), t.literal) then Yes
    else No
  }

  /** Only fields of a size the kernel knows are ever read, and a read gives no more bits than the field has. */
  ghost predicate ReadsWithinWidth(read: Reader) {
    forall a: Access :: read(a).Some? ==> IsReadable(a) && read(a).value < Modulus(Width(a))
  }

  /** Every clause that names a readable field compares it with a literal that means what it says there. */
  predicate AllMeant(e: Expression, resolve: Resolver) {
    match e
    case Clause(text) =>
      var t := resolve(text);
      t.Ok? && IsComparison(t.value.comparison) && IsReadable(t.value.access) ==> IsTest(t.value) && Meant(t.value)
    case And(l, r) => AllMeant(l, resolve) && AllMeant(r, resolve)
    case Or(l, r) => AllMeant(l, resolve) && AllMeant(r, resolve)
  }

  lemma SameTruth(t: SourceTest, read: Reader)
    requires ReadsWithinWidth(read)
    requires IsComparison(t.comparison) && IsReadable(t.access) ==> IsTest(t) && Meant(t)
    ensures TestTruth(t, read) == Intended(t, read)
  {
    if IsComparison(t.comparison) && read(t.access).Some? {
      MeantAgrees(t, read(t.access).value);
    }
  }

  lemma {:induction false} SameValue(e: Expression, resolve: Resolver, read: Reader)
    requires AllMeant(e, resolve) && ReadsWithinWidth(read)
    ensures Value(e, ClauseTruth(resolve, read)) == Value(e, NumberTruth(resolve, read))
  {
    match e
    case And(l, r) =>
      SameValue(l, resolve, read);
      SameValue(r, resolve, read);
    case Or(l, r) =>
      SameValue(l, resolve, read);
      SameValue(r, resolve, read);
    case Clause(text) =>
      if resolve(text).Ok? {
        SameTruth(resolve(text).value, read);
      }
  }

  /** The kernel's verdict is the Kleene value of the text over the numbers in the packet, whatever their byte order. */
  lemma FilterIsCorrect(tree: Expression, resolve: Resolver, read: Reader)
    requires Literals(Dnf(tree)) <= MAX_CONDITIONS && ResolveGroups(Dnf(tree), resolve).Ok?
    requires AllMeant(tree, resolve) && ReadsWithinWidth(read)
    ensures KernelVerdict(Flatten(ResolveGroups(Dnf(tree), resolve).value, 0), read)
         == Code(Value(tree, NumberTruth(resolve, read)))
  {
    CompilationIsCorrect(tree, resolve, read);
    SameValue(tree, resolve, read);
  }
}
