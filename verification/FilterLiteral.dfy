/**
 When a compiled comparison says what the comparison in the text says.

 The literal is cut to the field's width, swapped for a field in network order,
 and then compared as it stands with what the kernel loads. So a literal the
 width cannot hold, a signed bit-field or an ordered comparison in network order
 can mean something else.
 */
module FilterLiteral {
  import opened Common
  import opened KernelFilter
  import opened FilterCompiler
  import opened ByteOrder

  /** Whole fields of the sizes the kernel can read, and bit-fields, which it reads as 8 bytes. */
  predicate IsReadable(a: Access) {
    if a.bits == 0 then HasSwap(a.size) else a.size == 8 && a.bits <= 64
  }

  /** The literals `parse_i64` and, failing that, `parse_u64` can return. */
  predicate IsLiteral(n: int, signed: bool) {
    (if signed then -(TWO_TO_64 / 2) else 0) <= n < TWO_TO_64
  }

  /** How the kernel reads the field. */
  function Left(t: SourceTest, observed: u64): int {
    if t.signed then SignedScalar(observed, t.access.size) else observed
  }

  /** What it compares the field with. */
  function Right(t: SourceTest): int {
    var test := Translate(t);
    if test.Err? then 0 else if t.signed then SignExtend(test.value.value, TWO_TO_64) else test.value.value
  }

  /** The number the field holds: its bytes in the order of its type, its top bit a sign if it is signed. */
  function Held(t: SourceTest, observed: u64): int {
    var n: nat := if InNetworkOrder(t) then Big(LittleBytes(observed, t.access.size)) else observed;
    if t.signed && n >= Modulus(Width(t.access)) / 2 then n - Modulus(Width(t.access)) else n
  }

  /** The kernel's comparison comes out as the comparison in the text does on the number held. */
  predicate Agrees(t: SourceTest, observed: u64)
    requires IsComparison(t.comparison)
  {
    Compare(t.comparison, Left(t, observed), Right(t)) <==> Compare(t.comparison, Held(t, observed), t.literal)
  }

  /** It does so whatever the field holds. */
  ghost predicate IsRight(t: SourceTest)
    requires IsComparison(t.comparison)
  {
    forall observed: u64 :: observed < Modulus(Width(t.access)) ==> Agrees(t, observed)
  }

  // ----- the condition -----

  predicate IsEquality(code: nat) { code <= 2 }

  /** `<=` and `>`: with the greatest number on the right they are always true and always false. */
  predicate IsUpTo(code: nat) { code == 4 || code == 5 }

  /** A literal `n` cut to `cut`, on an unsigned field with `m` values. */
  predicate MeantUnsigned(code: nat, n: int, cut: nat, m: nat) {
    n < m || (IsUpTo(code) && cut == m - 1)
  }

  /** On a signed whole field narrower than 64 bits. */
  predicate MeantSigned(code: nat, n: int, cut: nat, m: nat) {
    || (n >= 0 && (n < m || cut >= m / 2 || (IsUpTo(code) && cut == m / 2 - 1)))
    || (n < -(m / 2) && cut >= m / 2 && IsEquality(code))
  }

  /** On a signed bit-field, which the kernel reads as if it were unsigned. */
  predicate MeantSignedBits(code: nat, n: int, cut: nat, m: nat) {
    if IsEquality(code) then -(m / 2) <= n < m / 2
    else if IsUpTo(code) then n >= m / 2 && cut == m - 1
    else n < -(m / 2) && cut == 0
  }

  /** On an unsigned field of several bytes in network order. */
  predicate MeantSwapped(code: nat, n: int, cut: nat, m: nat) {
    if n < m then IsEquality(code) || n == 0 || n == m - 1 else IsUpTo(code) && cut == m - 1
  }

  predicate Meant(t: SourceTest) {
    var (code, n, m) := (t.comparison, t.literal, Modulus(Width(t.access)));
    var cut := Masked(n, Width(t.access));
    if InNetworkOrder(t) && t.access.size > 1 then !t.signed && MeantSwapped(code, n, cut, m)
    else if !t.signed then MeantUnsigned(code, n, cut, m)
    else if Width(t.access) == 64 then n < TWO_TO_64 / 2
    else if t.access.bits == 0 then MeantSigned(code, n, cut, m)
    else MeantSignedBits(code, n, cut, m)
  }

  /** The tests the condition is exact for; no type is both signed and in network order. */
  predicate IsTest(t: SourceTest) {
    && IsComparison(t.comparison) && IsReadable(t.access) && IsLiteral(t.literal, t.signed)
    && !(t.signed && InNetworkOrder(t) && t.access.size > 1)
  }

  /** One comparison with one literal is right on every field value exactly under the condition. */
  lemma ComparisonMeansWhatItSays(t: SourceTest)
    requires IsTest(t)
    ensures IsRight(t) <==> Meant(t)
  {
    if Meant(t) {
      forall observed: u64 | observed < Modulus(Width(t.access))
        ensures Agrees(t, observed)
      {
        MeantAgrees(t, observed);
      }
    } else {
      var observed := UnmeantDiffers(t);
    }
  }

  // ----- in numbers: `left` is what the kernel reads, `held` what the field holds -----

  lemma SmallMod(x: int, m: nat)
    requires 0 <= x < m
    ensures x % m == x
  {
  }

  lemma NegativeMod(x: int, m: nat)
    requires x < 0 <= x + m
    ensures x % m == x + m
  {
    assert x / m == -1;
  }

  lemma SignExtends(x: u64, m: nat)
    requires m > 0 && m % 2 == 0 && x < m
    ensures SignExtend(x, m) == if x < m / 2 then x else x - m
  {
    SmallMod(x, m);
  }

  lemma EvenModulus(width: nat)
    requires 0 < width <= 64
    ensures Modulus(width) % 2 == 0 && (width < 64 ==> Modulus(width) <= TWO_TO_64 / 2)
  {
    TwoToValues();
    if width < 64 {
      TwoToBelow(width, 63);
      assert TwoTo(64) == 2 * TwoTo(63);
    }
  }

  /** Cutting to fewer than 64 bits leaves a number that is its own sign extension; cutting to 64 keeps an `i64`. */
  lemma CutLiteral(n: int, width: nat, signed: bool)
    requires 0 < width <= 64 && IsLiteral(n, signed)
    ensures var (cut, m) := (Masked(n, width), Modulus(width));
            && cut < m && (0 <= n < m ==> cut == n) && (-m <= n < 0 ==> cut == n + m)
            && (width < 64 ==> SignExtend(cut, TWO_TO_64) == cut)
            && (width == 64 ==> SignExtend(cut, TWO_TO_64) == if n < TWO_TO_64 / 2 then n else n - TWO_TO_64)
  {
    var (cut, m) := (Masked(n, width), Modulus(width));
    EvenModulus(width);
    if 0 <= n < m {
      SmallMod(n, m);
    }
    if -m <= n < 0 {
      NegativeMod(n, m);
    }
    SignExtends(cut, TWO_TO_64);
  }

  /** How a whole field is read, and what it holds. */
  lemma WholeField(t: SourceTest, observed: u64)
    requires t.access.bits == 0 && HasSwap(t.access.size) && observed < Modulus(Width(t.access))
    ensures !t.signed ==> Left(t, observed) == observed
    ensures var m := Modulus(Width(t.access));
            t.signed ==> Left(t, observed) == if observed < m / 2 then observed else observed - m
    ensures !InNetworkOrder(t) || t.access.size == 1 ==> Held(t, observed) == Left(t, observed)
  {
    TwoToValues();
    SignExtends(observed, Modulus(Width(t.access)));
    if t.access.size == 1 {
      OneByte(observed);
    }
  }

  lemma OneByte(n: nat)
    requires n < 256
    ensures Big(LittleBytes(n, 1)) == n && ToBigEndian(n, 1) == n
  {
    var none: seq<nat> := [];
    assert LittleBytes(n, 1) == [n] && BigBytes(n, 1) == [n];
    assert [n][1..] == none && [n][..0] == none;
    assert Little([n]) == n + 256 * Little(none) && Big([n]) == 256 * Big(none) + n;
  }

  /** A bit-field is read without its sign. */
  lemma BitField(t: SourceTest, observed: u64)
    requires t.access.bits != 0 && IsReadable(t.access) && observed < Modulus(Width(t.access))
    ensures var m := Modulus(Width(t.access));
            && Left(t, observed) == (if t.signed && m == TWO_TO_64 && observed >= m / 2 then observed - m else observed)
            && Held(t, observed) == (if t.signed && observed >= m / 2 then observed - m else observed)
  {
    EvenModulus(Width(t.access));
    if t.access.bits < 64 {
      SmallSignExtends(observed);
    } else {
      SignExtends(observed, TWO_TO_64);
    }
  }

  lemma SmallSignExtends(x: u64)
    requires x < TWO_TO_64 / 2
    ensures SignExtend(x, TWO_TO_64) == x
  {
  }

  /** The right-hand side where no bytes are swapped. */
  lemma PlainRight(t: SourceTest)
    requires IsTest(t) && (!InNetworkOrder(t) || t.access.size == 1)
    ensures var cut := Masked(t.literal, Width(t.access));
            Right(t) == if t.signed then SignExtend(cut, TWO_TO_64) else cut
  {
    if InNetworkOrder(t) {
      TwoToValues();
      OneByte(Masked(t.literal, 8));
    }
  }

  /** Where no bytes are swapped the condition is enough. */
  lemma PlainAgrees(t: SourceTest, observed: u64)
    requires IsTest(t) && Meant(t) && (!InNetworkOrder(t) || t.access.size == 1)
    requires observed < Modulus(Width(t.access))
    ensures Agrees(t, observed)
  {
    PlainRight(t);
    EvenModulus(Width(t.access));
    CutLiteral(t.literal, Width(t.access), t.signed);
    if t.access.bits == 0 {
      WholeField(t, observed);
    } else {
      BitField(t, observed);
    }
  }

  lemma UnsignedDiffers(t: SourceTest) returns (observed: u64)
    requires IsTest(t) && !Meant(t) && (!InNetworkOrder(t) || t.access.size == 1) && !t.signed
    ensures observed < Modulus(Width(t.access)) && !Agrees(t, observed)
  {
    var cut := Masked(t.literal, Width(t.access));
    PlainRight(t);
    CutLiteral(t.literal, Width(t.access), false);
    observed := if IsUpTo(t.comparison) then cut + 1 else cut;
    if t.access.bits == 0 {
      WholeField(t, observed);
    } else {
      BitField(t, observed);
    }
  }

  lemma SignedDiffers(t: SourceTest) returns (observed: u64)
    requires IsTest(t) && !Meant(t) && (!InNetworkOrder(t) || t.access.size == 1) && t.signed && t.access.bits == 0
    ensures observed < Modulus(Width(t.access)) && !Agrees(t, observed)
  {
    var (code, n, m) := (t.comparison, t.literal, Modulus(Width(t.access)));
    var cut := Masked(n, Width(t.access));
    PlainRight(t);
    EvenModulus(Width(t.access));
    CutLiteral(n, Width(t.access), true);
    if Width(t.access) == 64 {
      observed := if IsEquality(code) then cut else 0;
    } else if n >= 0 {
      observed := if IsUpTo(code) then cut + 1 else cut;
    } else {
      observed := if IsEquality(code) then cut else if n + m / 2 < 0 then m / 2 else 0;
    }
    WholeField(t, observed);
  }

  lemma SignedBitsDiffer(t: SourceTest) returns (observed: u64)
    requires IsTest(t) && !Meant(t) && t.signed && t.access.bits != 0
    ensures observed < Modulus(Width(t.access)) && !Agrees(t, observed)
  {
    var (code, n, m) := (t.comparison, t.literal, Modulus(Width(t.access)));
    PlainRight(t);
    EvenModulus(Width(t.access));
    CutLiteral(n, Width(t.access), true);
    if IsEquality(code) {
      observed := Masked(n, Width(t.access));
    } else {
      observed := if n >= 0 && t.access.bits < 64 then m - 1 else 0;
    }
    BitField(t, observed);
  }

  // ----- network order -----

  /** The two sides on a field in network order, in terms of its bytes. */
  lemma SwappedField(t: SourceTest, observed: u64, field: seq<nat>)
    requires IsTest(t) && InNetworkOrder(t) && t.access.size > 1
    requires |field| == t.access.size && Bytes(field) && Little(field) == observed
    ensures observed < Modulus(Width(t.access)) == Power(t.access.size)
    ensures Left(t, observed) == Little(field) && Held(t, observed) == Big(field)
    ensures Right(t) == ToBigEndian(Masked(t.literal, Width(t.access)), t.access.size)
  {
    SizeInBits(t.access.size);
    LittleIsSmall(field);
    LittleOfLittleBytes(observed, t.access.size);
    LittleInjective(field, LittleBytes(observed, t.access.size));
  }

  lemma SwappedAgrees(t: SourceTest, observed: u64)
    requires IsTest(t) && Meant(t) && InNetworkOrder(t) && t.access.size > 1
    requires observed < Modulus(Width(t.access))
    ensures Agrees(t, observed)
  {
    var field := LittleBytes(observed, t.access.size);
    SizeInBits(t.access.size);
    LittleOfLittleBytes(observed, t.access.size);
    SwappedField(t, observed, field);
    CutLiteral(t.literal, Width(t.access), false);
    var cut := Masked(t.literal, Width(t.access));
    ReadingsAgree(field, cut);
    BigIsSmall(field);
    ExtremeBytes(field);
  }

  /** A field that the two byte orders put on different sides of the literal. */
  lemma SwappedOrderDiffers(t: SourceTest) returns (observed: u64)
    requires IsTest(t) && !Meant(t) && InNetworkOrder(t) && t.access.size > 1
    requires t.literal < Modulus(Width(t.access))
    ensures observed < Modulus(Width(t.access)) && !Agrees(t, observed)
  {
    SizeInBits(t.access.size);
    CutLiteral(t.literal, Width(t.access), false);
    var field := ReadingsDisagree(t.literal, t.access.size);
    LittleIsSmall(field);
    observed := Little(field);
    SwappedField(t, observed, field);
  }

  lemma SwappedCutDiffers(t: SourceTest) returns (observed: u64)
    requires IsTest(t) && !Meant(t) && InNetworkOrder(t) && t.access.size > 1
    requires t.literal >= Modulus(Width(t.access))
    ensures observed < Modulus(Width(t.access)) && !Agrees(t, observed)
  {
    var (cut, m) := (Masked(t.literal, Width(t.access)), Modulus(Width(t.access)));
    SizeInBits(t.access.size);
    var n := if IsUpTo(t.comparison) then m - 1 else cut;
    var field := BigBytes(n, t.access.size);
    BigOfBigBytes(n, t.access.size);
    ExtremeBytes(field);
    ReadingsAgree(field, cut);
    LittleIsSmall(field);
    observed := Little(field);
    SwappedField(t, observed, field);
  }

  lemma MeantAgrees(t: SourceTest, observed: u64)
    requires IsTest(t) && Meant(t) && observed < Modulus(Width(t.access))
    ensures Agrees(t, observed)
  {
    if InNetworkOrder(t) && t.access.size > 1 {
      SwappedAgrees(t, observed);
    } else {
      PlainAgrees(t, observed);
    }
  }

  /** And outside the condition some field value tells the difference. */
  lemma UnmeantDiffers(t: SourceTest) returns (observed: u64)
    requires IsTest(t) && !Meant(t)
    ensures observed < Modulus(Width(t.access)) && !Agrees(t, observed)
  {
    if InNetworkOrder(t) && t.access.size > 1 {
      if t.literal < Modulus(Width(t.access)) {
        observed := SwappedOrderDiffers(t);
      } else {
        observed := SwappedCutDiffers(t);
      }
    } else if !t.signed {
      observed := UnsignedDiffers(t);
    } else if t.access.bits == 0 {
      observed := SignedDiffers(t);
    } else {
      observed := SignedBitsDiffer(t);
    }
  }
}
