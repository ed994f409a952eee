/**
 `resolve_scalar_filter`: text to rows, and what the kernel's verdict on the
 rows says about the text.
 */
module FilterCompiler {
  import opened Common
  import opened FilterSyntax
  import opened FilterDnf
  import opened KernelFilter
  import opened FilterGrammar
  import opened ByteOrder
  import FilterParser

  const MAX_EXPRESSION_BYTES: nat := 4096

  /** A clause with its field looked up and its literal still a number. */
  datatype SourceTest = SourceTest(access: Access, comparison: nat, literal: int, signed: bool, bigEndian: bool)

  /** Splitting a clause at its operator and finding the field and the number. */
  type Resolver = string -> Result<SourceTest, FilterError>

  /** The width of the field in bits. */
  function Width(a: Access): nat {
    if a.bits != 0 then a.bits else 8 * a.size
  }

  /** How many values a field of so many bits has; only literals for narrower fields than 64 bits are masked. */
  function Modulus(width: nat): (m: nat)
    ensures 0 < m <= TWO_TO_64
  {
    if width < 64 then
      TwoToBelow(width, 64);
      TwoToValues();
      TwoTo(width)
    else TWO_TO_64
  }

  lemma {:induction false} TwoToBelow(a: nat, b: nat)
    requires a <= b
    ensures TwoTo(a) <= TwoTo(b)
  {
    if a < b {
      TwoToBelow(a, b - 1);
    }
  }

  lemma OneByteMore(bits: nat)
    ensures TwoTo(bits + 8) == 256 * TwoTo(bits)
  {
    assert TwoTo(bits + 2) == 4 * TwoTo(bits);
    assert TwoTo(bits + 4) == 16 * TwoTo(bits);
    assert TwoTo(bits + 6) == 64 * TwoTo(bits);
  }

  lemma TwoToValues()
    ensures TwoTo(8) == 0x100 && TwoTo(16) == 0x1_0000 && TwoTo(32) == 0x1_0000_0000 && TwoTo(64) == TWO_TO_64
  {
    OneByteMore(0);
    OneByteMore(8);
    OneByteMore(16);
    OneByteMore(24);
    OneByteMore(32);
    OneByteMore(40);
    OneByteMore(48);
    OneByteMore(56);
  }

  /** Two's complement of the literal, cut to the field's width. */
  function Masked(literal: int, width: nat): u64 {
    literal % Modulus(width)
  }

  /** Bit-fields have no byte order of their own. */
  predicate InNetworkOrder(t: SourceTest) {
    t.bigEndian && t.access.bits == 0
  }

  predicate HasSwap(size: nat) {
    size == 1 || size == 2 || size == 4 || size == 8
  }

  /** The value the kernel compares with: masked, and in the byte order of the field. */
  function Translate(t: SourceTest): Result<Test, FilterError> {
    var value := Masked(t.literal, Width(t.access));
    if !InNetworkOrder(t) then Ok(Test(t.access, t.comparison, value, t.signed))
    else if !HasSwap(t.access.size) then Err(Invalid)
    else
      SwapFits(value, t.access.size);
      Ok(Test(t.access, t.comparison, ToBigEndian(value, t.access.size), t.signed))
  }

  lemma SizeInBits(size: nat)
    requires HasSwap(size)
    ensures Power(size) == Modulus(8 * size)
  {
    TwoToValues();
    assert Power(1) == 0x100 && Power(2) == 0x1_0000 && Power(3) == 0x100_0000 && Power(4) == 0x1_0000_0000;
    assert Power(6) == 0x1_0000_0000_0000 && Power(8) == TWO_TO_64;
  }

  lemma SwapFits(value: nat, size: nat)
    requires HasSwap(size)
    ensures ToBigEndian(value, size) < Modulus(8 * size)
  {
    SizeInBits(size);
    LittleIsSmall(BigBytes(value, size));
  }

  function ResolveGroup(group: seq<string>, resolve: Resolver): (r: Result<seq<Test>, FilterError>)
    ensures r.Ok? ==> |r.value| == |group|
  {
    if group == [] then Ok([])
    else
      var first := resolve(group[0]);
      if first.Err? then Err(first.error)
      else if !IsComparison(first.value.comparison) then Err(Invalid)
      else
        var test := Translate(first.value);
        if test.Err? then Err(test.error)
        else
          var rest := ResolveGroup(group[1..], resolve);
          if rest.Err? then rest else Ok([test.value] + rest.value)
  }

  function ResolveGroups(groups: Groups<string>, resolve: Resolver): (r: Result<Groups<Test>, FilterError>)
    ensures r.Ok? ==> |r.value| == |groups|
  {
    if groups == [] then Ok([])
    else
      var first := ResolveGroup(groups[0], resolve);
      if first.Err? then Err(first.error)
      else
        var rest := ResolveGroups(groups[1..], resolve);
        if rest.Err? then rest else Ok([first.value] + rest.value)
  }

  method ResolveScalarFilter(expression: Option<string>, resolve: Resolver)
    returns (rows: Result<Option<seq<Condition>>, FilterError>)
    ensures expression.None? || Blank(expression.value) <==> rows == Ok(None)
    ensures rows.Ok? && rows.value.Some? ==>
      && Utf8Length(expression.value) <= MAX_EXPRESSION_BYTES
      && Parse(expression.value).Ok?
      && var tree := Parse(expression.value).value;
      && Literals(Dnf(tree)) <= MAX_CONDITIONS
      && ResolveGroups(Dnf(tree), resolve).Ok?
      && rows.value.value == Flatten(ResolveGroups(Dnf(tree), resolve).value, 0)
    ensures expression.Some? && !Blank(expression.value) && rows.Err? ==>
      || Utf8Length(expression.value) > MAX_EXPRESSION_BYTES
      || Parse(expression.value).Err?
      || Literals(Dnf(Parse(expression.value).value)) > MAX_CONDITIONS
      || ResolveGroups(Dnf(Parse(expression.value).value), resolve).Err?
  {
    if expression.None? || Blank(expression.value) {
      return Ok(None);
    }
    var source := expression.value;
    if Utf8Length(source) > MAX_EXPRESSION_BYTES {
      return Err(Invalid);
    }
    var parser := new FilterParser.BooleanParser(source);
    var tree := parser.ParseAll();
    if tree.Err? {
      return Err(tree.error);
    }
    var groups := BoundedDnf(tree.value);
    if groups.Err? {
      return Err(groups.error);
    }
    var tests := ResolveGroups(groups.value, resolve);
    if tests.Err? {
      return Err(tests.error);
    }
    return Ok(Some(Flatten(tests.value, 0)));
  }

  // ----- end to end -----

  /** A clause's truth value as the kernel sees it. */
  function ClauseTruth(resolve: Resolver, read: Reader): string -> Truth {
    text => if resolve(text).Ok? then TestTruth(resolve(text).value, read) else Unknown
  }

  function TestTruth(t: SourceTest, read: Reader): Truth {
    var test := Translate(t);
    if test.Ok? then Decide(test.value, read) else Unknown
  }

  lemma {:induction false} ResolvedGroup(group: seq<string>, resolve: Resolver, read: Reader)
    requires ResolveGroup(group, resolve).Ok?
    ensures Comparisons(ResolveGroup(group, resolve).value)
    ensures All(ResolveGroup(group, resolve).value, Atom(read)) == All(group, ClauseTruth(resolve, read))
  {
    if group != [] {
      ResolvedGroup(group[1..], resolve, read);
      assert ResolveGroup(group, resolve).value[1..] == ResolveGroup(group[1..], resolve).value;
    }
  }

  lemma {:induction false} ResolvedGroups(groups: Groups<string>, resolve: Resolver, read: Reader)
    requires NoneEmpty(groups) && ResolveGroups(groups, resolve).Ok?
    ensures Runnable(ResolveGroups(groups, resolve).value)
    ensures Any(ResolveGroups(groups, resolve).value, Atom(read)) == Any(groups, ClauseTruth(resolve, read))
  {
    if groups != [] {
      ResolvedGroup(groups[0], resolve, read);
      ResolvedGroups(groups[1..], resolve, read);
      assert ResolveGroups(groups, resolve).value[1..] == ResolveGroups(groups[1..], resolve).value;
    }
  }

  lemma {:induction false} GroupsAreFewerThanLiterals<T>(groups: Groups<T>)
    requires NoneEmpty(groups)
    ensures |groups| <= Literals(groups)
  {
    if groups != [] {
      GroupsAreFewerThanLiterals(groups[1..]);
    }
  }

  /** Compiling keeps the meaning: the kernel computes the tree's Kleene value, for every set of readable fields. */
  lemma CompilationIsCorrect(tree: Expression, resolve: Resolver, read: Reader)
    requires Literals(Dnf(tree)) <= MAX_CONDITIONS && ResolveGroups(Dnf(tree), resolve).Ok?
    ensures KernelVerdict(Flatten(ResolveGroups(Dnf(tree), resolve).value, 0), read)
         == Code(Value(tree, ClauseTruth(resolve, read)))
  {
    DnfIsProper(tree);
    GroupsAreFewerThanLiterals(Dnf(tree));
    ResolvedGroups(Dnf(tree), resolve, read);
    RunIsValue(ResolveGroups(Dnf(tree), resolve).value, read);
    DnfKeepsValue(tree, ClauseTruth(resolve, read));
  }

  /** The same from the printed text: whitespace and redundant parentheses do not matter. */
  lemma TextIsCorrect(text: Syntax, resolve: Resolver, read: Reader)
    requires IsOr(text) && Clauses(text) <= MAX_CONDITIONS && Depth(text) <= MAX_NESTING
    requires Literals(Dnf(Tree(text))) <= MAX_CONDITIONS && ResolveGroups(Dnf(Tree(text)), resolve).Ok?
    ensures Parse(Text(text)) == Ok(Tree(text))
    ensures KernelVerdict(Flatten(ResolveGroups(Dnf(Tree(text)), resolve).value, 0), read)
         == Code(Value(Tree(text), ClauseTruth(resolve, read)))
  {
    PrintedTextParses(text);
    CompilationIsCorrect(Tree(text), resolve, read);
  }
}
