/**
 What a filter's verdict says in plain numbers and in plain logic: one row, a
 field in network order, and a tree with some of its fields unread.
 */
module FilterTruth {
  import opened Common
  import opened FilterSyntax
  import opened FilterDnf
  import opened KernelFilter
  import opened FilterCompiler
  import opened FilterGrammar
  import FilterPrinter

  // ----- one row -----

  lemma OneRow(row: Condition, read: Reader)
    ensures KernelVerdict([row], read) == Verdict(Step(row, read, Going(0, Yes, false)))
  {
    assert [row] + [] == [row];
    RunOne(row, [], read, Going(0, Yes, false));
  }

  /** The verdict of a single unsigned row is its comparison, code by code. */
  lemma UnsignedRow(access: Access, comparison: nat, value: u64, read: Reader, observed: u64)
    requires read(access) == Some(observed)
    ensures
      var verdict := KernelVerdict([Condition(access, comparison, value, false, 0)], read);
      && (comparison == 1 ==> verdict == if observed == value then 1 else 0)
      && (comparison == 2 ==> verdict == if observed != value then 1 else 0)
      && (comparison == 3 ==> verdict == if observed < value then 1 else 0)
      && (comparison == 4 ==> verdict == if observed <= value then 1 else 0)
      && (comparison == 5 ==> verdict == if observed > value then 1 else 0)
      && (comparison == 6 ==> verdict == if observed >= value then 1 else 0)
      && (comparison == 0 || comparison > 6 ==> verdict == -1)
  {
    OneRow(Condition(access, comparison, value, false, 0), read);
  }

  /** The number a field of so many bytes holds in two's complement. */
  function TwosComplement(bits: u64, size: nat): int {
    match size
    case 1 => if bits < 0x80 then bits else bits - 0x100
    case 2 => if bits < 0x8000 then bits else bits - 0x1_0000
    case 4 => if bits < 0x8000_0000 then bits else bits - 0x1_0000_0000
    case _ => if bits < 0x8000_0000_0000_0000 then bits else bits - 0x1_0000_0000_0000_0000
  }

  lemma SignedScalarIs(observed: u64, size: nat)
    requires (size == 1 && observed < 0x100) || (size == 2 && observed < 0x1_0000)
          || (size == 4 && observed < 0x1_0000_0000) || size == 8
    ensures SignedScalar(observed, size) == TwosComplement(observed, size)
  {
  }

  /** And of a single signed row the same between the numbers in two's complement. */
  lemma SignedRow(access: Access, comparison: nat, value: u64, read: Reader, observed: u64)
    requires read(access) == Some(observed)
    requires (access.size == 1 && observed < 0x100) || (access.size == 2 && observed < 0x1_0000)
          || (access.size == 4 && observed < 0x1_0000_0000) || access.size == 8
    ensures
      var verdict := KernelVerdict([Condition(access, comparison, value, true, 0)], read);
      var (left, right) := (TwosComplement(observed, access.size), TwosComplement(value, 8));
      && (comparison == 1 ==> verdict == if left == right then 1 else 0)
      && (comparison == 2 ==> verdict == if left != right then 1 else 0)
      && (comparison == 3 ==> verdict == if left < right then 1 else 0)
      && (comparison == 4 ==> verdict == if left <= right then 1 else 0)
      && (comparison == 5 ==> verdict == if left > right then 1 else 0)
      && (comparison == 6 ==> verdict == if left >= right then 1 else 0)
      && (comparison == 0 || comparison > 6 ==> verdict == -1)
  {
    SignedScalarIs(observed, access.size);
    SignedScalarIs(value, 8);
    OneRow(Condition(access, comparison, value, true, 0), read);
  }

  /** No rows match anything; a row that cannot be read decides nothing; a group out of turn is refused. */
  lemma OddRows(row: Condition, read: Reader)
    ensures KernelVerdict([], read) == 1
    ensures row.group == 0 && read(row.access) == None ==> KernelVerdict([row], read) == -1
    ensures row.group > 1 ==> KernelVerdict([row], read) == -1
    ensures row.group == 1 ==> KernelVerdict([row], read) == 1
  {
    OneRow(row, read);
  }

  /** A later row may stay in its group or open the next one; anything else is refused, unless a group has matched. */
  lemma {:induction false} GroupOutOfTurn(
    rows: seq<Condition>, row: Condition, rest: seq<Condition>, read: Reader, p: Progress)
    requires forall i :: 0 <= i < |rows| ==> row.group > rows[i].group + 1 || row.group < rows[i].group || row.group > 3
    requires p.Going? && (row.group > p.current + 1 || row.group < p.current || row.group > 3)
    ensures var r := Run(rows + [row] + rest, read, p); r.Done? && (r.verdict == 1 || r.verdict == -1)
    ensures Run(rows, read, p).Going? ==> Run(rows + [row] + rest, read, p) == Done(-1)
  {
    if rows == [] {
      assert rows + [row] + rest == [row] + rest;
      RunOne(row, rest, read, p);
      DoneStays(rest, read, -1);
    } else {
      var (first, more, next) := (rows[0], rows[1..], Step(rows[0], read, p));
      assert rows + [row] + rest == [first] + (more + [row] + rest) && rows == [first] + more;
      RunOne(first, more + [row] + rest, read, p);
      RunOne(first, more, read, p);
      if next.Done? {
        DoneStays(more + [row] + rest, read, next.verdict);
        DoneStays(more, read, next.verdict);
      } else {
        GroupOutOfTurn(more, row, rest, read, next);
      }
    }
  }

  // ----- fields in network order -----

  lemma BytesOfTwo(high: nat, low: nat)
    requires high < 0x100 && low < 0x100
    ensures ByteOrder.ToBigEndian(0x100 * high + low, 2) == high + 0x100 * low
  {
    var n := 0x100 * high + low;
    assert n / 0x100 == high && n % 0x100 == low;
    assert ByteOrder.BigBytes(high, 1) == [high] by {
      assert ByteOrder.BigBytes(high / 0x100, 0) == [];
    }
    assert ByteOrder.BigBytes(n, 2) == [high] + [low] == [high, low];
    assert [high, low][1..] == [low] && [low][1..] == [];
    assert ByteOrder.Little([low]) == low;
  }

  lemma PortIsNotCut(n: nat)
    requires n < 0x1_0000
    ensures Masked(n, 16) == n
  {
    TwoToValues();
    assert Modulus(16) == 0x1_0000;
  }

  lemma Swaps(t: SourceTest, value: u64)
    requires t.access.size == 2 && t.access.bits == 0 && t.bigEndian && Masked(t.literal, 16) == value
    requires ByteOrder.ToBigEndian(value, 2) < 0x1_0000
    ensures Translate(t) == Ok(Test(t.access, t.comparison, ByteOrder.ToBigEndian(value, 2), t.signed))
  {
    assert Width(t.access) == 16;
  }

  lemma PortIsCompiled(access: Access, high: nat, low: nat)
    requires access.size == 2 && access.bits == 0 && high < 0x100 && low < 0x100
    ensures Translate(SourceTest(access, 1, 0x100 * high + low, false, true))
         == Ok(Test(access, 1, high + 0x100 * low, false))
  {
    PortIsNotCut(0x100 * high + low);
    BytesOfTwo(high, low);
    Swaps(SourceTest(access, 1, 0x100 * high + low, false, true), 0x100 * high + low);
  }

  /**
   `port == n` on a field in network order: the byte that comes first on the
   wire is the high byte of the number, and the kernel loads it as the low one.
   */
  lemma PortEquals(access: Access, high: nat, low: nat, first: nat, second: nat, read: Reader)
    requires access.size == 2 && access.bits == 0 && high < 0x100 && low < 0x100 && first < 0x100 && second < 0x100
    requires read(access) == Some(first + 0x100 * second)
    ensures TestTruth(SourceTest(access, 1, 0x100 * high + low, false, true), read)
         == if first == high && second == low then Yes else No
  {
    PortIsCompiled(access, high, low);
  }

  // ----- logic -----

  /** The three-valued connectives: a false conjunct or a true disjunct settles it whatever the other is. */
  lemma Kleene(a: Truth, b: Truth)
    ensures Both(a, b) == Yes <==> a == Yes && b == Yes
    ensures Both(a, b) == No <==> a == No || b == No
    ensures Either(a, b) == Yes <==> a == Yes || b == Yes
    ensures Either(a, b) == No <==> a == No && b == No
  {
  }

  predicate Boolean(e: Expression, truth: string -> bool) {
    match e
    case Clause(text) => truth(text)
    case And(l, r) => Boolean(l, truth) && Boolean(r, truth)
    case Or(l, r) => Boolean(l, truth) || Boolean(r, truth)
  }

  /** `truth` agrees with every clause whose value is known. */
  predicate Completes(e: Expression, atom: string -> Truth, truth: string -> bool) {
    match e
    case Clause(text) => (atom(text) == Yes ==> truth(text)) && (atom(text) == No ==> !truth(text))
    case And(l, r) => Completes(l, atom, truth) && Completes(r, atom, truth)
    case Or(l, r) => Completes(l, atom, truth) && Completes(r, atom, truth)
  }

  predicate AllKnown(e: Expression, atom: string -> Truth) {
    match e
    case Clause(text) => atom(text) != Unknown
    case And(l, r) => AllKnown(l, atom) && AllKnown(r, atom)
    case Or(l, r) => AllKnown(l, atom) && AllKnown(r, atom)
  }

  lemma {:induction false} ValueIsSafe(e: Expression, atom: string -> Truth, truth: string -> bool)
    requires Completes(e, atom, truth)
    ensures Value(e, atom) == Yes ==> Boolean(e, truth)
    ensures Value(e, atom) == No ==> !Boolean(e, truth)
    ensures AllKnown(e, atom) ==> Value(e, atom) != Unknown
  {
    match e
    case Clause(_) =>
    case And(l, r) =>
      ValueIsSafe(l, atom, truth);
      ValueIsSafe(r, atom, truth);
    case Or(l, r) =>
      ValueIsSafe(l, atom, truth);
      ValueIsSafe(r, atom, truth);
  }

  /**
   A definite verdict holds whatever the fields that could not be read hold, and
   when every field was read the verdict is definite: ordinary true or false.
   */
  lemma VerdictIsSafe(tree: Expression, resolve: Resolver, read: Reader, truth: string -> bool)
    requires Literals(Dnf(tree)) <= MAX_CONDITIONS && ResolveGroups(Dnf(tree), resolve).Ok?
    requires Completes(tree, ClauseTruth(resolve, read), truth)
    ensures
      var verdict := KernelVerdict(Flatten(ResolveGroups(Dnf(tree), resolve).value, 0), read);
      && (verdict == 1 ==> Boolean(tree, truth)) && (verdict == 0 ==> !Boolean(tree, truth))
      && (AllKnown(tree, ClauseTruth(resolve, read)) ==> verdict == if Boolean(tree, truth) then 1 else 0)
  {
    CompilationIsCorrect(tree, resolve, read);
    ValueIsSafe(tree, ClauseTruth(resolve, read), truth);
  }

  // ----- texts -----

  /** Lengths are those of the UTF-8 encoding: one byte for ASCII, two up to U+07FF, three up to U+FFFF, then four. */
  lemma {:induction false} LengthsAdd(a: string, b: string)
    ensures Utf8Length(a + b) == Utf8Length(a) + Utf8Length(b)
  {
    if a == [] {
      assert a + b == b;
    } else {
      assert (a + b)[1..] == a[1..] + b;
      LengthsAdd(a[1..], b);
    }
  }

  lemma LengthOfOne(c: char)
    ensures
      var code := c as int;
      Utf8Length([c]) == if code <= 0x7F then 1 else if code <= 0x7FF then 2 else if code <= 0xFFFF then 3 else 4
  {
    assert [c][1..] == [];
  }

  /** Printable ASCII without parentheses and operator signs. */
  predicate Plain(text: string) {
    text != [] && forall i :: 0 <= i < |text| ==> '!' <= text[i] <= '~' && text[i] !in {'(', ')', '&', '|'}
  }

  /** A plain clause with blanks around it. */
  function Spaced(text: string): string { " " + text + " " }

  function Word(text: string): Syntax {
    Leaf(" ", text + " ")
  }

  /** `c` writes `tree` as `text`, and may stand where a conjunct or a disjunct may. */
  predicate WritesAs(c: Syntax, text: string, tree: Expression, depth: nat, clauses: nat) {
    && IsOr(c) && Text(c) == text && Tree(c) == tree && Depth(c) == depth && Clauses(c) == clauses
    && text != [] && text[|text| - 1] == ' '
  }

  lemma WordWrites(text: string)
    requires Plain(text)
    ensures IsPrimary(Word(text)) && IsAnd(Word(text)) && WritesAs(Word(text), Spaced(text), Clause(text), 0, 1)
  {
    assert FilterPrinter.Proper(text);
    FilterPrinter.SpacedClause(text);
    assert " " + text + " " == " " + (text + " ");
  }

  lemma Joined(l: Syntax, r: Syntax, s: string, t: string, e: Expression, f: Expression, d: nat, m: nat, n: nat)
    requires WritesAs(l, s, e, d, m) && WritesAs(r, t, f, 0, n) && IsAnd(r)
    ensures WritesAs(OrNode(l, r), s + "||" + t, Or(e, f), d, m + n)
    ensures IsAnd(l) && IsPrimary(r) ==>
      IsAnd(AndNode(l, r)) && WritesAs(AndNode(l, r), s + "&&" + t, And(e, f), d, m + n)
  {
    assert (s + "||" + t)[|s| + 2 + |t| - 1] == t[|t| - 1];
    assert (s + "&&" + t)[|s| + 2 + |t| - 1] == t[|t| - 1];
  }

  lemma WritesParses(c: Syntax, text: string, tree: Expression, depth: nat, clauses: nat)
    requires WritesAs(c, text, tree, depth, clauses) && depth <= 1 && clauses <= 4
    ensures Parse(text) == Ok(tree)
  {
    PrintedTextParses(c);
  }

  /** `&&` binds tighter than `||`. */
  lemma AndBindsTighter(a: string, b: string, c: string)
    requires Plain(a) && Plain(b) && Plain(c)
    ensures Parse(Spaced(a) + "||" + (Spaced(b) + "&&" + Spaced(c))) == Ok(Or(Clause(a), And(Clause(b), Clause(c))))
    ensures Parse((Spaced(a) + "&&" + Spaced(b)) + "||" + Spaced(c)) == Ok(Or(And(Clause(a), Clause(b)), Clause(c)))
  {
    var (x, y, z) := (Word(a), Word(b), Word(c));
    WordWrites(a);
    WordWrites(b);
    WordWrites(c);
    Joined(y, z, Spaced(b), Spaced(c), Clause(b), Clause(c), 0, 1, 1);
    Joined(x, AndNode(y, z), Spaced(a), Spaced(b) + "&&" + Spaced(c), Clause(a), And(Clause(b), Clause(c)), 0, 1, 2);
    Joined(x, y, Spaced(a), Spaced(b), Clause(a), Clause(b), 0, 1, 1);
    Joined(AndNode(x, y), z, Spaced(a) + "&&" + Spaced(b), Spaced(c), And(Clause(a), Clause(b)), Clause(c), 0, 2, 1);
    var (late, early) := (OrNode(x, AndNode(y, z)), OrNode(AndNode(x, y), z));
    WritesParses(late, Spaced(a) + "||" + (Spaced(b) + "&&" + Spaced(c)),
      Or(Clause(a), And(Clause(b), Clause(c))), 0, 3);
    WritesParses(early, (Spaced(a) + "&&" + Spaced(b)) + "||" + Spaced(c),
      Or(And(Clause(a), Clause(b)), Clause(c)), 0, 3);
  }

  lemma Enclosed(c: Syntax, s: string, e: Expression, n: nat)
    requires WritesAs(c, s, e, 0, n)
    ensures IsPrimary(Paren("", c, " ")) && IsAnd(Paren("", c, " "))
    ensures WritesAs(Paren("", c, " "), "(" + s + ") ", e, 1, n)
  {
    assert "" + "(" + s + ")" + " " == "(" + s + ") ";
  }

  /** Parentheses override that, and both operators associate to the left. */
  lemma Grouping(a: string, b: string, c: string)
    requires Plain(a) && Plain(b) && Plain(c)
    ensures Parse("(" + (Spaced(a) + "||" + Spaced(b)) + ") " + "&&" + Spaced(c))
         == Ok(And(Or(Clause(a), Clause(b)), Clause(c)))
    ensures Parse((Spaced(a) + "||" + Spaced(b)) + "||" + Spaced(c)) == Ok(Or(Or(Clause(a), Clause(b)), Clause(c)))
    ensures Parse((Spaced(a) + "&&" + Spaced(b)) + "&&" + Spaced(c)) == Ok(And(And(Clause(a), Clause(b)), Clause(c)))
  {
    var (x, y, z) := (Word(a), Word(b), Word(c));
    WordWrites(a);
    WordWrites(b);
    WordWrites(c);
    Joined(x, y, Spaced(a), Spaced(b), Clause(a), Clause(b), 0, 1, 1);
    var (either, both) := (OrNode(x, y), AndNode(x, y));
    Enclosed(either, Spaced(a) + "||" + Spaced(b), Or(Clause(a), Clause(b)), 2);
    Joined(Paren("", either, " "), z, "(" + (Spaced(a) + "||" + Spaced(b)) + ") ", Spaced(c),
      Or(Clause(a), Clause(b)), Clause(c), 1, 2, 1);
    WritesParses(AndNode(Paren("", either, " "), z),
      "(" + (Spaced(a) + "||" + Spaced(b)) + ") " + "&&" + Spaced(c), And(Or(Clause(a), Clause(b)), Clause(c)), 1, 3);
    Joined(either, z, Spaced(a) + "||" + Spaced(b), Spaced(c), Or(Clause(a), Clause(b)), Clause(c), 0, 2, 1);
    WritesParses(OrNode(either, z),
      (Spaced(a) + "||" + Spaced(b)) + "||" + Spaced(c), Or(Or(Clause(a), Clause(b)), Clause(c)), 0, 3);
    Joined(both, z, Spaced(a) + "&&" + Spaced(b), Spaced(c), And(Clause(a), Clause(b)), Clause(c), 0, 2, 1);
    WritesParses(AndNode(both, z),
      (Spaced(a) + "&&" + Spaced(b)) + "&&" + Spaced(c), And(And(Clause(a), Clause(b)), Clause(c)), 0, 3);
  }
}
