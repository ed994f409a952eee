/** Writing a tree out: which trees the parser can return, and a text for each of them. */
module FilterPrinter {
  import opened Common
  import opened FilterSyntax
  import opened FilterGrammar
  import opened FilterAccepts

  /** A clause as it stands in a tree: what the scanner can see, without trailing whitespace. */
  predicate Proper(text: string) {
    ClauseText(text) && TrimEnd(text) == text
  }

  predicate AllProper(e: Expression) {
    match e
    case Clause(text) => Proper(text)
    case And(l, r) => AllProper(l) && AllProper(r)
    case Or(l, r) => AllProper(l) && AllProper(r)
  }

  function ClauseCount(e: Expression): (n: nat)
    ensures n > 0
  {
    match e
    case Clause(_) => 1
    case And(l, r) => ClauseCount(l) + ClauseCount(r)
    case Or(l, r) => ClauseCount(l) + ClauseCount(r)
  }

  /** Where an operand stands: on its own, beside `&&` or beside `||`. */
  datatype Level = Primary | Conjunct | Disjunct

  /** A space after every clause, and parentheses only where the operators need them. */
  function Print(e: Expression, level: Level): Syntax {
    match e
    case Clause(text) => Leaf("", text + " ")
    case And(l, r) =>
      var node := AndNode(Print(l, Conjunct), Print(r, Primary));
      if level == Primary then Wrap(node) else node
    case Or(l, r) =>
      var node := OrNode(Print(l, Disjunct), Print(r, Conjunct));
      if level == Disjunct then node else Wrap(node)
  }

  function Wrap(node: Syntax): Syntax {
    Paren("", node, "")
  }

  predicate IsAt(c: Syntax, level: Level) {
    match level
    case Primary => IsPrimary(c)
    case Conjunct => IsAnd(c)
    case Disjunct => IsOr(c)
  }

  lemma SpacedClause(text: string)
    requires Proper(text)
    ensures ClauseText(text + " ") && TrimEnd(text + " ") == text
    ensures !EndsWith(text + " ", '&') && !EndsWith(text + " ", '|')
  {
    ClauseTextTail(text, " ");
    TrimEndOf(text, " ");
    PaddedText(text, " ");
  }

  /** No operator sign at the end of the text. */
  predicate EndsCleanly(text: string) {
    !EndsWith(text, '&') && !EndsWith(text, '|')
  }

  /** `c` spells `e` at a level, cleanly, with as many clauses and no more parentheses around any of them. */
  predicate Writes(c: Syntax, e: Expression, level: Level) {
    && Tree(c) == e && IsAt(c, level) && Text(c) != [] && EndsCleanly(Text(c))
    && Clauses(c) == ClauseCount(e) && Depth(c) < ClauseCount(e)
  }

  lemma CleanRight(left: string, op: string, right: string)
    requires right != [] && EndsCleanly(right)
    ensures left + op + right != [] && EndsCleanly(left + op + right)
  {
    var t := left + op + right;
    assert t[|t| - 1] == right[|right| - 1];
  }

  lemma LeafSpells(text: string, level: Level)
    requires Proper(text)
    ensures Writes(Leaf("", text + " "), Clause(text), level)
  {
    SpacedClause(text);
    var c := Leaf("", text + " ");
    assert Text(c) == text + " ";
    assert IsPrimary(c);
    Levels(c);
  }

  lemma AndSpells(l: Syntax, r: Syntax, e: Expression)
    requires e.And? && Writes(l, e.left, Conjunct) && Writes(r, e.right, Primary)
    ensures Writes(AndNode(l, r), e, Conjunct) && Depth(AndNode(l, r)) + 1 < ClauseCount(e)
  {
    CleanRight(Text(l), "&&", Text(r));
  }

  lemma OrSpells(l: Syntax, r: Syntax, e: Expression)
    requires e.Or? && Writes(l, e.left, Disjunct) && Writes(r, e.right, Conjunct)
    ensures Writes(OrNode(l, r), e, Disjunct) && Depth(OrNode(l, r)) + 1 < ClauseCount(e)
  {
    CleanRight(Text(l), "||", Text(r));
  }

  lemma WrapSpells(node: Syntax, e: Expression, level: Level)
    requires Writes(node, e, Disjunct) && Depth(node) + 1 < ClauseCount(e)
    ensures Writes(Wrap(node), e, level)
  {
    var t := Text(Wrap(node));
    assert t[|t| - 1] == ')';
    assert IsPrimary(Wrap(node));
    Levels(Wrap(node));
  }

  /** The printed form is in the grammar at its level and spells the tree. */
  lemma {:induction false} PrintSpells(e: Expression, level: Level)
    requires AllProper(e)
    ensures Writes(Print(e, level), e, level)
  {
    match e
    case Clause(text) => LeafSpells(text, level);
    case And(l, r) =>
      var node := AndNode(Print(l, Conjunct), Print(r, Primary));
      PrintSpells(l, Conjunct);
      PrintSpells(r, Primary);
      AndSpells(node.left, node.right, e);
      Levels(node);
      WrapSpells(node, e, level);
    case Or(l, r) =>
      var node := OrNode(Print(l, Disjunct), Print(r, Conjunct));
      PrintSpells(l, Disjunct);
      PrintSpells(r, Conjunct);
      OrSpells(node.left, node.right, e);
      WrapSpells(node, e, level);
  }

  /** Every tree of proper clauses has a text, and up to the clause bound it parses back to the tree. */
  lemma EveryTreeIsWritten(e: Expression)
    requires AllProper(e)
    ensures if ClauseCount(e) <= MAX_CONDITIONS
            then Parse(Text(Print(e, Disjunct))) == Ok(e) else Parse(Text(Print(e, Disjunct))).Err?
  {
    PrintSpells(e, Disjunct);
    PrintedTextParses(Print(e, Disjunct));
  }

  lemma {:induction false} TrimEndTwice(raw: string)
    ensures TrimEnd(TrimEnd(raw)) == TrimEnd(raw) && TrimEnd(raw) <= raw
  {
    if raw != [] && IsWhitespace(raw[|raw| - 1]) {
      TrimEndTwice(raw[..|raw| - 1]);
    }
  }

  lemma TrimmedIsProper(raw: string)
    requires ClauseText(raw)
    ensures Proper(TrimEnd(raw))
  {
    var text := TrimEnd(raw);
    TrimEndTwice(raw);
    TrimKeepsSomething(raw);
    forall i | 0 <= i < |text|
      ensures !StopsAt(text, i)
    {
      assert !StopsAt(raw, i);
    }
  }

  /** What the grammar spells has proper clauses, as many as the text. */
  lemma {:induction false} GrammarIsProper(c: Syntax)
    requires IsOr(c)
    ensures AllProper(Tree(c)) && ClauseCount(Tree(c)) == Clauses(c)
  {
    match c
    case Leaf(_, raw) =>
      assert IsAnd(c) && IsPrimary(c);
      TrimmedIsProper(raw);
    case Paren(_, inner, _) =>
      assert IsAnd(c) && IsPrimary(c);
      GrammarIsProper(inner);
    case AndNode(l, r) =>
      assert IsAnd(c);
      Levels(l);
      Levels(r);
      GrammarIsProper(l);
      GrammarIsProper(r);
    case OrNode(l, r) =>
      Levels(r);
      GrammarIsProper(l);
      GrammarIsProper(r);
  }

  /** The trees the parser can return are exactly those of at most four proper clauses. */
  lemma ParserImage(e: Expression)
    ensures (exists s :: Parse(s) == Ok(e)) <==> AllProper(e) && ClauseCount(e) <= MAX_CONDITIONS
  {
    if s :| Parse(s) == Ok(e) {
      AcceptsExactlyTheGrammar(s, e);
      var c :| IsOr(c) && Text(c) == s && Tree(c) == e && Clauses(c) <= MAX_CONDITIONS && Depth(c) <= MAX_NESTING;
      GrammarIsProper(c);
    }
    if AllProper(e) && ClauseCount(e) <= MAX_CONDITIONS {
      EveryTreeIsWritten(e);
    }
  }
}
