/**
 Every text of the grammar parses back to the tree it spells, provided it stays
 within the clause and nesting bounds, and is refused otherwise.
 */
module FilterGrammar {
  import opened Common
  import opened FilterSyntax

  // ----- whitespace and scanning -----

  lemma {:induction false} SkipBlank(ws: string, s: string)
    requires Blank(ws) && (s != [] ==> !IsWhitespace(s[0]))
    ensures Skip(ws + s) == s
  {
    if ws == [] {
      assert ws + s == s;
    } else {
      assert (ws + s)[1..] == ws[1..] + s;
      SkipBlank(ws[1..], s);
    }
  }

  /** What may follow a complete operand: the end, a closing parenthesis or an operator. */
  predicate Follow(rest: string) {
    rest == [] || StopsAt(rest, 0)
  }

  /** No operator token straddles the end of `text` and the start of `rest`. */
  predicate Clean(text: string, rest: string) {
    && (EndsWith(text, '&') ==> !Twice(rest, 0, '&'))
    && (EndsWith(text, '|') ==> !Twice(rest, 0, '|'))
  }

  lemma StopsInside(raw: string, rest: string, i: nat)
    requires i < |raw| && Follow(rest) && Clean(raw, rest) && !StopsAt(raw, i)
    ensures !StopsAt(raw + rest, i)
  {
    var s := raw + rest;
    assert s[i] == raw[i];
    if i + 1 < |raw| {
      assert s[i + 1] == raw[i + 1];
    } else if rest != [] {
      assert s[i + 1] == rest[0];
    }
  }

  lemma {:induction false} ScanTo(s: string, i: nat, e: nat)
    requires i <= e <= |s| && (e < |s| ==> StopsAt(s, e))
    requires forall k :: i <= k < e ==> !StopsAt(s, k)
    ensures ClauseEnd(s, i) == e
    decreases e - i
  {
    if i < e {
      ScanTo(s, i + 1, e);
    }
  }

  /** The scanner stops where the clause ends. */
  lemma ScanClause(raw: string, rest: string)
    requires ClauseText(raw) && Follow(rest) && Clean(raw, rest)
    ensures ClauseEnd(raw + rest, 0) == |raw| && (raw + rest)[..|raw|] == raw && (raw + rest)[|raw|..] == rest
  {
    var s := raw + rest;
    forall k | 0 <= k < |raw|
      ensures !StopsAt(s, k)
    {
      StopsInside(raw, rest, k);
    }
    assert rest != [] ==> s[|raw|] == rest[0];
    assert |rest| > 1 ==> s[|raw| + 1] == rest[1];
    ScanTo(s, 0, |raw|);
  }

  lemma {:induction false} TrimKeepsSomething(raw: string)
    requires raw != [] && !IsWhitespace(raw[0])
    ensures TrimEnd(raw) != []
  {
    if IsWhitespace(raw[|raw| - 1]) {
      TrimKeepsSomething(raw[..|raw| - 1]);
    }
  }

  // ----- texts of the grammar parse -----

  /** Whitespace after the last operand that is left for the next token to skip. */
  function Trailing(c: Syntax): string {
    match c
    case Leaf(_, _) => ""
    case Paren(_, _, tail) => tail
    case AndNode(_, r) => Trailing(r)
    case OrNode(_, r) => Trailing(r)
  }

  predicate Fits(c: Syntax, clauses: nat, nesting: nat) {
    clauses + Clauses(c) <= MAX_CONDITIONS && nesting + Depth(c) <= MAX_NESTING
  }

  lemma Levels(c: Syntax)
    ensures IsPrimary(c) ==> IsAnd(c) && (c.Leaf? || c.Paren?)
    ensures IsAnd(c) ==> IsOr(c)
  {
  }

  lemma {:induction false} TrailingBlank(c: Syntax)
    requires IsOr(c)
    ensures Blank(Trailing(c)) && Text(c) != [] && Clauses(c) >= 1
    decreases c
  {
    match c
    case Leaf(_, _) =>
      assert IsAnd(c) && IsPrimary(c);
    case Paren(_, inner, _) =>
      assert IsAnd(c) && IsPrimary(c);
      TrailingBlank(inner);
    case AndNode(l, r) =>
      assert IsAnd(c);
      Levels(r);
      Levels(l);
      TrailingBlank(l);
      TrailingBlank(r);
    case OrNode(l, r) =>
      Levels(r);
      TrailingBlank(l);
      TrailingBlank(r);
  }

  lemma ConsumeAfter(ws: string, token: string, rest: string)
    requires Blank(ws) && token != [] && !IsWhitespace(token[0])
    ensures Consume(ws + (token + rest), token) == (true, rest)
  {
    SkipBlank(ws, token + rest);
  }

  lemma ConsumeOther(ws: string, rest: string, token: string)
    requires Blank(ws) && Follow(rest) && !Starts(rest, token)
    ensures Consume(ws + rest, token) == (false, rest)
  {
    SkipBlank(ws, rest);
  }

  /** Out of bounds it is an error: too many clauses if only they are, too deep if only that is. */
  predicate Refuses(c: Syntax, r: Outcome, clauses: nat, nesting: nat) {
    && r.Err?
    && (nesting + Depth(c) <= MAX_NESTING ==> r.error == TooMany)
    && (clauses + Clauses(c) <= MAX_CONDITIONS ==> r.error == Invalid)
  }

  /** `r` reads `c` as an operand and leaves the whitespace after it and `rest`, or refuses it. */
  predicate Reads(c: Syntax, r: Outcome, rest: string, clauses: nat, nesting: nat) {
    if Fits(c, clauses, nesting) then r == Ok(Parsed(Tree(c), Trailing(c) + rest, clauses + Clauses(c)))
    else Refuses(c, r, clauses, nesting)
  }

  /** `whole` goes on as `after` once `c` has been read. */
  predicate Continues(c: Syntax, whole: Outcome, after: Outcome, clauses: nat, nesting: nat) {
    if Fits(c, clauses, nesting) then whole == after else Refuses(c, whole, clauses, nesting)
  }

  function Read(c: Syntax, rest: string, clauses: nat): Parsed {
    Parsed(Tree(c), rest, clauses + Clauses(c))
  }

  lemma {:induction false} SkipTwice(s: string)
    ensures Skip(Skip(s)) == Skip(s)
  {
    if s != [] && IsWhitespace(s[0]) {
      SkipTwice(s[1..]);
    }
  }

  /** What the parser does with a clause of `n` characters. */
  lemma PrimaryAtClause(s: string, body: string, n: nat, clauses: nat, nesting: nat)
    requires Skip(s) == body && body != [] && body[0] != '('
    requires n <= |body| && ClauseEnd(body, 0) == n && TrimEnd(body[..n]) != []
    ensures ParsePrimary(s, clauses, nesting) ==
      if clauses + 1 > MAX_CONDITIONS then Err(TooMany)
      else Ok(Parsed(Clause(TrimEnd(body[..n])), body[n..], clauses + 1))
  {
    SkipTwice(s);
    assert Consume(Skip(s), "(") == (false, body);
  }

  lemma CleanTail(lead: string, raw: string, rest: string)
    requires raw != [] && Clean(lead + raw, rest)
    ensures Clean(raw, rest)
  {
    assert (lead + raw)[|lead + raw| - 1] == raw[|raw| - 1];
  }

  lemma Halves(a: string, b: string, c: string)
    ensures (b + c)[..|b|] == b && (b + c)[|b|..] == c && a + b + c == a + (b + c)
    ensures b != [] ==> (b + c)[0] == b[0]
  {
  }

  lemma LeafText(lead: string, raw: string, rest: string)
    requires Blank(lead) && ClauseText(raw) && Follow(rest) && Clean(lead + raw, rest)
    ensures
      var body := raw + rest;
      && Skip(lead + raw + rest) == body && body[0] != '('
      && ClauseEnd(body, 0) == |raw| && body[..|raw|] == raw && body[|raw|..] == rest && TrimEnd(raw) != []
  {
    Halves(lead, raw, rest);
    SkipBlank(lead, raw + rest);
    CleanTail(lead, raw, rest);
    ScanClause(raw, rest);
    TrimKeepsSomething(raw);
  }

  lemma LeafParses(c: Syntax, rest: string, clauses: nat, nesting: nat)
    requires c.Leaf? && IsPrimary(c) && Follow(rest) && Clean(Text(c), rest) && nesting <= MAX_NESTING
    ensures Reads(c, ParsePrimary(Text(c) + rest, clauses, nesting), rest, clauses, nesting)
  {
    LeafText(c.lead, c.raw, rest);
    PrimaryAtClause(Text(c) + rest, c.raw + rest, |c.raw|, clauses, nesting);
    assert Trailing(c) + rest == rest;
  }

  lemma AndLoopStep(left: Parsed, rest: string, nesting: nat)
    requires Consume(left.rest, "&&") == (true, rest)
    ensures AndLoop(left, nesting) ==
      var right := ParsePrimary(rest, left.clauses, nesting);
      if right.Err? then right
      else AndLoop(Parsed(And(left.expression, right.value.expression), right.value.rest, right.value.clauses), nesting)
  {
  }

  lemma ParenText(lead: string, body: string, rest: string)
    requires Blank(lead)
    ensures Consume(Skip(lead + ("(" + body)), "(") == (true, body)
    ensures Consume(")" + rest, ")") == (true, rest)
  {
    SkipBlank(lead, "(" + body);
    SkipBlank("", "(" + body);
    assert "" + ("(" + body) == "(" + body && "" + (")" + rest) == ")" + rest;
    SkipTwice(lead + ("(" + body));
    ConsumeAfter("", ")", rest);
  }

  /** What the parser does with a parenthesis. */
  lemma PrimaryAtParen(s: string, inside: string, inner: Outcome, clauses: nat, nesting: nat)
    requires Consume(Skip(s), "(") == (true, inside) && nesting <= MAX_NESTING
    requires nesting < MAX_NESTING ==> inner == ParseOr(inside, clauses, nesting + 1)
    ensures ParsePrimary(s, clauses, nesting) ==
      if nesting == MAX_NESTING then Err(Invalid)
      else if inner.Err? then inner
      else
        var (close, rest) := Consume(inner.value.rest, ")");
        if close then Ok(Parsed(inner.value.expression, rest, inner.value.clauses)) else Err(Invalid)
  {
  }

  lemma OrLoopEnds(left: Parsed, nesting: nat)
    requires Follow(left.rest) && !Starts(left.rest, "||")
    ensures OrLoop(left, nesting) == Ok(left)
  {
    assert "" + left.rest == left.rest;
    ConsumeOther("", left.rest, "||");
  }

  lemma ParenSplit(c: Syntax, rest: string)
    requires c.Paren?
    ensures Text(c) + rest == c.lead + ("(" + (Text(c.inner) + (")" + (c.tail + rest))))
  {
  }

  lemma {:induction false} ParenParses(c: Syntax, rest: string, clauses: nat, nesting: nat)
    requires c.Paren? && IsPrimary(c) && nesting <= MAX_NESTING
    ensures Reads(c, ParsePrimary(Text(c) + rest, clauses, nesting), rest, clauses, nesting)
    decreases c, 0
  {
    var (inner, after) := (c.inner, ")" + (c.tail + rest));
    var inside := Text(inner) + after;
    ParenSplit(c, rest);
    ParenText(c.lead, inside, c.tail + rest);
    if nesting == MAX_NESTING {
      PrimaryAtParen(Text(c) + rest, inside, Err(Invalid), clauses, nesting);
    } else {
      OrTextParses(inner, after, clauses, nesting + 1);
      OrLoopEnds(Read(inner, after, clauses), nesting + 1);
      PrimaryAtParen(Text(c) + rest, inside, ParseOr(inside, clauses, nesting + 1), clauses, nesting);
    }
  }

  lemma {:induction false} PrimaryTextParses(c: Syntax, rest: string, clauses: nat, nesting: nat)
    requires IsPrimary(c) && Follow(rest) && Clean(Text(c), rest) && nesting <= MAX_NESTING
    ensures Reads(c, ParsePrimary(Text(c) + rest, clauses, nesting), rest, clauses, nesting)
    decreases c, 1
  {
    if c.Leaf? {
      LeafParses(c, rest, clauses, nesting);
    } else {
      ParenParses(c, rest, clauses, nesting);
    }
  }

  /** The text of an operator node, split after its left operand. */
  lemma SplitAtOperator(left: string, op: string, right: string, rest: string, c: char)
    requires op == [c, c] && (c == '&' || c == '|') && !EndsWith(left, c) && right != []
    ensures (left + op + right) + rest == left + (op + (right + rest))
    ensures Follow(op + (right + rest)) && Clean(left, op + (right + rest))
    ensures c == '|' ==> !Starts(op + (right + rest), "&&")
    ensures Clean(left + op + right, rest) <==> Clean(right, rest)
  {
    var after := op + (right + rest);
    assert after[0] == c && after[1] == c;
    assert (left + op + right)[|left + op + right| - 1] == right[|right| - 1];
  }

  lemma {:induction false} AndTextParses(c: Syntax, rest: string, clauses: nat, nesting: nat)
    requires IsAnd(c) && Follow(rest) && Clean(Text(c), rest) && nesting <= MAX_NESTING
    ensures Continues(c, ParseAnd(Text(c) + rest, clauses, nesting),
      AndLoop(Read(c, Trailing(c) + rest, clauses), nesting), clauses, nesting)
    decreases c, 3
  {
    if c.AndNode? {
      AndNodeParses(c, rest, clauses, nesting);
    } else {
      PrimaryTextParses(c, rest, clauses, nesting);
    }
  }

  /** A loop that joins the right operand goes on as if both operands had been read at once. */
  lemma JoinedOperands(
    c: Syntax, rest: string, clauses: nat, nesting: nat, right: Outcome, afterLeft: Outcome, loop: Parsed -> Outcome)
    requires c.AndNode? && Reads(c.right, right, rest, clauses + Clauses(c.left), nesting)
    requires afterLeft ==
      if right.Err? then right
      else loop(Parsed(And(Tree(c.left), right.value.expression), right.value.rest, right.value.clauses))
    ensures if Fits(c.right, clauses + Clauses(c.left), nesting)
            then right.Ok? && afterLeft == loop(Read(c, Trailing(c) + rest, clauses))
            else right.Err? && afterLeft == right
  {
  }

  lemma {:induction false} AndNodeParses(c: Syntax, rest: string, clauses: nat, nesting: nat)
    requires c.AndNode? && IsAnd(c) && Follow(rest) && Clean(Text(c), rest) && nesting <= MAX_NESTING
    ensures Continues(c, ParseAnd(Text(c) + rest, clauses, nesting),
      AndLoop(Read(c, Trailing(c) + rest, clauses), nesting), clauses, nesting)
    decreases c, 2
  {
    var (l, r, n) := (c.left, c.right, clauses + Clauses(c.left));
    var next := Text(r) + rest;
    AndNodeText(c, rest);
    AndTextParses(l, "&&" + next, clauses, nesting);
    PrimaryTextParses(r, rest, n, nesting);
    var right := ParsePrimary(next, n, nesting);
    var afterLeft := AndLoop(Read(l, Trailing(l) + ("&&" + next), clauses), nesting);
    AndChained(Tree(l), Trailing(l), n, next, right, nesting);
    JoinedOperands(c, rest, clauses, nesting, right, afterLeft, p => AndLoop(p, nesting));
    Chain(c, l, r, clauses, nesting, ParseAnd(Text(c) + rest, clauses, nesting), afterLeft, right,
          AndLoop(Read(c, Trailing(c) + rest, clauses), nesting));
  }

  lemma AndNodeText(c: Syntax, rest: string)
    requires c.AndNode? && IsAnd(c) && Clean(Text(c), rest)
    ensures
      var after := "&&" + (Text(c.right) + rest);
      && Text(c) + rest == Text(c.left) + after && Follow(after) && Clean(Text(c.left), after)
    ensures Clean(Text(c.right), rest) && Blank(Trailing(c.left))
  {
    Levels(c.left);
    Levels(c.right);
    TrailingBlank(c.right);
    TrailingBlank(c.left);
    SplitAtOperator(Text(c.left), "&&", Text(c.right), rest, '&');
  }

  lemma FitsBoth(l: Syntax, r: Syntax, clauses: nat, nesting: nat)
    ensures Fits(AndNode(l, r), clauses, nesting)
      <==> Fits(l, clauses, nesting) && Fits(r, clauses + Clauses(l), nesting)
    ensures Fits(OrNode(l, r), clauses, nesting)
      <==> Fits(l, clauses, nesting) && Fits(r, clauses + Clauses(l), nesting)
  {
  }

  /** Two operands in sequence: errors pass through, counts and bounds add up. */
  lemma Chain(
    c: Syntax, l: Syntax, r: Syntax, clauses: nat, nesting: nat, whole: Outcome, afterLeft: Outcome, right: Outcome,
    afterBoth: Outcome)
    requires c == AndNode(l, r) || c == OrNode(l, r)
    requires Continues(l, whole, afterLeft, clauses, nesting)
    requires Fits(r, clauses + Clauses(l), nesting) ==> right.Ok? && afterLeft == afterBoth
    requires !Fits(r, clauses + Clauses(l), nesting) ==>
      Refuses(r, right, clauses + Clauses(l), nesting) && afterLeft == right
    ensures Continues(c, whole, afterBoth, clauses, nesting)
  {
    FitsBoth(l, r, clauses, nesting);
  }

  lemma AndChained(e: Expression, ws: string, clauses: nat, next: string, right: Outcome, nesting: nat)
    requires Blank(ws) && right == ParsePrimary(next, clauses, nesting)
    ensures AndLoop(Parsed(e, ws + ("&&" + next), clauses), nesting) ==
      if right.Err? then right
      else AndLoop(Parsed(And(e, right.value.expression), right.value.rest, right.value.clauses), nesting)
  {
    ConsumeAfter(ws, "&&", next);
    AndLoopStep(Parsed(e, ws + ("&&" + next), clauses), next, nesting);
  }

  lemma OrChained(e: Expression, clauses: nat, next: string, right: Outcome, nesting: nat)
    requires right == ParseAnd(next, clauses, nesting)
    ensures OrLoop(Parsed(e, "||" + next, clauses), nesting) ==
      if right.Err? then right
      else OrLoop(Parsed(Or(e, right.value.expression), right.value.rest, right.value.clauses), nesting)
  {
    assert "" + ("||" + next) == "||" + next;
    ConsumeAfter("", "||", next);
  }

  /** An operand of `||` is read to its end, whitespace included. */
  lemma {:induction false} OrOperandParses(c: Syntax, rest: string, clauses: nat, nesting: nat)
    requires IsAnd(c) && Follow(rest) && Clean(Text(c), rest) && !Starts(rest, "&&") && nesting <= MAX_NESTING
    ensures Continues(c, ParseAnd(Text(c) + rest, clauses, nesting), Ok(Read(c, rest, clauses)), clauses, nesting)
    decreases c, 4
  {
    AndTextParses(c, rest, clauses, nesting);
    OperandEnds(c, rest, clauses, nesting);
  }

  lemma OperandEnds(c: Syntax, rest: string, clauses: nat, nesting: nat)
    requires IsAnd(c) && Follow(rest) && !Starts(rest, "&&")
    ensures AndLoop(Read(c, Trailing(c) + rest, clauses), nesting) == Ok(Read(c, rest, clauses))
  {
    Levels(c);
    TrailingBlank(c);
    AndLoopEnds(Tree(c), Trailing(c), rest, clauses + Clauses(c), nesting);
  }

  lemma AndLoopEnds(e: Expression, ws: string, rest: string, clauses: nat, nesting: nat)
    requires Blank(ws) && Follow(rest) && !Starts(rest, "&&")
    ensures AndLoop(Parsed(e, ws + rest, clauses), nesting) == Ok(Parsed(e, rest, clauses))
  {
    ConsumeOther(ws, rest, "&&");
  }

  lemma OrNodeText(c: Syntax, rest: string)
    requires c.OrNode? && IsOr(c) && Clean(Text(c), rest)
    ensures
      var after := "||" + (Text(c.right) + rest);
      Text(c) + rest == Text(c.left) + after && Follow(after) && Clean(Text(c.left), after) && !Starts(after, "&&")
    ensures Clean(Text(c.right), rest)
  {
    Levels(c.right);
    TrailingBlank(c.right);
    SplitAtOperator(Text(c.left), "||", Text(c.right), rest, '|');
  }

  lemma {:induction false} OrNodeParses(c: Syntax, rest: string, clauses: nat, nesting: nat)
    requires c.OrNode? && IsOr(c) && Follow(rest) && Clean(Text(c), rest) && !Starts(rest, "&&")
    requires nesting <= MAX_NESTING
    ensures Continues(c, ParseOr(Text(c) + rest, clauses, nesting), OrLoop(Read(c, rest, clauses), nesting), clauses,
      nesting)
    decreases c, 4
  {
    var (l, r, n) := (c.left, c.right, clauses + Clauses(c.left));
    var next := Text(r) + rest;
    OrNodeText(c, rest);
    OrTextParses(l, "||" + next, clauses, nesting);
    OrOperandParses(r, rest, n, nesting);
    var right := ParseAnd(next, n, nesting);
    var afterLeft := OrLoop(Read(l, "||" + next, clauses), nesting);
    OrChained(Tree(l), n, next, right, nesting);
    JoinedByOr(c, rest, clauses, nesting, right, afterLeft);
    Chain(c, l, r, clauses, nesting, ParseOr(Text(c) + rest, clauses, nesting), afterLeft, right,
          OrLoop(Read(c, rest, clauses), nesting));
  }

  lemma JoinedByOr(c: Syntax, rest: string, clauses: nat, nesting: nat, right: Outcome, afterLeft: Outcome)
    requires c.OrNode?
    requires Continues(c.right, right, Ok(Read(c.right, rest, clauses + Clauses(c.left))), clauses + Clauses(c.left),
      nesting)
    requires afterLeft ==
      if right.Err? then right
      else OrLoop(Parsed(Or(Tree(c.left), right.value.expression), right.value.rest, right.value.clauses), nesting)
    ensures if Fits(c.right, clauses + Clauses(c.left), nesting)
            then right.Ok? && afterLeft == OrLoop(Read(c, rest, clauses), nesting)
            else right.Err? && afterLeft == right
  {
  }

  lemma {:induction false} OrTextParses(c: Syntax, rest: string, clauses: nat, nesting: nat)
    requires IsOr(c) && Follow(rest) && Clean(Text(c), rest) && !Starts(rest, "&&") && nesting <= MAX_NESTING
    ensures Continues(c, ParseOr(Text(c) + rest, clauses, nesting), OrLoop(Read(c, rest, clauses), nesting), clauses,
      nesting)
    decreases c, 5
  {
    if c.OrNode? {
      OrNodeParses(c, rest, clauses, nesting);
    } else {
      OrOperandParses(c, rest, clauses, nesting);
    }
  }

  /** Parsing inverts printing, within the bounds and only within them. */
  lemma PrintedTextParses(c: Syntax)
    requires IsOr(c)
    ensures if Fits(c, 0, 0) then Parse(Text(c)) == Ok(Tree(c)) else Parse(Text(c)).Err?
    ensures Clauses(c) > MAX_CONDITIONS && Depth(c) <= MAX_NESTING ==> Parse(Text(c)) == Err(TooMany)
    ensures Clauses(c) <= MAX_CONDITIONS && Depth(c) > MAX_NESTING ==> Parse(Text(c)) == Err(Invalid)
  {
    assert Text(c) + "" == Text(c);
    OrTextParses(c, "", 0, 0);
    assert "" + "" == "";
    ConsumeOther("", "", "||");
  }
}
