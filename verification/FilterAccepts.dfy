/** The converse of printing: every text the parser accepts is a text of the grammar. */
module FilterAccepts {
  import opened Common
  import opened FilterSyntax
  import opened FilterGrammar

  /** The whitespace `Skip` removes. */
  function Lead(s: string): string {
    s[..|s| - |Skip(s)|]
  }

  lemma {:induction false} SkipSplits(s: string)
    ensures s == Lead(s) + Skip(s) && Blank(Lead(s))
    ensures Skip(s) != [] ==> !IsWhitespace(Skip(s)[0])
  {
    if s != [] && IsWhitespace(s[0]) {
      SkipSplits(s[1..]);
      LeadStep(s);
      JoinSpace(s[0], Lead(s[1..]), Skip(s[1..]));
      assert s == [s[0]] + s[1..];
    }
  }

  lemma LeadStep(s: string)
    requires s != [] && IsWhitespace(s[0])
    ensures Skip(s) == Skip(s[1..]) && Lead(s) == [s[0]] + Lead(s[1..])
  {
  }

  lemma JoinSpace(c: char, ws: string, rest: string)
    requires IsWhitespace(c) && Blank(ws)
    ensures Blank([c] + ws) && [c] + ws + rest == [c] + (ws + rest)
  {
  }

  lemma {:induction false} ScanFinds(s: string, i: nat)
    requires i <= |s|
    ensures ClauseEnd(s, i) < |s| ==> StopsAt(s, ClauseEnd(s, i))
    ensures forall k :: i <= k < ClauseEnd(s, i) ==> !StopsAt(s, k)
    decreases |s| - i
  {
    if i < |s| && !StopsAt(s, i) {
      ScanFinds(s, i + 1);
    }
  }

  /** What the scanner takes as a clause is one, and no operator straddles its end. */
  lemma ScannedClause(body: string, e: nat)
    requires body != [] && !IsWhitespace(body[0]) && body[0] != '(' && ClauseEnd(body, 0) == e > 0
    ensures e <= |body| && ClauseText(body[..e]) && Clean(body[..e], body[e..])
  {
    ScanFinds(body, 0);
    var (raw, rest) := (body[..e], body[e..]);
    forall i | 0 <= i < |raw|
      ensures !StopsAt(raw, i)
    {
      assert !StopsAt(body, i);
    }
    var last := e - 1;
    assert !StopsAt(body, last);
    assert rest != [] ==> rest[0] == body[e];
  }

  // ----- whitespace after an operand -----

  /** The same syntax with more whitespace after its last token. */
  function AddTail(c: Syntax, ws: string): Syntax {
    match c
    case Leaf(lead, raw) => Leaf(lead, raw + ws)
    case Paren(lead, inner, tail) => Paren(lead, inner, tail + ws)
    case AndNode(l, r) => AndNode(l, AddTail(r, ws))
    case OrNode(l, r) => OrNode(l, AddTail(r, ws))
  }

  lemma {:induction false} TrimEndOf(raw: string, ws: string)
    requires Blank(ws)
    ensures TrimEnd(raw + ws) == TrimEnd(raw)
  {
    if ws == [] {
      assert raw + ws == raw;
    } else {
      assert (raw + ws)[..|raw + ws| - 1] == raw + ws[..|ws| - 1];
      TrimEndOf(raw, ws[..|ws| - 1]);
    }
  }

  lemma ClauseTextTail(raw: string, ws: string)
    requires ClauseText(raw) && Blank(ws)
    ensures ClauseText(raw + ws)
  {
    forall i | 0 <= i < |raw + ws|
      ensures !StopsAt(raw + ws, i)
    {
      if i < |raw| {
        assert !StopsAt(raw, i);
      } else {
        assert (raw + ws)[i] == ws[i - |raw|];
      }
    }
  }

  lemma {:induction false} AddTailText(c: Syntax, ws: string)
    requires Blank(ws)
    ensures Text(AddTail(c, ws)) == Text(c) + ws && Tree(AddTail(c, ws)) == Tree(c)
    ensures Clauses(AddTail(c, ws)) == Clauses(c) && Depth(AddTail(c, ws)) == Depth(c)
  {
    match c
    case Leaf(lead, raw) =>
      TrimEndOf(raw, ws);
      assert lead + (raw + ws) == lead + raw + ws;
    case Paren(lead, inner, tail) =>
    case AndNode(l, r) =>
      AddTailText(r, ws);
      assert Text(l) + "&&" + (Text(r) + ws) == Text(l) + "&&" + Text(r) + ws;
    case OrNode(l, r) =>
      AddTailText(r, ws);
      assert Text(l) + "||" + (Text(r) + ws) == Text(l) + "||" + Text(r) + ws;
  }

  lemma {:induction false} AddTailPrimary(c: Syntax, ws: string)
    requires Blank(ws) && IsPrimary(c)
    ensures IsPrimary(AddTail(c, ws))
  {
    if c.Leaf? {
      ClauseTextTail(c.raw, ws);
    }
  }

  lemma {:induction false} AddTailAnd(c: Syntax, ws: string)
    requires Blank(ws) && IsAnd(c)
    ensures IsAnd(AddTail(c, ws))
  {
    if c.AndNode? {
      AddTailPrimary(c.right, ws);
    } else {
      AddTailPrimary(c, ws);
    }
  }

  lemma {:induction false} AddTailOr(c: Syntax, ws: string)
    requires Blank(ws) && IsOr(c)
    ensures IsOr(AddTail(c, ws))
  {
    if c.OrNode? {
      AddTailAnd(c.right, ws);
    } else {
      AddTailAnd(c, ws);
    }
  }

  lemma PaddedText(text: string, ws: string)
    requires ws != [] && Blank(ws)
    ensures !EndsWith(text + ws, '&') && !EndsWith(text + ws, '|')
  {
    var t := text + ws;
    assert t[|t| - 1] == ws[|ws| - 1];
  }

  /** After skipping, the text read so far ends cleanly and cannot end in half an operator. */
  lemma SkippedClean(text: string, rest: string)
    requires Clean(text, rest)
    ensures Clean(text + Lead(rest), Skip(rest))
    ensures Twice(Skip(rest), 0, '&') ==> !EndsWith(text + Lead(rest), '&')
    ensures Twice(Skip(rest), 0, '|') ==> !EndsWith(text + Lead(rest), '|')
  {
    var ws, skipped := Lead(rest), Skip(rest);
    SkipSplits(rest);
    if ws == [] {
      assert text + ws == text && skipped == rest;
    } else {
      PaddedText(text, ws);
    }
  }

  // ----- reading the syntax back from a successful parse -----

  /** `c` spells what has been read between `s` and the text left in `p`. */
  predicate Spells(c: Syntax, s: string, p: Parsed, clauses: nat, nesting: nat) {
    && Text(c) + p.rest == s && Tree(c) == p.expression && p.clauses == clauses + Clauses(c)
    && Clean(Text(c), p.rest)
    && clauses + Clauses(c) <= MAX_CONDITIONS && nesting + Depth(c) <= MAX_NESTING
  }

  lemma LeafTextBack(lead: string, raw: string, rest: string)
    requires raw != [] && Clean(raw, rest)
    ensures Text(Leaf(lead, raw)) + rest == lead + (raw + rest) && Clean(Text(Leaf(lead, raw)), rest)
  {
    assert lead + raw + rest == lead + (raw + rest);
    assert (lead + raw)[|lead + raw| - 1] == raw[|raw| - 1];
  }

  lemma EmptyClause(s: string)
    ensures TrimEnd(s[..0]) == []
  {
    assert s[..0] == [];
  }

  lemma SplitsAt(s: string, e: nat)
    requires e <= |s|
    ensures s == s[..e] + s[e..]
  {
  }

  lemma LeafBack(s: string, clauses: nat, nesting: nat) returns (c: Syntax)
    requires ParsePrimary(s, clauses, nesting).Ok? && !Consume(Skip(s), "(").0 && nesting <= MAX_NESTING
    ensures IsPrimary(c) && Spells(c, s, ParsePrimary(s, clauses, nesting).value, clauses, nesting)
  {
    var body, lead := Skip(s), Lead(s);
    SkipSplits(s);
    SkipTwice(s);
    var e := ClauseEnd(body, 0);
    var raw, rest := body[..e], body[e..];
    EmptyClause(body);
    SplitsAt(body, e);
    ScannedClause(body, e);
    LeafTextBack(lead, raw, rest);
    c := Leaf(lead, raw);
  }

  lemma {:induction false} PrimaryBack(s: string, clauses: nat, nesting: nat) returns (c: Syntax)
    requires ParsePrimary(s, clauses, nesting).Ok? && nesting <= MAX_NESTING
    ensures IsPrimary(c) && Spells(c, s, ParsePrimary(s, clauses, nesting).value, clauses, nesting)
    decreases |s|, 0
  {
    var (open, inside) := Consume(Skip(s), "(");
    if !open {
      c := LeafBack(s, clauses, nesting);
    } else {
      SkipSplits(s);
      SkipTwice(s);
      assert Skip(s) == "(" + inside;
      var inner := OrBack(inside, clauses, nesting + 1);
      var p := ParseOr(inside, clauses, nesting + 1).value;
      var rest := ParsePrimary(s, clauses, nesting).value.rest;
      assert p.rest == ")" + rest;
      c := Paren(Lead(s), inner, "");
      ParenSpells(s, inner, inside, p, rest, clauses, nesting);
    }
  }

  lemma ParenSpells(
    s: string, inner: Syntax, inside: string, p: Parsed, rest: string, clauses: nat, nesting: nat)
    requires s == Lead(s) + ("(" + inside) && Spells(inner, inside, p, clauses, nesting + 1) && p.rest == ")" + rest
    ensures Spells(Paren(Lead(s), inner, ""), s, p.(rest := rest), clauses, nesting)
  {
    var t := Lead(s) + "(" + Text(inner) + ")" + "";
    assert t + rest == Lead(s) + ("(" + (Text(inner) + (")" + rest)));
    assert t[|t| - 1] == ')';
  }

  lemma {:induction false} AndBack(s: string, clauses: nat, nesting: nat) returns (c: Syntax)
    requires ParseAnd(s, clauses, nesting).Ok? && nesting <= MAX_NESTING
    ensures IsAnd(c) && Spells(c, s, ParseAnd(s, clauses, nesting).value, clauses, nesting)
    ensures Skip(ParseAnd(s, clauses, nesting).value.rest) == ParseAnd(s, clauses, nesting).value.rest
    decreases |s|, 1
  {
    var first := PrimaryBack(s, clauses, nesting);
    Levels(first);
    c := AndLoopBack(first, s, ParsePrimary(s, clauses, nesting).value, clauses, nesting);
  }

  /** An operand of `&&`, padded up to the operator, and joined with the next one. */
  lemma JoinAnd(
    before: Syntax, r: Syntax, s: string, left: Parsed, rest: string, right: Parsed, clauses: nat, nesting: nat)
    returns (both: Syntax)
    requires IsAnd(before) && Spells(before, s, left, clauses, nesting) && Skip(left.rest) == "&&" + rest
    requires IsPrimary(r) && Spells(r, rest, right, left.clauses, nesting) && Text(r) != []
    ensures IsAnd(both)
    ensures Spells(both, s, right.(expression := And(left.expression, right.expression)), clauses, nesting)
  {
    var padded := AddTail(before, Lead(left.rest));
    PaddedSpells(before, s, left, clauses, nesting);
    AddTailAnd(before, Lead(left.rest));
    SkippedClean(Text(before), left.rest);
    both := AndNode(padded, r);
    NodeSpells(padded, r, both, "&&", s, left, rest, right, clauses, nesting);
  }

  lemma {:induction false} AndLoopBack(
    before: Syntax, s: string, left: Parsed, clauses: nat, nesting: nat) returns (c: Syntax)
    requires IsAnd(before) && Spells(before, s, left, clauses, nesting)
    requires AndLoop(left, nesting).Ok? && nesting <= MAX_NESTING
    ensures IsAnd(c) && Spells(c, s, AndLoop(left, nesting).value, clauses, nesting)
    ensures Skip(AndLoop(left, nesting).value.rest) == AndLoop(left, nesting).value.rest
    decreases |left.rest|, 0
  {
    var (more, rest) := Consume(left.rest, "&&");
    SkipTwice(left.rest);
    if !more {
      c := AddTail(before, Lead(left.rest));
      PaddedSpells(before, s, left, clauses, nesting);
      AddTailAnd(before, Lead(left.rest));
    } else {
      var r := PrimaryBack(rest, left.clauses, nesting);
      var right := ParsePrimary(rest, left.clauses, nesting).value;
      var both := JoinAnd(before, r, s, left, rest, right, clauses, nesting);
      c := AndLoopBack(both, s, right.(expression := And(left.expression, right.expression)), clauses, nesting);
    }
  }

  /** Skipping whitespace moves it from the remaining text to the syntax. */
  lemma PaddedSpells(before: Syntax, s: string, left: Parsed, clauses: nat, nesting: nat)
    requires Spells(before, s, left, clauses, nesting)
    ensures Blank(Lead(left.rest))
    ensures Spells(AddTail(before, Lead(left.rest)), s, left.(rest := Skip(left.rest)), clauses, nesting)
    ensures Text(AddTail(before, Lead(left.rest))) == Text(before) + Lead(left.rest)
  {
    var ws, skipped := Lead(left.rest), Skip(left.rest);
    SkipSplits(left.rest);
    AddTailText(before, ws);
    SkippedClean(Text(before), left.rest);
    Repad(before, AddTail(before, ws), ws, skipped, s, left, clauses, nesting);
  }

  lemma Repad(
    c: Syntax, padded: Syntax, ws: string, skipped: string, s: string, left: Parsed, clauses: nat, nesting: nat)
    requires Spells(c, s, left, clauses, nesting) && left.rest == ws + skipped
    requires Text(padded) == Text(c) + ws && Tree(padded) == Tree(c)
    requires Clauses(padded) == Clauses(c) && Depth(padded) == Depth(c) && Clean(Text(c) + ws, skipped)
    ensures Spells(padded, s, left.(rest := skipped), clauses, nesting)
  {
    assert (Text(c) + ws) + skipped == Text(c) + (ws + skipped);
  }

  /** Two operands joined by an operator spell what was read for both. */
  lemma NodeSpells(
    l: Syntax, r: Syntax, both: Syntax, op: string, s: string, left: Parsed, next: string, right: Parsed,
    clauses: nat, nesting: nat)
    requires Spells(l, s, left.(rest := op + next), clauses, nesting) && Spells(r, next, right, left.clauses, nesting)
    requires Text(r) != [] && Text(both) == Text(l) + op + Text(r)
    requires Clauses(both) == Clauses(l) + Clauses(r) && nesting + Depth(both) <= MAX_NESTING
    ensures Spells(both, s, right.(expression := Tree(both)), clauses, nesting)
  {
    JoinText(Text(l), op, Text(r), s, next, right.rest);
  }

  lemma JoinText(l: string, op: string, r: string, s: string, next: string, rest: string)
    requires l + (op + next) == s && r + rest == next && r != [] && Clean(r, rest)
    ensures (l + op + r) + rest == s && Clean(l + op + r, rest)
  {
    var t := l + op + r;
    assert t + rest == l + (op + (r + rest));
    assert t[|t| - 1] == r[|r| - 1];
  }

  lemma {:induction false} OrBack(s: string, clauses: nat, nesting: nat) returns (c: Syntax)
    requires ParseOr(s, clauses, nesting).Ok? && nesting <= MAX_NESTING
    ensures IsOr(c) && Spells(c, s, ParseOr(s, clauses, nesting).value, clauses, nesting)
    ensures Skip(ParseOr(s, clauses, nesting).value.rest) == ParseOr(s, clauses, nesting).value.rest
    decreases |s|, 2
  {
    var first := AndBack(s, clauses, nesting);
    Levels(first);
    c := OrLoopBack(first, s, ParseAnd(s, clauses, nesting).value, clauses, nesting);
  }

  /** An operand of `||`, padded up to the operator, and joined with the next one. */
  lemma JoinOr(
    before: Syntax, r: Syntax, s: string, left: Parsed, rest: string, right: Parsed, clauses: nat, nesting: nat)
    returns (both: Syntax)
    requires IsOr(before) && Spells(before, s, left, clauses, nesting) && Skip(left.rest) == "||" + rest
    requires IsAnd(r) && Spells(r, rest, right, left.clauses, nesting) && Text(r) != []
    ensures IsOr(both)
    ensures Spells(both, s, right.(expression := Or(left.expression, right.expression)), clauses, nesting)
  {
    var padded := AddTail(before, Lead(left.rest));
    PaddedSpells(before, s, left, clauses, nesting);
    AddTailOr(before, Lead(left.rest));
    SkippedClean(Text(before), left.rest);
    both := OrNode(padded, r);
    NodeSpells(padded, r, both, "||", s, left, rest, right, clauses, nesting);
  }

  lemma {:induction false} OrLoopBack(
    before: Syntax, s: string, left: Parsed, clauses: nat, nesting: nat) returns (c: Syntax)
    requires IsOr(before) && Spells(before, s, left, clauses, nesting)
    requires OrLoop(left, nesting).Ok? && nesting <= MAX_NESTING
    ensures IsOr(c) && Spells(c, s, OrLoop(left, nesting).value, clauses, nesting)
    ensures Skip(OrLoop(left, nesting).value.rest) == OrLoop(left, nesting).value.rest
    decreases |left.rest|, 0
  {
    var (more, rest) := Consume(left.rest, "||");
    SkipTwice(left.rest);
    if !more {
      c := AddTail(before, Lead(left.rest));
      PaddedSpells(before, s, left, clauses, nesting);
      AddTailOr(before, Lead(left.rest));
    } else {
      var r := AndBack(rest, left.clauses, nesting);
      var right := ParseAnd(rest, left.clauses, nesting).value;
      var both := JoinOr(before, r, s, left, rest, right, clauses, nesting);
      c := OrLoopBack(both, s, right.(expression := Or(left.expression, right.expression)), clauses, nesting);
    }
  }

  /**
   The language of the parser: a text parses to `e` exactly when it spells `e` in
   the grammar with at most four clauses and at most sixteen nested parentheses.
   */
  lemma AcceptsExactlyTheGrammar(s: string, e: Expression)
    ensures Parse(s) == Ok(e) <==>
      exists c :: IsOr(c) && Text(c) == s && Tree(c) == e && Clauses(c) <= MAX_CONDITIONS && Depth(c) <= MAX_NESTING
  {
    if Parse(s) == Ok(e) {
      var c := OrBack(s, 0, 0);
      assert Text(c) + [] == Text(c);
    }
    if c :| IsOr(c) && Text(c) == s && Tree(c) == e && Clauses(c) <= MAX_CONDITIONS && Depth(c) <= MAX_NESTING {
      PrintedTextParses(c);
    }
  }
}
