/**
 The scalar filter language: what `BooleanParser` computes on the text that
 remains, and the grammar of whitespace-decorated texts it is compared with.
 */
module FilterSyntax {
  import opened Common

  const MAX_CONDITIONS: nat := 4
  const MAX_NESTING: nat := 16

  datatype Expression =
    | Clause(text: string)
    | And(left: Expression, right: Expression)
    | Or(left: Expression, right: Expression)

  datatype FilterError = TooMany | Invalid

  /** An expression, the text after it, and how many clauses have been read in all. */
  datatype Parsed = Parsed(expression: Expression, rest: string, clauses: nat)

  type Outcome = Result<Parsed, FilterError>

  /** The Unicode White_Space characters. */
  predicate IsWhitespace(c: char) {
    || '\U{0009}' <= c <= '\U{000D}' || c == ' ' || c == '\U{0085}' || c == '\U{00A0}' || c == '\U{1680}'
    || '\U{2000}' <= c <= '\U{200A}' || c == '\U{2028}' || c == '\U{2029}' || c == '\U{202F}'
    || c == '\U{205F}' || c == '\U{3000}'
  }

  predicate Blank(s: string) {
    forall i :: 0 <= i < |s| ==> IsWhitespace(s[i])
  }

  // ----- the parser, as a function of the remaining text -----

  function Skip(s: string): (r: string)
    ensures |r| <= |s|
  {
    if s != [] && IsWhitespace(s[0]) then Skip(s[1..]) else s
  }

  predicate Starts(s: string, token: string) {
    token <= s
  }

  /** Skips whitespace, then takes the token if it is there. */
  function Consume(s: string, token: string): (bool, string) {
    var t := Skip(s);
    if Starts(t, token) then (true, t[|token|..]) else (false, t)
  }

  /** The same character twice: `&&` or `||`. */
  predicate Twice(s: string, i: nat, c: char) {
    i + 1 < |s| && s[i] == c && s[i + 1] == c
  }

  /** An operator or a closing parenthesis ends a clause. */
  predicate StopsAt(s: string, i: nat) {
    i < |s| && (s[i] == ')' || Twice(s, i, '&') || Twice(s, i, '|'))
  }

  function ClauseEnd(s: string, i: nat): (e: nat)
    requires i <= |s|
    ensures i <= e <= |s|
    decreases |s| - i
  {
    if i == |s| || StopsAt(s, i) then i else ClauseEnd(s, i + 1)
  }

  function TrimEnd(s: string): (r: string)
    ensures |r| <= |s|
  {
    if s != [] && IsWhitespace(s[|s| - 1]) then TrimEnd(s[..|s| - 1]) else s
  }

  function ParsePrimary(s: string, clauses: nat, nesting: nat): (r: Outcome)
    ensures r.Ok? ==> |r.value.rest| < |s|
    decreases |s|, 0
  {
    var (open, inside) := Consume(Skip(s), "(");
    if open then
      if nesting >= MAX_NESTING then Err(Invalid)
      else
        var inner := ParseOr(inside, clauses, nesting + 1);
        if inner.Err? then inner
        else
          var (close, rest) := Consume(inner.value.rest, ")");
          if close then Ok(Parsed(inner.value.expression, rest, inner.value.clauses)) else Err(Invalid)
    else
      var end := ClauseEnd(inside, 0);
      var clause := TrimEnd(inside[..end]);
      if clause == [] then Err(Invalid)
      else if clauses + 1 > MAX_CONDITIONS then Err(TooMany)
      else Ok(Parsed(Clause(clause), inside[end..], clauses + 1))
  }

  function ParseAnd(s: string, clauses: nat, nesting: nat): (r: Outcome)
    ensures r.Ok? ==> |r.value.rest| < |s|
    decreases |s|, 1
  {
    var first := ParsePrimary(s, clauses, nesting);
    if first.Err? then first else AndLoop(first.value, nesting)
  }

  function AndLoop(left: Parsed, nesting: nat): (r: Outcome)
    ensures r.Ok? ==> |r.value.rest| <= |left.rest|
    decreases |left.rest|, 0
  {
    var (more, rest) := Consume(left.rest, "&&");
    if more then
      var right := ParsePrimary(rest, left.clauses, nesting);
      if right.Err? then right
      else AndLoop(right.value.(expression := And(left.expression, right.value.expression)), nesting)
    else Ok(left.(rest := rest))
  }

  function ParseOr(s: string, clauses: nat, nesting: nat): (r: Outcome)
    ensures r.Ok? ==> |r.value.rest| < |s|
    decreases |s|, 2
  {
    var first := ParseAnd(s, clauses, nesting);
    if first.Err? then first else OrLoop(first.value, nesting)
  }

  function OrLoop(left: Parsed, nesting: nat): (r: Outcome)
    ensures r.Ok? ==> |r.value.rest| <= |left.rest|
    decreases |left.rest|, 0
  {
    var (more, rest) := Consume(left.rest, "||");
    if more then
      var right := ParseAnd(rest, left.clauses, nesting);
      if right.Err? then right
      else OrLoop(right.value.(expression := Or(left.expression, right.value.expression)), nesting)
    else Ok(left.(rest := rest))
  }

  function Parse(s: string): Result<Expression, FilterError> {
    var r := ParseOr(s, 0, 0);
    if r.Err? then Err(r.error)
    else if Skip(r.value.rest) != [] then Err(Invalid)
    else Ok(r.value.expression)
  }

  // ----- the grammar -----

  /**
   A text with its structure: whitespace before every token, and after a clause
   or a closing parenthesis. A clause keeps the whitespace that follows it.
   */
  datatype Syntax =
    | Leaf(lead: string, raw: string)
    | Paren(lead: string, inner: Syntax, tail: string)
    | AndNode(left: Syntax, right: Syntax)
    | OrNode(left: Syntax, right: Syntax)

  function Text(c: Syntax): string {
    match c
    case Leaf(lead, raw) => lead + raw
    case Paren(lead, inner, tail) => lead + "(" + Text(inner) + ")" + tail
    case AndNode(l, r) => Text(l) + "&&" + Text(r)
    case OrNode(l, r) => Text(l) + "||" + Text(r)
  }

  function Tree(c: Syntax): Expression {
    match c
    case Leaf(_, raw) => Clause(TrimEnd(raw))
    case Paren(_, inner, _) => Tree(inner)
    case AndNode(l, r) => And(Tree(l), Tree(r))
    case OrNode(l, r) => Or(Tree(l), Tree(r))
  }

  function Clauses(c: Syntax): nat {
    match c
    case Leaf(_, _) => 1
    case Paren(_, inner, _) => Clauses(inner)
    case AndNode(l, r) => Clauses(l) + Clauses(r)
    case OrNode(l, r) => Clauses(l) + Clauses(r)
  }

  function Depth(c: Syntax): nat {
    match c
    case Leaf(_, _) => 0
    case Paren(_, inner, _) => 1 + Depth(inner)
    case AndNode(l, r) => if Depth(l) > Depth(r) then Depth(l) else Depth(r)
    case OrNode(l, r) => if Depth(l) > Depth(r) then Depth(l) else Depth(r)
  }

  /** A clause as the scanner can see it: not empty, not a parenthesis, no operator inside. */
  predicate ClauseText(raw: string) {
    && raw != [] && !IsWhitespace(raw[0]) && raw[0] != '('
    && forall i :: 0 <= i < |raw| ==> !StopsAt(raw, i)
  }

  predicate EndsWith(s: string, c: char) {
    s != [] && s[|s| - 1] == c
  }

  predicate IsPrimary(c: Syntax)
    decreases c, 0
  {
    match c
    case Leaf(lead, raw) => Blank(lead) && ClauseText(raw)
    case Paren(lead, inner, tail) => Blank(lead) && Blank(tail) && IsOr(inner)
    case _ => false
  }

  /** `&&` binds tighter than `||`, and both associate to the left. */
  predicate IsAnd(c: Syntax)
    decreases c, 1
  {
    if c.AndNode? then IsAnd(c.left) && IsPrimary(c.right) && !EndsWith(Text(c.left), '&')
    else IsPrimary(c)
  }

  predicate IsOr(c: Syntax)
    decreases c, 2
  {
    if c.OrNode? then IsOr(c.left) && IsAnd(c.right) && !EndsWith(Text(c.left), '|')
    else IsAnd(c)
  }
}
