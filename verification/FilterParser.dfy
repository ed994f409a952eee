/** `BooleanParser`: the recursive-descent parser with its cursor and counters. */
module FilterParser {
  import opened Common
  import opened FilterSyntax

  class BooleanParser {
    const source: string
    var cursor: nat
    var clauses: nat
    var nesting: nat

    constructor (source: string)
      ensures this.source == source && cursor == 0 && clauses == 0 && nesting == 0
    {
      this.source := source;
      cursor, clauses, nesting := 0, 0, 0;
    }

    ghost predicate Valid()
      reads this
    {
      cursor <= |source| && nesting <= MAX_NESTING
    }

    function Rest(): string
      requires Valid()
      reads this
    {
      source[cursor..]
    }

    /** The outcome of a method and the state it leaves, against what the specification says of the text. */
    ghost predicate Agrees(result: Result<Expression, FilterError>, spec: Outcome, nestingBefore: nat)
      reads this
    {
      && Valid()
      && (spec.Err? ==> result == Err(spec.error))
      && (spec.Ok? ==>
            && result == Ok(spec.value.expression) && Rest() == spec.value.rest
            && clauses == spec.value.clauses && nesting == nestingBefore)
    }

    method SkipWhitespace()
      requires Valid()
      modifies `cursor
      ensures Valid() && Rest() == Skip(old(Rest())) && cursor >= old(cursor)
    {
      while cursor < |source| && IsWhitespace(source[cursor])
        invariant Valid() && cursor >= old(cursor)
        invariant Skip(Rest()) == Skip(old(Rest()))
        decreases |source| - cursor
      {
        assert Rest()[1..] == source[cursor + 1..];
        cursor := cursor + 1;
      }
    }

    method ConsumeToken(token: string) returns (found: bool)
      requires Valid() && token != []
      modifies `cursor
      ensures Valid() && (found, Rest()) == Consume(old(Rest()), token)
      ensures cursor >= old(cursor) && (found ==> cursor > old(cursor))
    {
      SkipWhitespace();
      found := token <= source[cursor..];
      if found {
        assert Rest()[|token|..] == source[cursor + |token|..];
        cursor := cursor + |token|;
      }
    }

    /** Scans up to the next operator, closing parenthesis or the end. */
    method ScanClause() returns (clause: string)
      requires Valid()
      modifies `cursor
      ensures Valid() && cursor >= old(cursor)
      ensures var end := ClauseEnd(old(Rest()), 0);
              clause == TrimEnd(old(Rest())[..end]) && Rest() == old(Rest())[end..]
      ensures clause != [] ==> cursor > old(cursor)
    {
      var start := cursor;
      ghost var text := Rest();
      while cursor < |source| && !StopsAt(source[cursor..], 0)
        invariant start <= cursor <= |source| && Valid()
        invariant ClauseEnd(text, cursor - start) == ClauseEnd(text, 0)
        decreases |source| - cursor
      {
        ScannedTo(source, start, cursor);
        cursor := cursor + 1;
      }
      ScannedTo(source, start, cursor);
      clause := TrimEnd(source[start..cursor]);
    }

    method ParsePrimaryHere() returns (result: Result<Expression, FilterError>)
      requires Valid()
      modifies this
      ensures Agrees(result, ParsePrimary(old(Rest()), old(clauses), old(nesting)), old(nesting))
      ensures result.Ok? ==> cursor > old(cursor)
      decreases |source| - cursor, 0
    {
      SkipWhitespace();
      var open := ConsumeToken("(");
      if open {
        if nesting >= MAX_NESTING {
          return Err(Invalid);
        }
        nesting := nesting + 1;
        result := ParseOrHere();
        if result.Err? {
          return;
        }
        nesting := nesting - 1;
        var close := ConsumeToken(")");
        if !close {
          result := Err(Invalid);
        }
        return;
      }
      var clause := ScanClause();
      if clause == [] {
        return Err(Invalid);
      }
      clauses := clauses + 1;
      if clauses > MAX_CONDITIONS {
        return Err(TooMany);
      }
      return Ok(Clause(clause));
    }

    method ParseAndHere() returns (result: Result<Expression, FilterError>)
      requires Valid()
      modifies this
      ensures Agrees(result, ParseAnd(old(Rest()), old(clauses), old(nesting)), old(nesting))
      ensures result.Ok? ==> cursor > old(cursor)
      decreases |source| - cursor, 1
    {
      result := ParsePrimaryHere();
      if result.Err? {
        return;
      }
      ghost var spec := ParseAnd(old(Rest()), old(clauses), old(nesting));
      ghost var joined := Parsed(result.value, Rest(), clauses);
      assert spec == AndLoop(joined, nesting);
      var more := ConsumeToken("&&");
      while more
        invariant Valid() && nesting == old(nesting) && cursor > old(cursor) && result.Ok?
        invariant !more ==> spec == Ok(Parsed(result.value, Rest(), clauses))
        invariant more ==> spec == Joined(result.value, ParsePrimary(Rest(), clauses, nesting), nesting, true)
        decreases |source| - cursor, more
      {
        var right := ParsePrimaryHere();
        if right.Err? {
          return right;
        }
        result := Ok(And(result.value, right.value));
        joined := Parsed(result.value, Rest(), clauses);
        assert spec == AndLoop(joined, nesting);
        more := ConsumeToken("&&");
      }
    }

    method ParseOrHere() returns (result: Result<Expression, FilterError>)
      requires Valid()
      modifies this
      ensures Agrees(result, ParseOr(old(Rest()), old(clauses), old(nesting)), old(nesting))
      ensures result.Ok? ==> cursor > old(cursor)
      decreases |source| - cursor, 2
    {
      result := ParseAndHere();
      if result.Err? {
        return;
      }
      ghost var spec := ParseOr(old(Rest()), old(clauses), old(nesting));
      ghost var joined := Parsed(result.value, Rest(), clauses);
      assert spec == OrLoop(joined, nesting);
      var more := ConsumeToken("||");
      while more
        invariant Valid() && nesting == old(nesting) && cursor > old(cursor) && result.Ok?
        invariant !more ==> spec == Ok(Parsed(result.value, Rest(), clauses))
        invariant more ==> spec == Joined(result.value, ParseAnd(Rest(), clauses, nesting), nesting, false)
        decreases |source| - cursor, more
      {
        var right := ParseAndHere();
        if right.Err? {
          return right;
        }
        result := Ok(Or(result.value, right.value));
        joined := Parsed(result.value, Rest(), clauses);
        assert spec == OrLoop(joined, nesting);
        more := ConsumeToken("||");
      }
    }

    method ParseAll() returns (result: Result<Expression, FilterError>)
      requires cursor == 0 && clauses == 0 && nesting == 0
      modifies this
      ensures result == Parse(source)
    {
      assert Rest() == source;
      result := ParseOrHere();
      if result.Err? {
        return;
      }
      SkipWhitespace();
      if cursor != |source| {
        result := Err(Invalid);
      }
    }
  }

  /** What a loop does once it has consumed its operator: read the right operand, join, go on. */
  ghost function Joined(left: Expression, right: Outcome, nesting: nat, conjunction: bool): Outcome {
    if right.Err? then right
    else if conjunction then AndLoop(right.value.(expression := And(left, right.value.expression)), nesting)
    else OrLoop(right.value.(expression := Or(left, right.value.expression)), nesting)
  }

  /** The scanner looks at the remaining text only. */
  lemma StopsHere(s: string, i: nat)
    requires i < |s|
    ensures StopsAt(s[i..], 0) <==> StopsAt(s, i)
  {
  }

  /** Where the scan stands: what it has passed, what is left, and whether the clause ends here. */
  lemma ScannedTo(source: string, start: nat, cursor: nat)
    requires start <= cursor <= |source|
    ensures source[start..][..cursor - start] == source[start..cursor]
    ensures source[start..][cursor - start..] == source[cursor..]
    ensures ClauseEnd(source[start..], cursor - start)
         == if cursor == |source| || StopsAt(source[cursor..], 0) then cursor - start
            else ClauseEnd(source[start..], cursor + 1 - start)
  {
    if cursor < |source| {
      assert source[start..][cursor - start..] == source[cursor..];
      StopsHere(source[start..], cursor - start);
    }
  }
}
