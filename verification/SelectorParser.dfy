/**
 The selector parser (internal/planning/selector_parser.go, Parser and Parse).

 The methods follow the recursive descent of the source, advancing a lexer and a current token.
 They are proved against a function on the remaining tokens, and that function is proved to accept
 exactly the documented grammar (ParseIsGrammar) and to read back what is printed (RoundTrip).
 */
module SelectorParser {
  import opened Results
  import opened Text
  import opened SelectorSyntax
  import opened SelectorLexer

  type Parse = Result<(SelectNode, seq<Token>), ErrorCode>

  function Current(ts: seq<Token>): Token
  {
    if ts == [] then EOF else ts[0]
  }

  /** The token list of any text ends in a token the parser never consumes. */
  predicate EndsTerminal(ts: seq<Token>)
  {
    ts != [] && Terminal(ts[|ts| - 1])
  }

  // ---------- the parser as a function of the remaining tokens ----------

  function ParseOr(ts: seq<Token>): (r: Parse)
    ensures r.Ok? ==> |r.value.1| < |ts| && (EndsTerminal(ts) ==> EndsTerminal(r.value.1))
    decreases |ts|, 4
  {
    match ParseAnd(ts)
    case Err(e) => Err(e)
    case Ok((n, rest)) => ParseOrTail([n], rest)
  }

  function ParseOrTail(children: seq<SelectNode>, ts: seq<Token>): (r: Parse)
    requires children != []
    ensures r.Ok? ==> |r.value.1| <= |ts| && (EndsTerminal(ts) ==> EndsTerminal(r.value.1))
    decreases |ts|, 4
  {
    if Current(ts) == OR then
      match ParseAnd(ts[1..])
      case Err(e) => Err(e)
      case Ok((n, rest)) => ParseOrTail(children + [n], rest)
    else Ok((OrNode(children), ts))
  }

  function ParseAnd(ts: seq<Token>): (r: Parse)
    ensures r.Ok? ==> |r.value.1| < |ts| && (EndsTerminal(ts) ==> EndsTerminal(r.value.1))
    decreases |ts|, 3
  {
    match ParseTerm(ts)
    case Err(e) => Err(e)
    case Ok((n, rest)) => ParseAndTail([n], rest)
  }

  function ParseAndTail(children: seq<SelectNode>, ts: seq<Token>): (r: Parse)
    requires children != []
    ensures r.Ok? ==> |r.value.1| <= |ts| && (EndsTerminal(ts) ==> EndsTerminal(r.value.1))
    decreases |ts|, 3
  {
    if Current(ts) == AND then
      match ParseTerm(ts[1..])
      case Err(e) => Err(e)
      case Ok((n, rest)) => ParseAndTail(children + [n], rest)
    else Ok((AndNode(children), ts))
  }

  function ParseTerm(ts: seq<Token>): (r: Parse)
    ensures r.Ok? ==> |r.value.1| < |ts| && (EndsTerminal(ts) ==> EndsTerminal(r.value.1))
    decreases |ts|, 2
  {
    if Current(ts) == LParen then
      match ParseOr(ts[1..])
      case Err(e) => Err(e)
      case Ok((n, rest)) =>
        if Current(rest) == RParen then Ok((n, rest[1..])) else Err(MismatchedParen)
    else ParseAtomic(ts)
  }

  function ParseAtomic(ts: seq<Token>): (r: Parse)
    ensures r.Ok? ==> |r.value.1| < |ts| && (EndsTerminal(ts) ==> EndsTerminal(r.value.1))
    decreases |ts|, 1
  {
    if !Current(ts).ID? then Err(InvalidSyntax)
    else
      var first := Atoi(ts[0].value);
      if first.None? then Err(InvalidID)
      else if Current(ts[1..]) != Minus then Ok((IDSet([first.value]), ts[1..]))
      else if !Current(ts[2..]).ID? then Err(InvalidSyntax)
      else
        var second := Atoi(ts[2].value);
        if second.None? then Err(InvalidID)
        else if first.value > second.value then Err(InvalidRange)
        else Ok((Range(first.value, second.value), ts[3..]))
  }

  /** Parse: trim, reject the empty expression, parse, and require the end of the input. */
  function ParseSpec(input: string): Result<SelectNode, ErrorCode>
  {
    var text := TrimSpace(input);
    if text == "" then Err(EmptyExpression)
    else
      match ParseOr(Tokenize(text))
      case Err(e) => Err(e)
      case Ok((n, rest)) => if Current(rest) == EOF then Ok(n) else Err(UnexpectedToken)
  }

  /** Moving what follows inside a list of operands. */
  lemma PushInside(op: Token, first: seq<Token>, more: seq<Token>, rest: seq<Token>)
    ensures ([op] + (first + more)) + rest == [op] + (first + (more + rest))
    ensures ([op] + (first + (more + rest)))[1..] == first + (more + rest)
  {
  }

  lemma AppendOne(children: seq<SelectNode>, n: SelectNode, more: seq<SelectNode>)
    ensures children + ([n] + more) == (children + [n]) + more
    ensures children + [] == children
  {
  }

  // ---------- every syntax tree is parsed ----------

  /** What may follow an expression: anything that does not continue it. */
  predicate Ends(rest: seq<Token>)
  {
    Current(rest) != AND && Current(rest) != OR && Current(rest) != Minus
  }

  lemma {:induction false} OrComplete(t: OrTree, rest: seq<Token>)
    requires OrWF(t) && Ends(rest)
    ensures ParseOr(OrYield(t) + rest) == Ok((OrAst(t), rest))
    decreases t, 3
  {
    var ands := t.ands;
    assert AndsWF(ands);
    var tail := MoreAnds(ands[1..]) + rest;
    assert OrYield(t) + rest == AndYield(ands[0].terms) + tail;
    AndComplete(ands[0].terms, tail);
    OrTailComplete([AndAst(ands[0].terms)], ands[1..], rest);
  }

  lemma {:induction false} OrTailComplete(children: seq<SelectNode>, ands: seq<AndTree>, rest: seq<Token>)
    requires children != [] && AndsWF(ands) && Ends(rest)
    ensures ParseOrTail(children, MoreAnds(ands) + rest) == Ok((OrNode(children + AndsAst(ands)), rest))
    decreases ands, 2
  {
    if ands == [] {
      assert MoreAnds(ands) + rest == rest;
      AppendOne(children, children[0], []);
    } else {
      var tail := MoreAnds(ands[1..]) + rest;
      var n := AndAst(ands[0].terms);
      PushInside(OR, AndYield(ands[0].terms), MoreAnds(ands[1..]), rest);
      AndComplete(ands[0].terms, tail);
      OrTailComplete(children + [n], ands[1..], rest);
      AppendOne(children, n, AndsAst(ands[1..]));
    }
  }

  /** After an AND list may come anything but a further AND or a range's minus. */
  lemma {:induction false} AndComplete(terms: seq<TermTree>, rest: seq<Token>)
    requires terms != [] && TermsWF(terms) && Current(rest) != AND && Current(rest) != Minus
    ensures ParseAnd(AndYield(terms) + rest) == Ok((AndAst(terms), rest))
    decreases terms, 2
  {
    var tail := MoreTerms(terms[1..]) + rest;
    assert AndYield(terms) + rest == TermYield(terms[0]) + tail;
    TermComplete(terms[0], tail);
    AndTailComplete([TermAst(terms[0])], terms[1..], rest);
  }

  lemma {:induction false} AndTailComplete(children: seq<SelectNode>, terms: seq<TermTree>, rest: seq<Token>)
    requires children != [] && TermsWF(terms) && Current(rest) != AND && Current(rest) != Minus
    ensures ParseAndTail(children, MoreTerms(terms) + rest) == Ok((AndNode(children + TermsAst(terms)), rest))
    decreases terms, 1
  {
    if terms == [] {
      assert MoreTerms(terms) + rest == rest;
      AppendOne(children, children[0], []);
    } else {
      var tail := MoreTerms(terms[1..]) + rest;
      var n := TermAst(terms[0]);
      PushInside(AND, TermYield(terms[0]), MoreTerms(terms[1..]), rest);
      TermComplete(terms[0], tail);
      AndTailComplete(children + [n], terms[1..], rest);
      AppendOne(children, n, TermsAst(terms[1..]));
    }
  }

  lemma {:induction false} TermComplete(t: TermTree, rest: seq<Token>)
    requires TermWF(t) && Current(rest) != Minus
    ensures ParseTerm(TermYield(t) + rest) == Ok((TermAst(t), rest))
    decreases t, 0
  {
    var ts := TermYield(t) + rest;
    match t
    case Paren(inner) =>
      assert ts[1..] == OrYield(inner) + ([RParen] + rest);
      OrComplete(inner, [RParen] + rest);
      assert ([RParen] + rest)[1..] == rest;
    case Single(lit) =>
      assert ts[1..] == rest;
    case Span(lo, hi) =>
      assert ts[1..] == [Minus, ID(hi)] + rest;
      assert ts[2..] == [ID(hi)] + rest;
      assert ts[3..] == rest;
  }

  // ---------- and nothing else is ----------

  lemma {:induction false} OrSound(ts: seq<Token>) returns (t: OrTree)
    requires ParseOr(ts).Ok?
    ensures OrWF(t) && ts == OrYield(t) + ParseOr(ts).value.1 && OrAst(t) == ParseOr(ts).value.0
    decreases |ts|, 4
  {
    var terms := AndSound(ts);
    var (n, rest) := ParseAnd(ts).value;
    var ands := OrTailSound([n], rest);
    t := OrTree([AndTree(terms)] + ands);
    assert t.ands[1..] == ands;
    ghost var after := ParseOrTail([n], rest).value.1;
    assert AndYield(terms) + (MoreAnds(ands) + after) == (AndYield(terms) + MoreAnds(ands)) + after;
  }

  lemma {:induction false} OrTailSound(children: seq<SelectNode>, ts: seq<Token>) returns (ands: seq<AndTree>)
    requires children != [] && ParseOrTail(children, ts).Ok?
    ensures AndsWF(ands)
    ensures ts == MoreAnds(ands) + ParseOrTail(children, ts).value.1
    ensures ParseOrTail(children, ts).value.0 == OrNode(children + AndsAst(ands))
    decreases |ts|, 4
  {
    if Current(ts) != OR {
      ands := [];
      AppendOne(children, children[0], []);
    } else {
      var terms := AndSound(ts[1..]);
      var (n, rest) := ParseAnd(ts[1..]).value;
      var others := OrTailSound(children + [n], rest);
      ands := [AndTree(terms)] + others;
      assert ands[1..] == others;
      var after := ParseOrTail(children + [n], rest).value.1;
      PushInside(OR, AndYield(terms), MoreAnds(others), after);
      assert ts == [OR] + ts[1..];
      AppendOne(children, n, AndsAst(others));
    }
  }

  lemma {:induction false} AndSound(ts: seq<Token>) returns (terms: seq<TermTree>)
    requires ParseAnd(ts).Ok?
    ensures terms != [] && TermsWF(terms)
    ensures ts == AndYield(terms) + ParseAnd(ts).value.1 && AndAst(terms) == ParseAnd(ts).value.0
    decreases |ts|, 3
  {
    var first := TermSound(ts);
    var (n, rest) := ParseTerm(ts).value;
    var others := AndTailSound([n], rest);
    terms := [first] + others;
    assert terms[1..] == others;
    ghost var after := ParseAndTail([n], rest).value.1;
    assert TermYield(first) + (MoreTerms(others) + after) == (TermYield(first) + MoreTerms(others)) + after;
  }

  lemma {:induction false} AndTailSound(children: seq<SelectNode>, ts: seq<Token>) returns (terms: seq<TermTree>)
    requires children != [] && ParseAndTail(children, ts).Ok?
    ensures TermsWF(terms)
    ensures ts == MoreTerms(terms) + ParseAndTail(children, ts).value.1
    ensures ParseAndTail(children, ts).value.0 == AndNode(children + TermsAst(terms))
    decreases |ts|, 3
  {
    if Current(ts) != AND {
      terms := [];
      AppendOne(children, children[0], []);
    } else {
      var first := TermSound(ts[1..]);
      var (n, rest) := ParseTerm(ts[1..]).value;
      var others := AndTailSound(children + [n], rest);
      terms := [first] + others;
      assert terms[1..] == others;
      var after := ParseAndTail(children + [n], rest).value.1;
      PushInside(AND, TermYield(first), MoreTerms(others), after);
      assert ts == [AND] + ts[1..];
      AppendOne(children, n, TermsAst(others));
    }
  }

  lemma {:induction false} TermSound(ts: seq<Token>) returns (t: TermTree)
    requires ParseTerm(ts).Ok?
    ensures TermWF(t) && ts == TermYield(t) + ParseTerm(ts).value.1 && TermAst(t) == ParseTerm(ts).value.0
    decreases |ts|, 2
  {
    if Current(ts) == LParen {
      var inner := OrSound(ts[1..]);
      t := Paren(inner);
      ParenAround(ts, OrYield(inner), ParseOr(ts[1..]).value.1);
    } else {
      t := AtomSound(ts);
    }
  }

  lemma ParenAround(ts: seq<Token>, inside: seq<Token>, rest: seq<Token>)
    requires ts != [] && ts[0] == LParen && ts[1..] == inside + rest && rest != [] && rest[0] == RParen
    ensures ts == [LParen] + inside + [RParen] + rest[1..]
  {
    assert ts == [ts[0]] + ts[1..] && rest == [rest[0]] + rest[1..];
  }

  lemma AtomSound(ts: seq<Token>) returns (t: TermTree)
    requires ParseAtomic(ts).Ok?
    ensures TermWF(t) && !t.Paren? && ts == TermYield(t) + ParseAtomic(ts).value.1 && TermAst(t) == ParseAtomic(ts).value.0
  {
    if Current(ts[1..]) != Minus {
      t := Single(ts[0].value);
      assert ts == [ts[0]] + ts[1..];
    } else {
      t := Span(ts[0].value, ts[2].value);
      assert ts == [ts[0], ts[1], ts[2]] + ts[3..];
    }
  }

  /** A text with a derivation is parsed to that derivation's expression. */
  lemma DerivedIsParsed(input: string, t: OrTree)
    requires OrWF(t) && Tokenize(TrimSpace(input)) == OrYield(t) + [EOF]
    ensures ParseSpec(input) == Ok(OrAst(t))
  {
    OrComplete(t, [EOF]);
    assert |OrYield(t)| > 0;
    assert |Tokenize("")| == 1;
  }

  /** A text that is parsed has a derivation. */
  lemma ParsedIsDerived(input: string) returns (t: OrTree)
    requires ParseSpec(input).Ok?
    ensures OrWF(t) && Tokenize(TrimSpace(input)) == OrYield(t) + [EOF] && ParseSpec(input) == Ok(OrAst(t))
  {
    var ts := Tokenize(TrimSpace(input));
    t := OrSound(ts);
    OnlyEndLeft(ts, OrYield(t), ParseOr(ts).value.1);
  }

  /** A token list that ends in its only end token and continues with it has nothing else left. */
  lemma OnlyEndLeft(ts: seq<Token>, front: seq<Token>, rest: seq<Token>)
    requires ts == front + rest && rest != [] && rest[0] == EOF
    requires forall i :: 0 <= i < |ts| - 1 ==> ts[i] != EOF
    ensures rest == [EOF]
  {
    assert ts[|front|] == EOF;
  }

  /**
   Parse accepts exactly the texts whose tokens some syntax tree of the grammar derives, and
   returns that tree's expression, whose meaning is a union of intersections of terms.
   */
  lemma ParseIsGrammar(input: string, n: SelectNode)
    ensures ParseSpec(input) == Ok(n)
       <==> exists t :: OrWF(t) && Tokenize(TrimSpace(input)) == OrYield(t) + [EOF] && OrAst(t) == n
    ensures ParseSpec(input) == Ok(n) ==> Parsed(n)
    ensures forall t :: OrWF(t) && Tokenize(TrimSpace(input)) == OrYield(t) + [EOF] ==>
              ParseSpec(input) == Ok(OrAst(t)) && Denote(OrAst(t)) == OrMeaning(t)
  {
    forall t | OrWF(t) && Tokenize(TrimSpace(input)) == OrYield(t) + [EOF]
      ensures ParseSpec(input) == Ok(OrAst(t)) && Denote(OrAst(t)) == OrMeaning(t)
    {
      DerivedIsParsed(input, t);
      OrMeans(t);
    }
    if ParseSpec(input) == Ok(n) {
      var t := ParsedIsDerived(input);
      OrMeans(t);
    }
  }

  // ---------- the recursive descent ----------

  class Parser {
    const lexer: Lexer
    var current: Token

    ghost predicate Valid()
      reads this, lexer
    {
      lexer.Valid()
    }

    /** The current token and those the lexer will still produce. */
    ghost function Pending(): seq<Token>
      requires Valid()
      reads this, lexer
    {
      if Terminal(current) then [current] else [current] + Tokenize(lexer.Rest())
    }

    constructor (input: string)
      ensures Valid() && Pending() == Tokenize(input) && fresh(lexer)
    {
      var l := new Lexer(input);
      ghost var rest := l.Rest();
      assert rest == input;
      var tok := l.Next();
      lexer := l;
      current := tok;
    }

    method Advance()
      requires Valid() && !Terminal(current)
      modifies this, lexer
      ensures Valid() && Pending() == old(Pending())[1..]
    {
      current := lexer.Next();
    }

    method ParseExpression() returns (r: Result<SelectNode, ErrorCode>)
      requires Valid()
      modifies this, lexer
      ensures Valid()
      ensures r == match ParseOr(old(Pending()))
                   case Err(e) => Err(e)
                   case Ok((n, rest)) => if Current(rest) == EOF then Ok(n) else Err(UnexpectedToken)
    {
      r := ParseOrExpr();
      if r.Ok? && current != EOF {
        return Err(UnexpectedToken);
      }
    }

    method ParseOrExpr() returns (r: Result<SelectNode, ErrorCode>)
      requires Valid()
      modifies this, lexer
      ensures Valid() && Follows(ParseOr(old(Pending())), r)
      decreases |Pending()|, 4
    {
      ghost var ts := Pending();
      var left := ParseAndExpr();
      if left.Err? {
        return left;
      }
      var children := [left.value];
      while current == OR
        invariant Valid() && children != []
        invariant |Pending()| < |ts|
        invariant ParseOr(ts) == ParseOrTail(children, Pending())
        decreases |Pending()|
      {
        Advance();
        var right := ParseAndExpr();
        if right.Err? {
          return right;
        }
        children := children + [right.value];
      }
      if |children| == 1 {
        return Ok(children[0]);
      }
      return Ok(Or(children));
    }

    method ParseAndExpr() returns (r: Result<SelectNode, ErrorCode>)
      requires Valid()
      modifies this, lexer
      ensures Valid() && Follows(ParseAnd(old(Pending())), r)
      decreases |Pending()|, 3
    {
      ghost var ts := Pending();
      var left := ParseOneTerm();
      if left.Err? {
        return left;
      }
      var children := [left.value];
      while current == AND
        invariant Valid() && children != []
        invariant |Pending()| < |ts|
        invariant ParseAnd(ts) == ParseAndTail(children, Pending())
        decreases |Pending()|
      {
        Advance();
        var right := ParseOneTerm();
        if right.Err? {
          return right;
        }
        children := children + [right.value];
      }
      if |children| == 1 {
        return Ok(children[0]);
      }
      return Ok(And(children));
    }

    method ParseOneTerm() returns (r: Result<SelectNode, ErrorCode>)
      requires Valid()
      modifies this, lexer
      ensures Valid() && Follows(ParseTerm(old(Pending())), r)
      decreases |Pending()|, 2
    {
      if current == LParen {
        Advance();
        r := ParseOrExpr();
        if r.Err? {
          return;
        }
        if current != RParen {
          return Err(MismatchedParen);
        }
        Advance();
        return;
      }
      r := ParseAtom();
    }

    method ParseAtom() returns (r: Result<SelectNode, ErrorCode>)
      requires Valid()
      modifies this, lexer
      ensures Valid() && Follows(ParseAtomic(old(Pending())), r)
      decreases |Pending()|, 1
    {
      ghost var ts := Pending();
      if !current.ID? {
        return Err(InvalidSyntax);
      }
      var first := Atoi(current.value);
      if first.None? {
        return Err(InvalidID);
      }
      Advance();
      if current == Minus {
        Advance();
        assert Pending() == ts[2..];
        if !current.ID? {
          return Err(InvalidSyntax);
        }
        var second := Atoi(current.value);
        if second.None? {
          return Err(InvalidID);
        }
        if first.value > second.value {
          return Err(InvalidRange);
        }
        Advance();
        assert Pending() == ts[3..];
        return Ok(Range(first.value, second.value));
      }
      return Ok(IDSet([first.value]));
    }

    /** A method's outcome is the function's: same error, or same node with the same tokens pending. */
    ghost predicate Follows(spec: Parse, r: Result<SelectNode, ErrorCode>)
      requires Valid()
      reads this, lexer
    {
      match spec
      case Err(e) => r == Err(e)
      case Ok((n, rest)) => r == Ok(n) && Pending() == rest
    }
  }

  method ParseInput(input: string) returns (r: Result<SelectNode, ErrorCode>)
    ensures r == ParseSpec(input)
  {
    var text := TrimSpace(input);
    if text == "" {
      return Err(EmptyExpression);
    }
    var parser := new Parser(text);
    r := parser.ParseExpression();
  }
}
