/** Printing a parsed selector expression and parsing it again (selector_types.go, String). */
module SelectorRoundTrip {
  import opened Results
  import opened Text
  import opened SelectorSyntax
  import opened SelectorLexer
  import opened SelectorParser

  /** The syntax tree of a printed expression. */
  function TreeOf(n: SelectNode): TermTree
    requires Parsed(n)
    decreases n, 0
  {
    match n
    case IDSet(ids) => Single(Itoa(ids[0]))
    case Range(start, end) => if start == end then Single(Itoa(start)) else Span(Itoa(start), Itoa(end))
    case And(children) => Paren(OrTree([AndTree(TreesOf(children))]))
    case Or(children) => Paren(OrTree(AndTreesOf(children)))
  }

  function TreesOf(children: seq<SelectNode>): (r: seq<TermTree>)
    requires AllParsed(children)
    ensures |r| == |children|
    decreases children
  {
    if children == [] then [] else [TreeOf(children[0])] + TreesOf(children[1..])
  }

  function AndTreesOf(children: seq<SelectNode>): (r: seq<AndTree>)
    requires AllParsed(children)
    ensures |r| == |children|
    decreases children
  {
    if children == [] then [] else [AndTree([TreeOf(children[0])])] + AndTreesOf(children[1..])
  }

  lemma {:induction false} TreeMeaning(n: SelectNode)
    requires Parsed(n)
    ensures TermWF(TreeOf(n)) && TermAst(TreeOf(n)) == Normal(n)
    decreases n, 0
  {
    match n
    case IDSet(ids) => AtoiOfItoa(ids[0]);
    case Range(start, end) =>
      AtoiOfItoa(start);
      AtoiOfItoa(end);
    case And(children) =>
      TreesMeaning(children);
      var t := OrTree([AndTree(TreesOf(children))]);
      assert AndsWF(t.ands[1..]);
      assert AndsAst(t.ands) == [AndAst(TreesOf(children))];
    case Or(children) =>
      TreesMeaning(children);
  }

  lemma {:induction false} TreesMeaning(children: seq<SelectNode>)
    requires AllParsed(children)
    ensures TermsWF(TreesOf(children)) && TermsAst(TreesOf(children)) == NormalAll(children)
    ensures AndsWF(AndTreesOf(children)) && AndsAst(AndTreesOf(children)) == NormalAll(children)
    decreases children
  {
    if children != [] {
      TreeMeaning(children[0]);
      TreesMeaning(children[1..]);
      var t := TreeOf(children[0]);
      OneTerm(t);
      assert TreesOf(children)[1..] == TreesOf(children[1..]);
      assert AndTreesOf(children)[1..] == AndTreesOf(children[1..]);
    }
  }

  lemma OneTerm(t: TermTree)
    requires TermWF(t)
    ensures TermsWF([t]) && AndAst([t]) == TermAst(t) && AndYield([t]) == TermYield(t)
  {
    assert [t][1..] == [];
    assert TermsAst([t]) == [TermAst(t)];
  }

  // Regrouping of concatenations, kept apart from the functions applied to them.

  lemma GroupRange<T>(a: seq<T>, x: seq<T>, b: seq<T>, rest: seq<T>)
    ensures (a + x + b) + rest == a + (x + (b + rest))
  {
  }

  lemma GroupThree<T>(a: T, b: T, c: T, all: seq<T>, more: seq<T>, last: seq<T>, rest: seq<T>)
    requires all == [a] + more && more == [b] + last && last == [c] + rest
    ensures all == [a, b, c] + rest
  {
  }

  lemma GroupList<T>(x: seq<T>, a: seq<T>, m: seq<T>, y: seq<T>, rest: seq<T>)
    ensures (x + (a + m) + y) + rest == x + (a + (m + (y + rest)))
  {
  }

  lemma GroupMore<T>(x: seq<T>, word: seq<T>, y: seq<T>, a: seq<T>, m: seq<T>, rest: seq<T>)
    ensures (x + (word + (y + (a + m)))) + rest == x + (word + (y + (a + (m + rest))))
  {
  }

  lemma GroupPair<T>(x: seq<T>, a: seq<T>, m: seq<T>, rest: seq<T>)
    ensures (x + (a + m)) + rest == x + (a + (m + rest))
  {
  }

  /** The printed form of an expression lexes to the tokens of its syntax tree. */
  lemma {:induction false} PrintedTokens(n: SelectNode, rest: string)
    requires Parsed(n) && EndsWord(rest)
    ensures TermWF(TreeOf(n))
    ensures Tokenize(NodeString(n) + rest) == TermYield(TreeOf(n)) + Tokenize(rest)
    decreases n, 1
  {
    TreeMeaning(n);
    match n
    case IDSet(ids) => TokenizeNumber(Itoa(ids[0]), rest);
    case Range(start, end) =>
      if start == end {
        TokenizeNumber(Itoa(start), rest);
      } else {
        PrintedRange(start, end, rest);
      }
    case And(children) =>
      PrintedList(children, "AND", rest);
      ListIsTree(n);
    case Or(children) =>
      PrintedList(children, "OR", rest);
      ListIsTree(n);
  }

  lemma ListIsTree(n: SelectNode)
    requires Parsed(n) && TermWF(TreeOf(n))
    ensures n.And? ==> TermYield(TreeOf(n)) == [LParen] + ListYield(n.children, "AND") + [RParen]
    ensures n.Or? ==> TermYield(TreeOf(n)) == [LParen] + ListYield(n.children, "OR") + [RParen]
  {
    if n.And? || n.Or? {
      var children := n.children;
      TreesMeaning(children);
      MoreYieldIsTerms(children[1..]);
      TreeMeaning(children[0]);
      OneTerm(TreeOf(children[0]));
      assert TreesOf(children)[1..] == TreesOf(children[1..]);
      assert AndTreesOf(children)[1..] == AndTreesOf(children[1..]);
      if n.And? {
        var inner := OrTree([AndTree(TreesOf(children))]);
        assert AndsWF(inner.ands) && inner.ands[1..] == [];
        assert OrYield(inner) == AndYield(TreesOf(children));
      } else {
        assert AndsWF(AndTreesOf(children));
      }
    }
  }

  lemma PrintedRange(start: int, end: int, rest: string)
    requires IsID(start) && IsID(end) && EndsWord(rest)
    ensures Tokenize((Format(start) + "-" + Format(end)) + rest)
         == [ID(Itoa(start)), Minus, ID(Itoa(end))] + Tokenize(rest)
  {
    TokenizeRange(Itoa(start), Itoa(end), rest);
  }

  lemma TokenizeRange(a: string, b: string, rest: string)
    requires a != [] && b != [] && AllDigits(a) && AllDigits(b) && EndsWord(rest)
    ensures Tokenize((a + "-" + b) + rest) == [ID(a), Minus, ID(b)] + Tokenize(rest)
  {
    var tail := b + rest;
    var dash := "-" + tail;
    TokenizeNumber(b, rest);
    TokenizeSymbol('-', tail);
    TokenizeNumber(a, dash);
    GroupRange(a, "-", b, rest);
    GroupThree(ID(a), Minus, ID(b), Tokenize(a + dash), Tokenize(dash), Tokenize(tail), Tokenize(rest));
  }

  /** A parenthesised list of operands. */
  lemma {:induction false} PrintedList(children: seq<SelectNode>, word: string, rest: string)
    requires children != [] && AllParsed(children) && (word == "AND" || word == "OR")
    ensures Tokenize(("(" + JoinNodes(children, word) + ")") + rest)
         == ([LParen] + ListYield(children, word) + [RParen]) + Tokenize(rest)
    decreases children, 1
  {
    var close := ")" + rest;
    TokenizeSymbol(')', rest);
    var more := JoinMore(children[1..], word) + close;
    JoinMoreEndsWord(children[1..], word, close);
    PrintedTokens(children[0], more);
    PrintedMore(children[1..], word, close);
    TokenizeSymbol('(', NodeString(children[0]) + more);
    GroupList("(", NodeString(children[0]), JoinMore(children[1..], word), ")", rest);
    GroupList([LParen], TermYield(TreeOf(children[0])), MoreYield(children[1..], word), [RParen], Tokenize(rest));
  }

  lemma JoinMoreEndsWord(children: seq<SelectNode>, word: string, close: string)
    requires close != [] && close[0] == ')'
    ensures EndsWord(JoinMore(children, word) + close)
  {
    if children != [] {
      assert (JoinMore(children, word) + close)[0] == ' ';
    }
  }

  ghost function ListYield(children: seq<SelectNode>, word: string): seq<Token>
    requires children != [] && AllParsed(children)
  {
    TreeMeaning(children[0]);
    TermYield(TreeOf(children[0])) + MoreYield(children[1..], word)
  }

  ghost function MoreYield(children: seq<SelectNode>, word: string): seq<Token>
    requires AllParsed(children)
    decreases children
  {
    if children == [] then []
    else
      TreeMeaning(children[0]);
      [if word == "AND" then AND else OR] + (TermYield(TreeOf(children[0])) + MoreYield(children[1..], word))
  }

  lemma {:induction false} PrintedMore(children: seq<SelectNode>, word: string, close: string)
    requires AllParsed(children) && (word == "AND" || word == "OR")
    requires close != [] && close[0] == ')'
    ensures Tokenize(JoinMore(children, word) + close) == MoreYield(children, word) + Tokenize(close)
    decreases children, 0
  {
    if children == [] {
      assert JoinMore(children, word) + close == close;
    } else {
      var more := JoinMore(children[1..], word) + close;
      JoinMoreEndsWord(children[1..], word, close);
      PrintedTokens(children[0], more);
      PrintedMore(children[1..], word, close);
      TokenizeKeyword(word, NodeString(children[0]) + more);
      GroupMore(" ", word, " ", NodeString(children[0]), JoinMore(children[1..], word), close);
      GroupPair([if word == "AND" then AND else OR], TermYield(TreeOf(children[0])), MoreYield(children[1..], word),
                Tokenize(close));
    }
  }

  lemma {:induction false} MoreYieldIsTerms(children: seq<SelectNode>)
    requires AllParsed(children)
    ensures TermsWF(TreesOf(children)) && MoreYield(children, "AND") == MoreTerms(TreesOf(children))
    ensures AndsWF(AndTreesOf(children)) && MoreYield(children, "OR") == MoreAnds(AndTreesOf(children))
    decreases children
  {
    TreesMeaning(children);
    if children != [] {
      MoreYieldIsTerms(children[1..]);
      TreeMeaning(children[0]);
      OneTerm(TreeOf(children[0]));
      assert TreesOf(children)[1..] == TreesOf(children[1..]);
      assert AndTreesOf(children)[1..] == AndTreesOf(children[1..]);
    }
  }

  /** Printed text needs no trimming. */
  lemma PrintedEnds(n: SelectNode)
    requires Parsed(n)
    ensures TrimSpace(NodeString(n)) == NodeString(n) && NodeString(n) != ""
  {
    var s := NodeString(n);
    match n {
      case IDSet(ids) =>
      case Range(start, end) =>
      case And(children) => assert s[0] == '(' && s[|s| - 1] == ')';
      case Or(children) => assert s[0] == '(' && s[|s| - 1] == ')';
    }
    TrimSpaceKeeps(s);
  }

  /** Reading back the printed form of any parsed expression. */
  lemma PrintedParses(n: SelectNode)
    requires Parsed(n)
    ensures ParseSpec(NodeString(n)) == Ok(Normal(n))
  {
    PrintedEnds(n);
    TreeMeaning(n);
    var t := TreeOf(n);
    OneTerm(t);
    var whole := OrTree([AndTree([t])]);
    assert AndsWF(whole.ands[1..]) && AndsWF(whole.ands);
    assert whole.ands[1..] == [];
    assert OrYield(whole) == TermYield(t);
    PrintedTokens(n, "");
    assert NodeString(n) + "" == NodeString(n);
    assert Tokenize("") == [EOF];
    assert AndsAst(whole.ands) == [AndAst([t])];
    DerivedIsParsed(NodeString(n), whole);
  }

  /**
   For every text that parses: the printed form parses, to the same expression up to reading a
   range n-n as the ID n; it denotes the same set of IDs and prints the same again.
   */
  lemma RoundTrip(input: string)
    requires ParseSpec(input).Ok?
    ensures var e := ParseSpec(input).value;
            ParseSpec(NodeString(e)).Ok?
            && (var e' := ParseSpec(NodeString(e)).value;
                e' == Normal(e) && Denote(e') == Denote(e) && NodeString(e') == NodeString(e))
  {
    var e := ParseSpec(input).value;
    ParseIsGrammar(input, e);
    PrintedParses(e);
    NormalSame(e);
  }
}
