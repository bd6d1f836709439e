/**
 Selector expressions (internal/planning/selector_types.go): the tree, the set of pull request
 IDs it denotes, its printed form, and the documented grammar with its concrete syntax trees.
 */
module SelectorSyntax {
  import opened Integers
  import opened Text

  datatype SelectNode =
    | Or(children: seq<SelectNode>)
    | And(children: seq<SelectNode>)
    | IDSet(ids: seq<int>)
    | Range(start: int, end: int)

  datatype ErrorCode =
    InvalidSyntax | EmptyExpression | InvalidRange | InvalidID | UnexpectedToken | MismatchedParen

  /** TokenRange, which the lexer never produces, is left out, and so are positions. */
  datatype Token = EOF | ID(value: string) | AND | OR | LParen | RParen | Minus | Unknown(ch: char)

  predicate Terminal(t: Token)
  {
    t.EOF? || t.Unknown?
  }

  // ---------- meaning ----------

  ghost function IdsBetween(start: int, end: int): (ids: set<int>)
    ensures forall id :: id in ids <==> start <= id <= end
    decreases end - start
  {
    if start > end then {} else {start} + IdsBetween(start + 1, end)
  }

  /** Intersection of nonempty AND, union for OR; an empty AND denotes nothing. */
  ghost function Denote(n: SelectNode): set<int>
    decreases n, 0
  {
    match n
    case IDSet(ids) => set id | id in ids
    case Range(start, end) => IdsBetween(start, end)
    case And(children) => if children == [] then {} else DenoteAll(children)
    case Or(children) => DenoteAny(children)
  }

  ghost function DenoteAny(children: seq<SelectNode>): set<int>
    decreases children
  {
    if children == [] then {} else Denote(children[0]) + DenoteAny(children[1..])
  }

  ghost function DenoteAll(children: seq<SelectNode>): set<int>
    requires children != []
    decreases children
  {
    if |children| == 1 then Denote(children[0]) else Denote(children[0]) * DenoteAll(children[1..])
  }

  // ---------- printing ----------

  function NodeString(n: SelectNode): string
    decreases n, 0
  {
    match n
    case IDSet(ids) =>
      if |ids| == 1 then Format(ids[0]) else "{" + JoinIds(ids) + "}"
    case Range(start, end) =>
      if start == end then Format(start) else Format(start) + "-" + Format(end)
    case And(children) => "(" + JoinNodes(children, "AND") + ")"
    case Or(children) => "(" + JoinNodes(children, "OR") + ")"
  }

  /** strings.Join with the separator " word ". */
  function JoinNodes(children: seq<SelectNode>, word: string): string
    decreases children, 1
  {
    if children == [] then "" else NodeString(children[0]) + JoinMore(children[1..], word)
  }

  function JoinMore(children: seq<SelectNode>, word: string): string
    decreases children, 0
  {
    if children == [] then "" else " " + (word + (" " + (NodeString(children[0]) + JoinMore(children[1..], word))))
  }

  function JoinIds(ids: seq<int>): string
  {
    if ids == [] then ""
    else if |ids| == 1 then Format(ids[0])
    else Format(ids[0]) + "," + JoinIds(ids[1..])
  }

  // ---------- what parsing can produce ----------

  predicate IsID(id: int)
  {
    0 <= id <= MAX_INT
  }

  predicate Parsed(n: SelectNode)
    decreases n, 0
  {
    match n
    case IDSet(ids) => |ids| == 1 && IsID(ids[0])
    case Range(start, end) => IsID(start) && IsID(end) && start <= end
    case And(children) => |children| >= 2 && AllParsed(children)
    case Or(children) => |children| >= 2 && AllParsed(children)
  }

  predicate AllParsed(children: seq<SelectNode>)
    decreases children
  {
    children == [] || (Parsed(children[0]) && AllParsed(children[1..]))
  }

  /** A range n-n is printed, and read back, as the single ID n. */
  function Normal(n: SelectNode): SelectNode
    decreases n, 0
  {
    match n
    case IDSet(_) => n
    case Range(start, end) => if start == end then IDSet([start]) else n
    case And(children) => And(NormalAll(children))
    case Or(children) => Or(NormalAll(children))
  }

  function NormalAll(children: seq<SelectNode>): (r: seq<SelectNode>)
    ensures |r| == |children|
    decreases children
  {
    if children == [] then [] else [Normal(children[0])] + NormalAll(children[1..])
  }

  lemma {:induction false} NormalSame(n: SelectNode)
    ensures Denote(Normal(n)) == Denote(n)
    ensures NodeString(Normal(n)) == NodeString(n)
    decreases n, 0
  {
    match n
    case IDSet(_) =>
    case Range(start, end) =>
    case And(children) =>
      NormalAllSame(children, "AND");
    case Or(children) =>
      NormalAllSame(children, "OR");
  }

  lemma {:induction false} NormalAllSame(children: seq<SelectNode>, word: string)
    ensures DenoteAny(NormalAll(children)) == DenoteAny(children)
    ensures children != [] ==> DenoteAll(NormalAll(children)) == DenoteAll(children)
    ensures JoinMore(NormalAll(children), word) == JoinMore(children, word)
    ensures JoinNodes(NormalAll(children), word) == JoinNodes(children, word)
    decreases children
  {
    if children != [] {
      NormalSame(children[0]);
      NormalAllSame(children[1..], word);
      assert NormalAll(children)[1..] == NormalAll(children[1..]);
    }
  }

  // ---------- the grammar ----------

  /** expr -> orExpr; orExpr -> andExpr (OR andExpr)*. */
  datatype OrTree = OrTree(ands: seq<AndTree>)

  /** andExpr -> term (AND term)*. */
  datatype AndTree = AndTree(terms: seq<TermTree>)

  /** term -> '(' expr ')' | ID | ID '-' ID. */
  datatype TermTree = Paren(inner: OrTree) | Single(lit: string) | Span(lo: string, hi: string)

  predicate OrWF(t: OrTree)
    decreases t, 1
  {
    t.ands != [] && AndsWF(t.ands)
  }

  predicate AndsWF(ands: seq<AndTree>)
    decreases ands, 0
  {
    ands == [] || (ands[0].terms != [] && TermsWF(ands[0].terms) && AndsWF(ands[1..]))
  }

  predicate TermsWF(terms: seq<TermTree>)
    decreases terms, 0
  {
    terms == [] || (TermWF(terms[0]) && TermsWF(terms[1..]))
  }

  predicate TermWF(t: TermTree)
    decreases t, 0
  {
    match t
    case Paren(inner) => OrWF(inner)
    case Single(lit) => Atoi(lit).Some?
    case Span(lo, hi) => Atoi(lo).Some? && Atoi(hi).Some? && Atoi(lo).value <= Atoi(hi).value
  }

  /** The tokens a syntax tree derives. */
  function OrYield(t: OrTree): seq<Token>
    requires OrWF(t)
    decreases t, 1
  {
    assert AndsWF(t.ands);
    AndYield(t.ands[0].terms) + MoreAnds(t.ands[1..])
  }

  function MoreAnds(ands: seq<AndTree>): seq<Token>
    requires AndsWF(ands)
    decreases ands, 0
  {
    if ands == [] then [] else [OR] + (AndYield(ands[0].terms) + MoreAnds(ands[1..]))
  }

  function AndYield(terms: seq<TermTree>): seq<Token>
    requires terms != [] && TermsWF(terms)
    decreases terms, 1
  {
    TermYield(terms[0]) + MoreTerms(terms[1..])
  }

  function MoreTerms(terms: seq<TermTree>): seq<Token>
    requires TermsWF(terms)
    decreases terms, 0
  {
    if terms == [] then [] else [AND] + (TermYield(terms[0]) + MoreTerms(terms[1..]))
  }

  function TermYield(t: TermTree): seq<Token>
    requires TermWF(t)
    decreases t, 0
  {
    match t
    case Paren(inner) => [LParen] + OrYield(inner) + [RParen]
    case Single(lit) => [ID(lit)]
    case Span(lo, hi) => [ID(lo), Minus, ID(hi)]
  }

  /** Operators with one operand disappear. */
  function OrNode(children: seq<SelectNode>): SelectNode
    requires children != []
  {
    if |children| == 1 then children[0] else Or(children)
  }

  function AndNode(children: seq<SelectNode>): SelectNode
    requires children != []
  {
    if |children| == 1 then children[0] else And(children)
  }

  /** The expression a syntax tree stands for. */
  function OrAst(t: OrTree): SelectNode
    requires OrWF(t)
    decreases t, 1
  {
    OrNode(AndsAst(t.ands))
  }

  function AndsAst(ands: seq<AndTree>): (r: seq<SelectNode>)
    requires AndsWF(ands)
    ensures |r| == |ands|
    decreases ands, 0
  {
    if ands == [] then [] else [AndAst(ands[0].terms)] + AndsAst(ands[1..])
  }

  function AndAst(terms: seq<TermTree>): SelectNode
    requires terms != [] && TermsWF(terms)
    decreases terms, 1
  {
    AndNode(TermsAst(terms))
  }

  function TermsAst(terms: seq<TermTree>): (r: seq<SelectNode>)
    requires TermsWF(terms)
    ensures |r| == |terms|
    decreases terms, 0
  {
    if terms == [] then [] else [TermAst(terms[0])] + TermsAst(terms[1..])
  }

  function TermAst(t: TermTree): SelectNode
    requires TermWF(t)
    decreases t, 0
  {
    match t
    case Paren(inner) => OrAst(inner)
    case Single(lit) => IDSet([Atoi(lit).value])
    case Span(lo, hi) => Range(Atoi(lo).value, Atoi(hi).value)
  }

  // ---------- AND binds tighter than OR ----------

  /** The reading the grammar gives a syntax tree: a union of intersections of terms. */
  ghost function OrMeaning(t: OrTree): set<int>
    requires OrWF(t)
    decreases t, 1
  {
    UnionOfAnds(t.ands)
  }

  ghost function UnionOfAnds(ands: seq<AndTree>): set<int>
    requires AndsWF(ands)
    decreases ands, 0
  {
    if ands == [] then {} else IntersectionOfTerms(ands[0].terms) + UnionOfAnds(ands[1..])
  }

  ghost function IntersectionOfTerms(terms: seq<TermTree>): set<int>
    requires terms != [] && TermsWF(terms)
    decreases terms, 0
  {
    if |terms| == 1 then TermMeaning(terms[0]) else TermMeaning(terms[0]) * IntersectionOfTerms(terms[1..])
  }

  ghost function TermMeaning(t: TermTree): set<int>
    requires TermWF(t)
    decreases t, 0
  {
    match t
    case Paren(inner) => OrMeaning(inner)
    case Single(lit) => {Atoi(lit).value}
    case Span(lo, hi) => IdsBetween(Atoi(lo).value, Atoi(hi).value)
  }

  lemma {:induction false} OrMeans(t: OrTree)
    requires OrWF(t)
    ensures Denote(OrAst(t)) == OrMeaning(t)
    ensures Parsed(OrAst(t))
    decreases t, 3
  {
    AndsMean(t.ands);
    SingleAny(AndsAst(t.ands));
  }

  lemma SingleAny(children: seq<SelectNode>)
    ensures |children| == 1 ==> DenoteAny(children) == Denote(children[0])
    ensures |children| == 1 && AllParsed(children) ==> Parsed(children[0])
  {
    if |children| == 1 {
      assert DenoteAny(children[1..]) == {};
    }
  }

  lemma {:induction false} AndsMean(ands: seq<AndTree>)
    requires AndsWF(ands)
    ensures DenoteAny(AndsAst(ands)) == UnionOfAnds(ands)
    ensures AllParsed(AndsAst(ands))
    decreases ands, 0
  {
    if ands != [] {
      AndMeans(ands[0].terms);
      AndsMean(ands[1..]);
      assert AndsAst(ands)[1..] == AndsAst(ands[1..]);
    }
  }

  lemma {:induction false} AndMeans(terms: seq<TermTree>)
    requires terms != [] && TermsWF(terms)
    ensures Denote(AndAst(terms)) == IntersectionOfTerms(terms)
    ensures Parsed(AndAst(terms))
    decreases terms, 2
  {
    TermsMean(terms);
  }

  lemma {:induction false} TermsMean(terms: seq<TermTree>)
    requires terms != [] && TermsWF(terms)
    ensures DenoteAll(TermsAst(terms)) == IntersectionOfTerms(terms)
    ensures AllParsed(TermsAst(terms))
    ensures Denote(TermAst(terms[0])) == TermMeaning(terms[0]) && Parsed(TermAst(terms[0]))
    decreases terms, 1
  {
    TermMeans(terms[0]);
    if |terms| > 1 {
      TermsMean(terms[1..]);
      assert TermsAst(terms)[1..] == TermsAst(terms[1..]);
    } else {
      assert TermsAst(terms[1..]) == [];
    }
  }

  lemma {:induction false} TermMeans(t: TermTree)
    requires TermWF(t)
    ensures Denote(TermAst(t)) == TermMeaning(t) && Parsed(TermAst(t))
    decreases t, 0
  {
    match t
    case Paren(inner) => OrMeans(inner);
    case Single(lit) =>
    case Span(lo, hi) =>
  }
}
