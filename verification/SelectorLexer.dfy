/** The selector lexer (internal/planning/selector_parser.go, Lexer) over the bytes of its input. */
module SelectorLexer {
  import opened Text
  import opened SelectorSyntax

  predicate IsWordStart(c: char)
  {
    IsLetter(c) || IsDigit(c)
  }

  predicate IsWordChar(c: char)
  {
    IsLetter(c) || c == '_' || IsDigit(c)
  }

  function SkipSpaces(s: string): (r: string)
    ensures |r| <= |s|
    ensures r != [] ==> !IsSpace(r[0])
  {
    if s != [] && IsSpace(s[0]) then SkipSpaces(s[1..]) else s
  }

  function WordLength(s: string): (n: nat)
    ensures n <= |s|
    ensures s != [] && IsWordChar(s[0]) ==> n > 0
  {
    if s != [] && IsWordChar(s[0]) then 1 + WordLength(s[1..]) else 0
  }

  function WordToken(value: string): Token
  {
    if ToUpper(value) == "AND" then AND
    else if ToUpper(value) == "OR" then OR
    else ID(value)
  }

  /** The next token of a text and what is left; nothing is consumed at the end or on an unknown byte. */
  function NextToken(s: string): (r: (Token, string))
    ensures |r.1| <= |s|
    ensures !Terminal(r.0) ==> |r.1| < |s|
    ensures Terminal(r.0) ==> r.1 == SkipSpaces(s)
  {
    var t := SkipSpaces(s);
    if t == [] then (EOF, t)
    else if t[0] == '(' then (LParen, t[1..])
    else if t[0] == ')' then (RParen, t[1..])
    else if t[0] == '-' then (Minus, t[1..])
    else if IsWordStart(t[0]) then
      var n := WordLength(t);
      (WordToken(t[..n]), t[n..])
    else (Unknown(t[0]), t)
  }

  /** All tokens up to and including the first that consumes nothing. */
  function Tokenize(s: string): (tokens: seq<Token>)
    ensures tokens != [] && Terminal(tokens[|tokens| - 1])
    ensures forall i :: 0 <= i < |tokens| - 1 ==> !Terminal(tokens[i])
    decreases |s|
  {
    var (tok, rest) := NextToken(s);
    if Terminal(tok) then [tok] else [tok] + Tokenize(rest)
  }

  class Lexer {
    const input: string
    var pos: nat

    ghost predicate Valid()
      reads this
    {
      pos <= |input|
    }

    constructor (input: string)
      ensures Valid() && this.input == input && pos == 0
    {
      this.input, pos := input, 0;
    }

    /** The text not yet read. */
    ghost function Rest(): string
      requires Valid()
      reads this
    {
      input[pos..]
    }

    method SkipWhitespace()
      requires Valid()
      modifies this
      ensures Valid() && Rest() == SkipSpaces(old(Rest()))
    {
      while pos < |input| && IsSpace(input[pos])
        invariant Valid() && SkipSpaces(Rest()) == SkipSpaces(old(Rest()))
        decreases |input| - pos
      {
        assert Rest()[1..] == input[pos + 1..];
        pos := pos + 1;
      }
    }

    method ReadWord() returns (tok: Token)
      requires Valid()
      modifies this
      ensures Valid()
      ensures var before := old(Rest()); var n := WordLength(before);
              tok == WordToken(before[..n]) && Rest() == before[n..]
    {
      ghost var start := pos;
      var value := "";
      while pos < |input| && IsWordChar(input[pos])
        invariant WordRead(input, start, pos, value)
        decreases |input| - pos
      {
        WordStep(input, start, pos, value);
        value := value + [input[pos]];
        pos := pos + 1;
      }
      WordDone(input, start, pos, value);
      tok := WordToken(value);
    }

    method Next() returns (tok: Token)
      requires Valid()
      modifies this
      ensures Valid() && (tok, Rest()) == NextToken(old(Rest()))
    {
      SkipWhitespace();
      if pos >= |input| {
        return EOF;
      }
      var ch := input[pos];
      if ch == '(' {
        pos := pos + 1;
        return LParen;
      }
      if ch == ')' {
        pos := pos + 1;
        return RParen;
      }
      if ch == '-' {
        pos := pos + 1;
        return Minus;
      }
      if IsWordStart(ch) {
        tok := ReadWord();
        return;
      }
      return Unknown(ch);
    }
  }

  /** ReadWord's loop has read value from start up to pos, all of it part of the word. */
  ghost predicate WordRead(input: string, start: nat, pos: nat, value: string)
  {
    && start <= pos <= |input|
    && value == input[start..pos]
    && WordLength(input[start..]) == (pos - start) + WordLength(input[pos..])
  }

  lemma WordStep(input: string, start: nat, pos: nat, value: string)
    requires WordRead(input, start, pos, value) && pos < |input| && IsWordChar(input[pos])
    ensures WordRead(input, start, pos + 1, value + [input[pos]])
  {
    var rest := input[pos..];
    assert rest[0] == input[pos] && rest[1..] == input[pos + 1..];
    assert WordLength(rest) == 1 + WordLength(rest[1..]);
  }

  lemma WordDone(input: string, start: nat, pos: nat, value: string)
    requires WordRead(input, start, pos, value) && (pos == |input| || !IsWordChar(input[pos]))
    ensures var before := input[start..];
            var n := WordLength(before);
            value == before[..n] && input[pos..] == before[n..]
  {
    var before := input[start..];
    assert WordLength(input[pos..]) == 0;
    assert before[..pos - start] == input[start..pos] && before[pos - start..] == input[pos..];
  }

  // ---------- lexing printed text ----------

  /** Where a word ends: at the end of the text or before a byte that cannot continue it. */
  predicate EndsWord(rest: string)
  {
    rest == [] || !IsWordChar(rest[0])
  }

  lemma {:induction false} WordLengthOf(word: string, rest: string)
    requires forall i :: 0 <= i < |word| ==> IsWordChar(word[i])
    requires EndsWord(rest)
    ensures WordLength(word + rest) == |word|
  {
    if word == [] {
      assert word + rest == rest;
    } else {
      assert (word + rest)[1..] == word[1..] + rest;
      WordLengthOf(word[1..], rest);
    }
  }

  lemma TokenizeNumber(word: string, rest: string)
    requires word != [] && AllDigits(word) && EndsWord(rest)
    ensures Tokenize(word + rest) == [ID(word)] + Tokenize(rest)
  {
    var s := word + rest;
    assert s[0] == word[0];
    WordLengthOf(word, rest);
    assert s[..|word|] == word && s[|word|..] == rest;
    assert ToUpper(word)[0] == word[0];
    assert ToUpper(word) != "AND" && ToUpper(word) != "OR";
    assert NextToken(s) == (ID(word), rest);
  }

  lemma TokenizeSymbol(c: char, rest: string)
    requires c == '(' || c == ')' || c == '-'
    ensures Tokenize([c] + rest)
         == [if c == '(' then LParen else if c == ')' then RParen else Minus] + Tokenize(rest)
  {
    var s := [c] + rest;
    assert SkipSpaces(s) == s && s[1..] == rest;
  }

  lemma TokenizeKeyword(word: string, rest: string)
    requires word == "AND" || word == "OR"
    ensures Tokenize(" " + (word + (" " + rest))) == [if word == "AND" then AND else OR] + Tokenize(rest)
  {
    TokenizeWord(word, " " + rest);
    TokenizeSpace(rest);
    TokenizeSpace(word + (" " + rest));
  }

  lemma TokenizeWord(word: string, rest: string)
    requires word == "AND" || word == "OR"
    requires EndsWord(rest)
    ensures Tokenize(word + rest) == [WordToken(word)] + Tokenize(rest)
    ensures WordToken(word) == if word == "AND" then AND else OR
  {
    var s := word + rest;
    WordLengthOf(word, rest);
    assert s[0] == word[0] && s[..|word|] == word && s[|word|..] == rest;
    assert ToUpper(word) == word;
    assert NextToken(s) == (WordToken(word), rest);
  }

  lemma TokenizeSpace(rest: string)
    ensures Tokenize(" " + rest) == Tokenize(rest)
  {
    assert (" " + rest)[1..] == rest;
    assert SkipSpaces(" " + rest) == SkipSpaces(rest);
    assert NextToken(" " + rest) == NextToken(rest);
  }
}
