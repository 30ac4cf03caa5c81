/** The parser's unit tests, replayed on hand-built token sequences, plus a
    few error paths. The tests that go through the lexer are given the tokens
    a finished lexer would produce for their source text, ending in `Eof`. */
module ParserExamples {
  import opened Tokens
  import Ast
  import opened Parsing

  function NumberToken(lexeme: string, n: int, line: nat): Token
  {
    Token(Number, lexeme, Some(IntValue(n)), line)
  }

  function Punct(kind: TokenType, lexeme: string, line: nat): Token
  {
    Token(kind, lexeme, None, line)
  }

  const EofToken: Token := Token(Eof, "", None, 1)

  /** `from_token` followed by the float display gives back the lexeme of a
      number token, as it does for small integers such as `1` or `7`. */
  predicate RendersAsLexeme(fromToken: Token -> Ast.LiteralValue, numberText: real -> string, t: Token)
  {
    Ast.LiteralText(fromToken(t), numberText) == t.lexeme
  }

  /** `a op b` renders as `(op a b)` when both literals render as their lexemes. */
  lemma RenderPair(fromToken: Token -> Ast.LiteralValue, numberText: real -> string, a: Token, op: Token, b: Token)
    requires RendersAsLexeme(fromToken, numberText, a) && RendersAsLexeme(fromToken, numberText, b)
    ensures Ast.Render(Ast.Binary(Ast.Literal(fromToken(a)), op, Ast.Literal(fromToken(b))), numberText)
         == "(" + op.lexeme + " " + a.lexeme + " " + b.lexeme + ")"
  {
  }

  // ----- test_addition: `1 + 2 ;` without an `Eof` -----

  function AdditionTokens(): seq<Token>
  {
    [NumberToken("1", 1, 0), Punct(Plus, "+", 0), NumberToken("2", 2, 0), Punct(SemiColon, ";", 0)]
  }

  /** The sum is built and the `;` is left unread. */
  lemma AdditionParse(ts: seq<Token>, fromToken: Token -> Ast.LiteralValue)
    requires |ts| == 4 && KindIn(ts, 0, LiteralKinds) && OperatorAt(ts, 1, Term) && KindIn(ts, 2, LiteralKinds)
    requires ts[3].tokenType == SemiColon
    ensures Parse(ts, fromToken) == Ok(Ast.Binary(LiteralAt(ts, fromToken, 0), ts[1], LiteralAt(ts, fromToken, 2)), 3)
  {
    assert ChainAt(ts, Term, 3, 0);
    assert ChainAt(ts, Term, 1, 1);
    LeftAssociative(ts, fromToken, Term, 0, 1);
    Lift(ts, fromToken, Term, Equality, 0);
  }

  /** The sum prints as `(+ 1 2)`. */
  lemma AdditionExample(fromToken: Token -> Ast.LiteralValue, numberText: real -> string)
    requires RendersAsLexeme(fromToken, numberText, AdditionTokens()[0])
    requires RendersAsLexeme(fromToken, numberText, AdditionTokens()[2])
    ensures var r := Parse(AdditionTokens(), fromToken);
      r.Ok? && r.cursor == 3 && Ast.Render(r.value, numberText) == "(+ 1 2)"
  {
    var ts := AdditionTokens();
    AdditionParse(ts, fromToken);
    RenderPair(fromToken, numberText, ts[0], ts[1], ts[2]);
    AdditionText();
  }

  lemma AdditionText()
    ensures "(" + "+" + " " + "1" + " " + "2" + ")" == "(+ 1 2)"
  {
  }

  // ----- test_comparison: `1 + 2 == 5 + 7` -----

  function ComparisonTokens(): seq<Token>
  {
    [NumberToken("1", 1, 1), Punct(Plus, "+", 1), NumberToken("2", 2, 1), Punct(EqualEqual, "==", 1),
     NumberToken("5", 5, 1), Punct(Plus, "+", 1), NumberToken("7", 7, 1), EofToken]
  }

  /** `+` binds tighter than `==`. */
  lemma ComparisonParse(fromToken: Token -> Ast.LiteralValue)
    ensures var ts := ComparisonTokens();
      Parse(ts, fromToken) == Ok(
        Ast.Binary(Ast.Binary(LiteralAt(ts, fromToken, 0), ts[1], LiteralAt(ts, fromToken, 2)),
                   ts[3],
                   Ast.Binary(LiteralAt(ts, fromToken, 4), ts[5], LiteralAt(ts, fromToken, 6))),
        7)
  {
    Precedence(ComparisonTokens(), fromToken, Term, Equality, 0);
  }

  /** The comparison prints as `(== (+ 1 2) (+ 5 7))`. */
  lemma ComparisonExample(fromToken: Token -> Ast.LiteralValue, numberText: real -> string)
    requires RendersAsLexeme(fromToken, numberText, ComparisonTokens()[0])
    requires RendersAsLexeme(fromToken, numberText, ComparisonTokens()[2])
    requires RendersAsLexeme(fromToken, numberText, ComparisonTokens()[4])
    requires RendersAsLexeme(fromToken, numberText, ComparisonTokens()[6])
    ensures var r := Parse(ComparisonTokens(), fromToken);
      r.Ok? && r.cursor == 7 && Ast.Render(r.value, numberText) == "(== (+ 1 2) (+ 5 7))"
  {
    var ts := ComparisonTokens();
    ComparisonParse(fromToken);
    RenderPair(fromToken, numberText, ts[0], ts[1], ts[2]);
    RenderPair(fromToken, numberText, ts[4], ts[5], ts[6]);
    ComparisonText();
  }

  lemma ComparisonText()
    ensures "(" + "+" + " " + "1" + " " + "2" + ")" == "(+ 1 2)"
    ensures "(" + "+" + " " + "5" + " " + "7" + ")" == "(+ 5 7)"
    ensures "(" + "==" + " " + "(+ 1 2)" + " " + "(+ 5 7)" + ")" == "(== (+ 1 2) (+ 5 7))"
  {
  }

  // ----- test_eq_with_paren: `1 == (2 + 2);` -----

  function GroupTokens(): seq<Token>
  {
    [NumberToken("1", 1, 1), Punct(EqualEqual, "==", 1), Punct(LeftParen, "(", 1),
     NumberToken("2", 2, 1), Punct(Plus, "+", 1), NumberToken("2", 2, 1),
     Punct(RightParen, ")", 1), Punct(SemiColon, ";", 1), EofToken]
  }

  /** The group is the right operand of `==`, and the `;` is left unread. */
  lemma GroupParse(ts: seq<Token>, fromToken: Token -> Ast.LiteralValue)
    requires |ts| == 9 && KindIn(ts, 0, LiteralKinds) && OperatorAt(ts, 1, Equality) && ts[2].tokenType == LeftParen
    requires KindIn(ts, 3, LiteralKinds) && OperatorAt(ts, 4, Term) && KindIn(ts, 5, LiteralKinds)
    requires ts[6].tokenType == RightParen && ts[7].tokenType == SemiColon
    ensures Parse(ts, fromToken) == Ok(
      Ast.Binary(LiteralAt(ts, fromToken, 0), ts[1],
                 Ast.Grouping(Ast.Binary(LiteralAt(ts, fromToken, 3), ts[4], LiteralAt(ts, fromToken, 5)))),
      7)
  {
    var sum := Ast.Binary(LiteralAt(ts, fromToken, 3), ts[4], LiteralAt(ts, fromToken, 5));
    GroupedSum(ts, fromToken);
    // `1`, then one round of the loop of `==`
    LiteralOperand(ts, fromToken, Comparison, 0);
    OperandThenLoop(ts, fromToken, Equality, 0);
    LoopWraps(ts, fromToken, Equality, LiteralAt(ts, fromToken, 0), 1);
    LoopStops(ts, fromToken, Equality, Ast.Binary(LiteralAt(ts, fromToken, 0), ts[1], Ast.Grouping(sum)), 7);
  }

  /** `(2 + 2)` followed by `;` is one operand of `==`. */
  lemma GroupedSum(ts: seq<Token>, fromToken: Token -> Ast.LiteralValue)
    requires |ts| == 9 && ts[2].tokenType == LeftParen
    requires KindIn(ts, 3, LiteralKinds) && OperatorAt(ts, 4, Term) && KindIn(ts, 5, LiteralKinds)
    requires ts[6].tokenType == RightParen && ts[7].tokenType == SemiColon
    ensures ParseAt(ts, fromToken, Comparison, 2)
         == Ok(Ast.Grouping(Ast.Binary(LiteralAt(ts, fromToken, 3), ts[4], LiteralAt(ts, fromToken, 5))), 7)
  {
    // the inner sum, closed by `)`
    assert ChainAt(ts, Term, 6, 0);
    assert ChainAt(ts, Term, 4, 1);
    LeftAssociative(ts, fromToken, Term, 3, 1);
    Lift(ts, fromToken, Term, Equality, 3);
    // the group, closed by `;`
    GroupOperand(ts, fromToken, Comparison, 2);
  }

  /** The result prints as `(== 1 (group (+ 2 2)))`. */
  lemma GroupExample(fromToken: Token -> Ast.LiteralValue, numberText: real -> string)
    requires RendersAsLexeme(fromToken, numberText, GroupTokens()[0])
    requires RendersAsLexeme(fromToken, numberText, GroupTokens()[3])
    requires RendersAsLexeme(fromToken, numberText, GroupTokens()[5])
    ensures var r := Parse(GroupTokens(), fromToken);
      r.Ok? && r.cursor == 7 && Ast.Render(r.value, numberText) == "(== 1 (group (+ 2 2)))"
  {
    var ts := GroupTokens();
    GroupParse(ts, fromToken);
    RenderGroupedSum(fromToken, numberText, ts[0], ts[1], ts[3], ts[4], ts[5]);
  }

  lemma RenderGroupedSum(fromToken: Token -> Ast.LiteralValue, numberText: real -> string,
                         a: Token, op: Token, b: Token, plus: Token, c: Token)
    requires a.lexeme == "1" && op.lexeme == "==" && b.lexeme == "2" && plus.lexeme == "+" && c.lexeme == "2"
    requires RendersAsLexeme(fromToken, numberText, a)
    requires RendersAsLexeme(fromToken, numberText, b) && RendersAsLexeme(fromToken, numberText, c)
    ensures Ast.Render(Ast.Binary(Ast.Literal(fromToken(a)), op,
                                  Ast.Grouping(Ast.Binary(Ast.Literal(fromToken(b)), plus, Ast.Literal(fromToken(c))))),
                       numberText)
         == "(== 1 (group (+ 2 2)))"
  {
    RenderPair(fromToken, numberText, b, plus, c);
    GroupText();
  }

  lemma GroupText()
    ensures "(" + "+" + " " + "2" + " " + "2" + ")" == "(+ 2 2)"
    ensures "(group " + "(+ 2 2)" + ")" == "(group (+ 2 2))"
    ensures "(" + "==" + " " + "1" + " " + "(group (+ 2 2))" + ")" == "(== 1 (group (+ 2 2)))"
  {
  }

  // ----- error paths -----

  /** A literal, `+`, then `Eof` (as in `1 +`): the missing right operand is
      "Expected expression" at the `Eof`. */
  lemma TrailingOperatorExample(ts: seq<Token>, fromToken: Token -> Ast.LiteralValue)
    requires |ts| == 3 && KindIn(ts, 0, LiteralKinds) && ts[1].tokenType == Plus && ts[2].tokenType == Eof
    ensures Parse(ts, fromToken) == Err("Expected expression", 2)
  {
    LiteralOperand(ts, fromToken, Factor, 0);
    StartRejected(ts, fromToken, Factor, 2);
    LoopWraps(ts, fromToken, Term, LiteralAt(ts, fromToken, 0), 1);
    FailurePropagates(ts, fromToken, Comparison, 0);
    FailurePropagates(ts, fromToken, Equality, 0);
  }

  /** `(`, a literal, then `Eof` (as in `(1`): the group is never closed, "Expected ')'" at the `Eof`. */
  lemma UnclosedGroupExample(ts: seq<Token>, fromToken: Token -> Ast.LiteralValue)
    requires |ts| == 3 && ts[0].tokenType == LeftParen && KindIn(ts, 1, LiteralKinds) && ts[2].tokenType == Eof
    ensures Parse(ts, fromToken) == Err("Expected ')'", 2)
  {
    LiteralOperand(ts, fromToken, Equality, 1);
    PrimaryGroup(ts, fromToken, 0);
    UnaryFallsThrough(ts, fromToken, 0);
    UnaryFailureRises(ts, fromToken, Equality, 0);
  }

  /** A literal then `+` with no `Eof` after it: looking for the right operand indexes past
      the end of the tokens. */
  lemma MissingEofExample(ts: seq<Token>, fromToken: Token -> Ast.LiteralValue)
    requires |ts| == 2 && KindIn(ts, 0, LiteralKinds) && ts[1].tokenType == Plus
    ensures Parse(ts, fromToken) == Panic
  {
    LiteralOperand(ts, fromToken, Factor, 0);
    OutOfTokens(ts, fromToken, Factor);
    LoopWraps(ts, fromToken, Term, LiteralAt(ts, fromToken, 0), 1);
    FailurePropagates(ts, fromToken, Comparison, 0);
    FailurePropagates(ts, fromToken, Equality, 0);
  }

  /** `!=` is accepted as a prefix operator, as `!` is: `! != true` is a
      double negation. */
  lemma PrefixNotEqualExample(ts: seq<Token>, fromToken: Token -> Ast.LiteralValue)
    requires |ts| == 4 && ts[0].tokenType == Bang && ts[1].tokenType == BangEqual
    requires KindIn(ts, 2, LiteralKinds) && ts[3].tokenType == Eof
    ensures Parse(ts, fromToken) == Ok(Ast.Unary(ts[0], Ast.Unary(ts[1], LiteralAt(ts, fromToken, 2))), 3)
  {
    UnaryFallsThrough(ts, fromToken, 2);
    PrimaryLiteral(ts, fromToken, 2);
    UnaryPrefix(ts, fromToken, 1);
    UnaryPrefix(ts, fromToken, 0);
    Lift(ts, fromToken, Unary, Equality, 0);
  }

  /** `-` is not a prefix operator: `-1` is "Expected expression" at its
      first token, although the tree type has a `Unary` node with a `-`
      operator, as the pretty-print test builds. */
  lemma MinusPrefixRejected(ts: seq<Token>, fromToken: Token -> Ast.LiteralValue)
    requires 0 < |ts| && ts[0].tokenType == Minus
    ensures Parse(ts, fromToken) == Err("Expected expression", 0)
  {
    StartRejected(ts, fromToken, Equality, 0);
  }
}
