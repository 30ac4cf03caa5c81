/** Expression trees and their parenthesised prefix rendering. */
module Ast {
  import Tokens

  /** The value of a literal node. The source holds numbers as `f32`; here the
      payload is a `real`, and the text of a number comes from a caller-supplied
      `numberText`, because float formatting is not modelled. */
  datatype LiteralValue = Number(number: real) | StringValue(text: string) | True | False | Nil

  /** A closed set of node shapes; every node owns its children. */
  datatype Expression =
    | Binary(left: Expression, operator: Tokens.Token, right: Expression)
    | Grouping(expression: Expression)
    | Literal(value: LiteralValue)
    | Unary(operator: Tokens.Token, right: Expression)

  /** The text of a literal value. */
  function LiteralText(v: LiteralValue, numberText: real -> string): string
  {
    match v
    case Number(x) => numberText(x)
    case StringValue(s) => s
    case True => "True"
    case False => "False"
    case Nil => "Nil"
  }

  /** The literal keywords render as their capitalised names, which are
      pairwise different and cannot be mistaken for a composite node. */
  lemma KeywordLiteralText(numberText: real -> string)
    ensures LiteralText(True, numberText) == "True"
    ensures LiteralText(False, numberText) == "False"
    ensures LiteralText(Nil, numberText) == "Nil"
    ensures forall v: LiteralValue, w: LiteralValue ::
      (v.True? || v.False? || v.Nil?) && (w.True? || w.False? || w.Nil?) && v != w ==>
        LiteralText(v, numberText) != LiteralText(w, numberText)
    ensures forall v: LiteralValue :: v.True? || v.False? || v.Nil? ==> LiteralText(v, numberText)[0] != '('
  {
  }

  /** Parenthesised prefix notation: `(op left right)`, `(op operand)`,
      `(group inner)`, or the literal's own text. */
  function Render(e: Expression, numberText: real -> string): (s: string)
    ensures !e.Literal? ==> 2 <= |s| && s[0] == '(' && s[|s| - 1] == ')'
    ensures e.Literal? ==> s == LiteralText(e.value, numberText)
  {
    match e
    case Binary(left, op, right) =>
      "(" + op.lexeme + " " + Render(left, numberText) + " " + Render(right, numberText) + ")"
    case Grouping(inner) => "(group " + Render(inner, numberText) + ")"
    case Literal(v) => LiteralText(v, numberText)
    case Unary(op, right) => "(" + op.lexeme + " " + Render(right, numberText) + ")"
  }

  /** Number of times `c` occurs in `s`. */
  function Occurrences(c: char, s: string): nat
  {
    if |s| == 0 then 0 else (if s[0] == c then 1 else 0) + Occurrences(c, s[1..])
  }

  lemma {:induction false} OccurrencesConcat(c: char, a: string, b: string)
    ensures Occurrences(c, a + b) == Occurrences(c, a) + Occurrences(c, b)
    decreases |a|
  {
    if |a| == 0 {
      assert a + b == b;
    } else {
      assert (a + b)[0] == a[0];
      assert (a + b)[1..] == a[1..] + b;
      OccurrencesConcat(c, a[1..], b);
    }
  }

  lemma {:induction false} OccurrencesAbsent(c: char, s: string)
    requires c !in s
    ensures Occurrences(c, s) == 0
    decreases |s|
  {
    if |s| > 0 {
      OccurrencesAbsent(c, s[1..]);
    }
  }

  /** Number of composite (non-literal) nodes in a tree. */
  function Composites(e: Expression): nat
  {
    match e
    case Binary(left, _, right) => 1 + Composites(left) + Composites(right)
    case Grouping(inner) => 1 + Composites(inner)
    case Literal(_) => 0
    case Unary(_, right) => 1 + Composites(right)
  }

  predicate NoParens(s: string)
  {
    '(' !in s && ')' !in s
  }

  /** No operator lexeme and no literal text in the tree contains a parenthesis. */
  predicate ParenFree(e: Expression, numberText: real -> string)
  {
    match e
    case Binary(left, op, right) => NoParens(op.lexeme) && ParenFree(left, numberText) && ParenFree(right, numberText)
    case Grouping(inner) => ParenFree(inner, numberText)
    case Literal(v) => NoParens(LiteralText(v, numberText))
    case Unary(op, right) => NoParens(op.lexeme) && ParenFree(right, numberText)
  }

  /** Occurrences of `c` in the text of a binary node, part by part. */
  lemma OccurrencesInBinary(c: char, lexeme: string, l: string, r: string)
    ensures Occurrences(c, "(" + lexeme + " " + l + " " + r + ")")
         == Occurrences(c, "(") + Occurrences(c, lexeme) + Occurrences(c, " ") + Occurrences(c, l)
            + Occurrences(c, " ") + Occurrences(c, r) + Occurrences(c, ")")
  {
    OccurrencesConcat(c, "(", lexeme);
    OccurrencesConcat(c, "(" + lexeme, " ");
    OccurrencesConcat(c, "(" + lexeme + " ", l);
    OccurrencesConcat(c, "(" + lexeme + " " + l, " ");
    OccurrencesConcat(c, "(" + lexeme + " " + l + " ", r);
    OccurrencesConcat(c, "(" + lexeme + " " + l + " " + r, ")");
  }

  /** Occurrences of `c` in the text of a unary node, part by part. */
  lemma OccurrencesInUnary(c: char, lexeme: string, r: string)
    ensures Occurrences(c, "(" + lexeme + " " + r + ")")
         == Occurrences(c, "(") + Occurrences(c, lexeme) + Occurrences(c, " ") + Occurrences(c, r) + Occurrences(c, ")")
  {
    OccurrencesConcat(c, "(", lexeme);
    OccurrencesConcat(c, "(" + lexeme, " ");
    OccurrencesConcat(c, "(" + lexeme + " ", r);
    OccurrencesConcat(c, "(" + lexeme + " " + r, ")");
  }

  /** Occurrences of `c` in the text of a grouping node, part by part. */
  lemma OccurrencesInGrouping(c: char, inner: string)
    ensures Occurrences(c, "(group " + inner + ")") == Occurrences(c, "(group ") + Occurrences(c, inner) + Occurrences(c, ")")
  {
    OccurrencesConcat(c, "(group ", inner);
    OccurrencesConcat(c, "(group " + inner, ")");
  }

  /** Every prefix of `s` closes no more parentheses than it opens, and `s`
      as a whole closes all it opens. */
  predicate Balanced(s: string)
  {
    && Occurrences(')', s) == Occurrences('(', s)
    && forall k :: 0 <= k <= |s| ==> Occurrences(')', s[..k]) <= Occurrences('(', s[..k])
  }

  /** Balanced, and the first `(` is closed only by the last character: the
      string is one parenthesised unit. */
  predicate Enclosed(s: string)
  {
    Balanced(s) && forall k :: 0 < k < |s| ==> Occurrences(')', s[..k]) < Occurrences('(', s[..k])
  }

  lemma BalancedNoParens(s: string)
    requires NoParens(s)
    ensures Balanced(s)
  {
    OccurrencesAbsent('(', s);
    OccurrencesAbsent(')', s);
    forall k | 0 <= k <= |s|
      ensures Occurrences(')', s[..k]) <= Occurrences('(', s[..k])
    {
      assert forall i :: 0 <= i < k ==> s[..k][i] == s[i];
      OccurrencesAbsent(')', s[..k]);
    }
  }

  lemma BalancedConcat(a: string, b: string)
    requires Balanced(a) && Balanced(b)
    ensures Balanced(a + b)
  {
    OccurrencesConcat('(', a, b);
    OccurrencesConcat(')', a, b);
    forall k | 0 <= k <= |a + b|
      ensures Occurrences(')', (a + b)[..k]) <= Occurrences('(', (a + b)[..k])
    {
      if k <= |a| {
        assert (a + b)[..k] == a[..k];
      } else {
        assert (a + b)[..k] == a + b[..k - |a|];
        OccurrencesConcat('(', a, b[..k - |a|]);
        OccurrencesConcat(')', a, b[..k - |a|]);
      }
    }
  }

  lemma EnclosedWrap(s: string)
    requires Balanced(s)
    ensures Enclosed("(" + s + ")")
  {
    var w := "(" + s + ")";
    OccurrencesConcat('(', "(", s);
    OccurrencesConcat(')', "(", s);
    OccurrencesConcat('(', "(" + s, ")");
    OccurrencesConcat(')', "(" + s, ")");
    forall k | 0 < k < |w|
      ensures Occurrences(')', w[..k]) < Occurrences('(', w[..k])
    {
      assert w[..k] == "(" + s[..k - 1];
      OccurrencesConcat('(', "(", s[..k - 1]);
      OccurrencesConcat(')', "(", s[..k - 1]);
    }
    forall k | 0 <= k <= |w|
      ensures Occurrences(')', w[..k]) <= Occurrences('(', w[..k])
    {
      if k == |w| {
        assert w[..k] == w;
      }
    }
  }

  /** The text of a binary node is one unit when its parts are balanced. */
  lemma EnclosedBinary(lexeme: string, l: string, r: string)
    requires NoParens(lexeme) && Balanced(l) && Balanced(r)
    ensures Enclosed("(" + lexeme + " " + l + " " + r + ")")
  {
    BalancedNoParens(lexeme);
    BalancedNoParens(" ");
    BalancedConcat(lexeme, " ");
    BalancedConcat(lexeme + " ", l);
    BalancedConcat(lexeme + " " + l, " ");
    BalancedConcat(lexeme + " " + l + " ", r);
    EnclosedWrap(lexeme + " " + l + " " + r);
    assert "(" + lexeme + " " + l + " " + r + ")" == "(" + (lexeme + " " + l + " " + r) + ")";
  }

  /** The text of a unary node is one unit when its operand is balanced. */
  lemma EnclosedUnary(lexeme: string, r: string)
    requires NoParens(lexeme) && Balanced(r)
    ensures Enclosed("(" + lexeme + " " + r + ")")
  {
    BalancedNoParens(lexeme);
    BalancedNoParens(" ");
    BalancedConcat(lexeme, " ");
    BalancedConcat(lexeme + " ", r);
    EnclosedWrap(lexeme + " " + r);
    assert "(" + lexeme + " " + r + ")" == "(" + (lexeme + " " + r) + ")";
  }

  /** The text of a grouping node is one unit when its inner text is balanced. */
  lemma EnclosedGrouping(inner: string)
    requires Balanced(inner)
    ensures Enclosed("(group " + inner + ")")
  {
    BalancedNoParens("group ");
    BalancedConcat("group ", inner);
    EnclosedWrap("group " + inner);
    assert "(group " + inner + ")" == "(" + ("group " + inner) + ")";
  }

  /** The rendering is properly nested: every composite node prints as one
      parenthesised unit whose `(` is matched by its own last `)`, provided no
      lexeme or literal text contributes a parenthesis. */
  lemma {:induction false} RenderNested(e: Expression, numberText: real -> string)
    requires ParenFree(e, numberText)
    ensures Balanced(Render(e, numberText))
    ensures !e.Literal? ==> Enclosed(Render(e, numberText))
  {
    match e
    case Binary(left, op, right) =>
      RenderNested(left, numberText);
      RenderNested(right, numberText);
      EnclosedBinary(op.lexeme, Render(left, numberText), Render(right, numberText));
    case Grouping(inner) =>
      RenderNested(inner, numberText);
      EnclosedGrouping(Render(inner, numberText));
    case Literal(v) =>
      BalancedNoParens(LiteralText(v, numberText));
    case Unary(op, right) =>
      RenderNested(right, numberText);
      EnclosedUnary(op.lexeme, Render(right, numberText));
  }

  /** The rendering does not determine the tree: `!=` is both a prefix and an
      infix operator and strings print verbatim, so a negated string holding a
      space and an inequality of two strings print alike. */
  lemma RenderNotInjective(numberText: real -> string)
    ensures var ne := Tokens.Token(Tokens.BangEqual, "!=", Tokens.None, 1);
      var negated := Unary(ne, Literal(StringValue("a b")));
      var compared := Binary(Literal(StringValue("a")), ne, Literal(StringValue("b")));
      && negated != compared
      && ParenFree(negated, numberText) && ParenFree(compared, numberText)
      && Render(negated, numberText) == "(!= a b)"
      && Render(compared, numberText) == "(!= a b)"
  {
    assert "(" + "!=" + " " + "a b" + ")" == "(!= a b)";
    assert "(" + "!=" + " " + "a" + " " + "b" + ")" == "(!= a b)";
  }

  /** When no lexeme or literal text contributes a parenthesis, the rendering
      holds exactly one `(` and one `)` per composite node. */
  lemma {:induction false} RenderParens(e: Expression, numberText: real -> string)
    requires ParenFree(e, numberText)
    ensures Occurrences('(', Render(e, numberText)) == Composites(e)
    ensures Occurrences(')', Render(e, numberText)) == Composites(e)
  {
    match e
    case Binary(left, op, right) =>
      RenderParens(left, numberText);
      RenderParens(right, numberText);
      OccurrencesAbsent('(', op.lexeme);
      OccurrencesAbsent(')', op.lexeme);
      OccurrencesInBinary('(', op.lexeme, Render(left, numberText), Render(right, numberText));
      OccurrencesInBinary(')', op.lexeme, Render(left, numberText), Render(right, numberText));
    case Grouping(inner) =>
      RenderParens(inner, numberText);
      OccurrencesInGrouping('(', Render(inner, numberText));
      OccurrencesInGrouping(')', Render(inner, numberText));
    case Literal(v) =>
      OccurrencesAbsent('(', LiteralText(v, numberText));
      OccurrencesAbsent(')', LiteralText(v, numberText));
    case Unary(op, right) =>
      RenderParens(right, numberText);
      OccurrencesAbsent('(', op.lexeme);
      OccurrencesAbsent(')', op.lexeme);
      OccurrencesInUnary('(', op.lexeme, Render(right, numberText));
      OccurrencesInUnary(')', op.lexeme, Render(right, numberText));
  }

  /** The tree of the pretty-print test, `-123 * (45.67)`, renders as
      `(* (- 123) (group 45.67))` once numbers print as those two decimals. */
  lemma PrettyPrintExample(numberText: real -> string)
    requires numberText(123.0) == "123" && numberText(45.67) == "45.67"
    ensures Render(
      Binary(
        Unary(Tokens.Token(Tokens.Minus, "-", Tokens.None, 0), Literal(Number(123.0))),
        Tokens.Token(Tokens.Star, "*", Tokens.None, 0),
        Grouping(Literal(Number(45.67)))),
      numberText) == "(* (- 123) (group 45.67))"
  {
    RenderNegatedExample(numberText);
    RenderGroupExample(numberText);
    assert "(" + "*" + " " + "(- 123)" + " " + "(group 45.67)" + ")" == "(* (- 123) (group 45.67))";
  }

  lemma RenderNegatedExample(numberText: real -> string)
    requires numberText(123.0) == "123"
    ensures Render(Unary(Tokens.Token(Tokens.Minus, "-", Tokens.None, 0), Literal(Number(123.0))), numberText) == "(- 123)"
  {
    assert "(" + "-" + " " + "123" + ")" == "(- 123)";
  }

  lemma RenderGroupExample(numberText: real -> string)
    requires numberText(45.67) == "45.67"
    ensures Render(Grouping(Literal(Number(45.67))), numberText) == "(group 45.67)"
  {
    assert "(group " + "45.67" + ")" == "(group 45.67)";
  }
}
