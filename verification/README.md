# OLI expression front end in Dafny

This project models the expression front end of the OLI interpreter (Rust). It covers:

- `src/ast/expression.rs`: the expression tree and its parenthesised prefix rendering.
- `src/ast/parser.rs`: the recursive-descent parser, with its cursor helpers, the `synchronize` recovery routine and its tests.
- `src/lexer/lexer.rs`: the lexer as it stands.

Modules and files:

- `Tokens` (`tokens.dfy`): token kinds and the `Token` record.
- `Ast` (`ast.dfy`): `LiteralValue`, `Expression` and `Render`, which is `to_string`.
- `Parsing` (`parser.dfy`): the parser. Every method that moves `self.current` is a pure function from a token sequence and a cursor to `Res`. A `Res` is one of:
  - `Ok(value, cursor)`;
  - `Err(message, cursor)`, for a syntax error;
  - `Panic`, for an index out of range or a `current - 1` below zero.

  The six productions are one mutually recursive family, `ParseAt(level)`, over a `Level` ladder:
  - equality, comparison, term and factor are binary levels, and each is a left-folding `Loop`;
  - `unary` is right-recursive;
  - `primary` is the bottom.

  Termination is by (tokens left, level rank).
- `ParserExamples` (`parser_examples.dfy`): the parser's unit tests replayed on token sequences, plus error paths.
- `Lexing` (`lexer.dfy`): the lexer on the source's UTF-8 bytes. `scan_token` recognises only the ten characters `( ) { } , . - + ; *`. After recording such a token it reaches `todo!()`, so the model says scanning is `Unfinished`. `scan_tokens` then ends `Aborted` at that byte. Every other byte is an "Unrecognized char" error, and scanning resumes at the next byte. The line counter starts at 1 and never changes.
- `LexerExamples` (`lexer_examples.dfy`): the lexer's contract applied to the parser tests' source texts and to small inputs.

The contracts state these properties:

- The cursor discipline:
  - a successful production moves the cursor forward without passing an `Eof`;
  - nothing is read out of range while an `Eof` lies ahead.
- Tree shape:
  - every binary level is left-associative;
  - precedence holds between levels;
  - groups and prefix operators build the expected nodes.
- The error messages and where they arise.
- The rendering's nesting: when no operator lexeme or literal text contains a parenthesis, every composite node prints as one properly nested parenthesised unit. The rendering does not determine the tree, though.
- The lexer's exact outcome for every input.

The code is followed where the intended design says otherwise:

- The lexer does not skip whitespace, count lines, or read numbers, strings, identifiers or two-character operators. It also never returns tokens for punctuation; it stops at `todo!()`.
- `!=` is a prefix operator next to `!`, and `-` is not one.
- The rendering is meant to be lossless for tree shape, but it is not. `!=` prints the same whether prefix or infix, and strings print verbatim, so two different trees can print alike (`Ast.RenderNotInjective`).

## Model

| member | source | states |
|---|---|---|
| Ast.KeywordLiteralText | src/ast/expression.rs:12-20 | `True`, `False` and `Nil` render as "True", "False" and "Nil". These texts are pairwise different, and none starts with `(`, so none can be mistaken for a composite node |
| Ast.Render | src/ast/expression.rs:42-64 | Every binary, unary or grouping node renders as one parenthesised unit: at least two characters, first `(`, last `)`. A literal renders as its value's text |
| Ast.RenderParens | src/ast/expression.rs:42-64 | If no operator lexeme or literal text contains a parenthesis, the rendering has as many `(` and as many `)` as the tree has composite nodes |
| Ast.RenderNested | src/ast/expression.rs:42-64 | Under the same condition the rendering is properly nested: no prefix closes more parentheses than it opens, and the whole closes all it opens. Every composite node prints as one unit whose first `(` is closed only by its last `)` |
| Ast.RenderNotInjective | src/ast/expression.rs:44-61 | The rendering does not determine the tree. `!=` applied to the string `a b` and `a != b` on two strings are different trees, both free of parentheses, and both print as `(!= a b)` |
| Ast.PrettyPrintExample | src/ast/expression.rs:79-110 | The pretty-print test tree, `-123 * (45.67)`, renders as `(* (- 123) (group 45.67))` when numbers display as "123" and "45.67" |
| Parsing.Advance | src/ast/parser.rs:147-165 | Together with `peek`, `previous` and `is_at_end`: on a token other than `Eof`, returns it and steps past it. On `Eof`, stays and returns the token before it; at position 0 the `current - 1` underflows and it panics. Past the end, it panics because `peek` indexes out of range |
| Parsing.MatchedOperator | src/ast/parser.rs:124-161 | After a successful `match_tokens` the cursor has moved by one, the token peeked before the step had one of the kinds and was not `Eof`, and `previous` returns that same token. This is the operator every binary loop and `unary` read back |
| Parsing.MatchToken | src/ast/parser.rs:124-135 | Matches, and steps once, exactly when the current token has the given kind and is not `Eof`. Otherwise the cursor stays put |
| Parsing.MatchTokens | src/ast/parser.rs:137-145 | The loop over the kinds matches exactly when the current token is a non-`Eof` member of the list, whatever the list's order. It then advances exactly one token. Past the end, any non-empty list panics |
| Parsing.Consume | src/ast/parser.rs:114-122 | The expected kind is consumed with one step. Any other token gives the supplied message, at the unmoved cursor |
| Parsing.Tighter | src/ast/parser.rs:25-86 | Each binary level takes its operands from the level exactly one step tighter on the precedence ladder |
| Parsing.ParseAt | src/ast/parser.rs:25-27 | At every level, success moves the cursor forward by at least one token without passing an `Eof`. While an `Eof` lies ahead, nothing is read out of range |
| Parsing.BinaryAt | src/ast/parser.rs:29-73 | Comparison, term and factor (and equality): the cursor property of a production, for an operand followed by the level's loop |
| Parsing.Loop | src/ast/parser.rs:32-40 | The `while` loop of a binary level never moves backward and never passes an `Eof`. It cannot panic while an `Eof` lies ahead |
| Parsing.UnaryAt | src/ast/parser.rs:75-86 | The cursor property of `unary` |
| Parsing.PrimaryAt | src/ast/parser.rs:88-112 | The cursor property of `primary` |
| Parsing.Parse | src/ast/parser.rs:21-23 | `parse` starts at position 0. It never panics when the tokens hold an `Eof`. A success consumes at least one token, ends within the sequence and has passed no `Eof`. Trailing tokens are allowed |
| Parsing.Synchronize | src/ast/parser.rs:183-198 | Recovery stops on a boundary: `Eof`, just after `;`, or just before a statement keyword. It stops on the first boundary after its starting token and moves at least one token unless it started on `Eof`. It succeeds whenever an `Eof` lies ahead, except when it starts at position 0 on `Eof`, where it panics |
| Parsing.SyncLoop | src/ast/parser.rs:186-197 | The skipping loop stops at the first boundary at or after its cursor. From cursor 1 on, which is where `synchronize` enters it, it always stops when an `Eof` lies ahead |
| Parsing.SynchronizeUnderflow | src/ast/parser.rs:183-184 | On the sequence holding only `Eof`, recovery from position 0 panics |
| Parsing.SynchronizeChecked | src/ast/parser.rs:183-198 | Corrected recovery: with an `Eof` ahead it always succeeds, at the first boundary, and it moves unless it started on `Eof` |
| Parsing.PrimaryLiteral | src/ast/parser.rs:101-107 | A `False`, `True`, `Nil`, `Number` or `StringLiteral` token becomes a literal node built from that token, and is consumed |
| Parsing.PrimaryRejects | src/ast/parser.rs:88-108 | Any token that is neither `(` nor a literal gives "Expected expression", and the cursor stays where it was |
| Parsing.PrimaryGroup | src/ast/parser.rs:93-100 | After `(`, a full expression is parsed. If `)` follows, the result is a grouping of it. Another token gives "Expected ')'" at that token, and running out of tokens panics. An inner error is passed on unchanged |
| Parsing.StartRejected | src/ast/parser.rs:88-108 | A token that cannot start an expression is rejected with "Expected expression" at every level, with nothing consumed |
| Parsing.UnaryPrefix | src/ast/parser.rs:75-82 | Both `!` and `!=` are prefix operators. The node wraps the operator token around another `unary` |
| Parsing.UnaryFallsThrough | src/ast/parser.rs:83-85 | Without a prefix operator, `unary` is exactly `primary` at the same cursor |
| Parsing.OperandThenLoop | src/ast/parser.rs:29-42 | A binary level parses one operand of the tighter level and hands that tree and cursor to its loop |
| Parsing.FailurePropagates | src/ast/parser.rs:29-31 | An error or panic from a binary level's first operand is the level's result, unchanged |
| Parsing.UnaryFailureRises | src/ast/parser.rs:25-86 | An error or panic from `unary` is the result of every level above it, unchanged |
| Parsing.OutOfTokens | src/ast/parser.rs:155-165 | Parsing at the end of a sequence without `Eof` indexes out of range at every level |
| Parsing.ClosedGroup | src/ast/parser.rs:93-100 | A `(` whose inner expression is followed by `)` is a grouping at the `unary` level, ending after the `)` |
| Parsing.GroupOperand | src/ast/parser.rs:93-100 | Such a group is a complete operand at any level when the token after it is no operator of that level or any tighter one |
| Parsing.LoopStops | src/ast/parser.rs:29-42 | A token that is not one of the level's operators ends the loop with the tree built so far |
| Parsing.LoopWraps | src/ast/parser.rs:32-40 | One iteration makes the tree so far the left operand of a new binary node with the matched operator and the next operand |
| Parsing.OperatorClosesTighter | src/ast/parser.rs:29-73 | The operator sets of equality, comparison, term and factor are pairwise disjoint: an operator of one level ends every tighter level's loop |
| Parsing.Lift | src/ast/parser.rs:29-73 | A result parsed at a tighter level is also the result of a looser level when the next token is no operator of the levels in between |
| Parsing.LiteralOperand | src/ast/parser.rs:101-107 | A literal followed by a token that closes the levels up to a given level is parsed there as just that literal |
| Parsing.LoopChain | src/ast/parser.rs:29-42 | A loop over `n` (operator, literal) pairs folds them onto the tree so far, left to right, and ends after `2n` tokens |
| Parsing.LeftAssociative | src/ast/parser.rs:44-58 | At any binary level, `a0 op1 a1 ... opn an` parses as `(...((a0 op1 a1) op2 a2) ... opn an)` |
| Parsing.ThreeOperands | src/ast/parser.rs:60-73 | `a op b op' c` at one level is `(a op b) op' c` |
| Parsing.Precedence | src/ast/parser.rs:167-181 | With `p`, `p'` of a tighter level than `q`, `a p b q c p' d` parses as `(a p b) q (c p' d)` |
| ParserExamples.AdditionParse | src/ast/parser.rs:208-236 | `1 + 2 ;` without `Eof` parses to the sum, with the `;` left unread |
| ParserExamples.AdditionExample | src/ast/parser.rs:208-239 | The test's result renders as `(+ 1 2)` |
| ParserExamples.ComparisonParse | src/ast/parser.rs:242-247 | `1 + 2 == 5 + 7` then `Eof` parses as an equality of two sums |
| ParserExamples.ComparisonExample | src/ast/parser.rs:242-250 | The test's result renders as `(== (+ 1 2) (+ 5 7))` |
| ParserExamples.GroupParse | src/ast/parser.rs:253-258 | `1 == (2 + 2);` then `Eof` parses as `1` compared with a grouped sum, with the `;` left unread |
| ParserExamples.GroupedSum | src/ast/parser.rs:93-100 | `(2 + 2)` followed by `;` is one operand of `==` |
| ParserExamples.GroupExample | src/ast/parser.rs:253-261 | The test's result renders as `(== 1 (group (+ 2 2)))` |
| ParserExamples.TrailingOperatorExample | src/ast/parser.rs:88-108 | A literal, `+`, `Eof` gives "Expected expression" at the `Eof` |
| ParserExamples.UnclosedGroupExample | src/ast/parser.rs:93-96 | `(`, a literal, `Eof` gives "Expected ')'" at the `Eof` |
| ParserExamples.MissingEofExample | src/ast/parser.rs:155-157 | A literal then `+` with no `Eof` panics while looking for the right operand |
| ParserExamples.PrefixNotEqualExample | src/ast/parser.rs:75-86 | `! != true` is a double negation |
| ParserExamples.MinusPrefixRejected | src/ast/parser.rs:75-86 | `-` is not a prefix operator: input starting with `-` gives "Expected expression" at position 0 |
| Lexing.SingleCharTable | src/lexer/lexer.rs:60-71 | Exactly the ten characters `( ) { } , . - + ; *` are recognised, each as a different kind. `/`, space and newline are not |
| Lexing.Decimal | src/lexer/lexer.rs:71 | The line number's display is a non-empty string of decimal digits, with a leading `0` only for zero itself |
| Lexing.DecimalRoundTrip | src/lexer/lexer.rs:71 | Reading the displayed digits back gives the line number |
| Lexing.DecimalInjective | src/lexer/lexer.rs:71 | Two line numbers display the same exactly when they are equal |
| Lexing.UnrecognizedMessageShape | src/lexer/lexer.rs:71 | The message is "Unrecognized char at line ", then the line, then ": " and the offending character. The line can be read back from it |
| Lexing.JoinLinesShape | src/lexer/lexer.rs:41-47 | The joined error text has at least one character per message and ends in a line break whenever there is a message |
| Lexing.AddTokenLiteral | src/lexer/lexer.rs:87-101 | Appends exactly one token, with the given kind, literal and current line. Its lexeme has one character per byte from `start` to `current`, each the character with that byte's code point. Nothing else changes. It panics exactly when that range reaches past the source |
| Lexing.AddToken | src/lexer/lexer.rs:83-85 | `add_token_literal` with no literal payload |
| Lexing.ScanToken | src/lexer/lexer.rs:57-81 | Panics exactly at the end of the source, and never returns `Ok`. An unrecognised byte gives its message and consumes exactly that byte. A recognised byte appends its one-character token and stops at `todo!()` |
| Lexing.ScanTokens | src/lexer/lexer.rs:22-51 | Starting from a fresh lexer (no tokens, line 1), it aborts exactly when some byte is recognised, at the first such byte. It lexes exactly the empty source, to a single `Eof` on line 1. Otherwise the result is every byte's message, on line 1 and in order, each followed by a line break |
| LexerExamples.ScanComparisonSource | src/ast/parser.rs:243-245 | The lexer stops at the `+` at index 2 of `1 + 2 == 5 + 7`, so the test cannot reach the parser |
| LexerExamples.ScanGroupSource | src/ast/parser.rs:254-256 | The lexer stops at the `(` at index 5 of `1 == (2 + 2);` |
| LexerExamples.ScanDigit | src/lexer/lexer.rs:41-48 | The source `1` is rejected with "Unrecognized char at line 1: 1" and a line break |
| LexerExamples.ScanEmpty | src/lexer/lexer.rs:32-50 | The empty source lexes to a lone `Eof` on line 1 |

## Left out

- `src/main.rs`: argument handling, file reading, the prompt loop, printing and exit codes are I/O.
- `Expression::print` (src/ast/expression.rs:66-68) only writes to standard output.
- `f32` numbers: a number literal holds a `real`, and its display is the parameter `numberText`, because float formatting is not modelled.
- `LiteralValue::from_token`: its definition is not part of this model, so it is the parameter `fromToken`.
- The token module is not part of this model:
  - `TokenType` holds the kinds the parser and lexer name, plus `Eof`;
  - the token literal payload is reduced to the integer variant the tests build.
- The UTF-8 encoding of the source string is not modelled. The lexer takes the byte sequence.
- Panics are outcomes (`Panic`, `OutOfRange`, `Unfinished`, `Aborted`). Nothing after a panic is modelled.
- The two parser tests that lex their input cannot pass with this lexer (`LexerExamples.ScanComparisonSource`, `LexerExamples.ScanGroupSource`). They are replayed on the tokens a finished lexer would produce.
- Parsing.LeftAssociative: stated for chains whose operands are single literal tokens, not arbitrary sub-expressions.
- Parsing.Precedence: stated for single-literal operands and one operator of the looser level.
- Parsing.ParseAt: panics are excluded only when an `Eof` lies ahead; without one, only successful results are constrained.
- Lexing.ScanToken: the state at `todo!()` is stated only when `start == current`, which is how `scan_tokens` calls it.

## Findings

| source | as written | input that shows it | evidently intended | confidence | as-written member | corrected member |
|---|---|---|---|---|---|---|
| src/ast/parser.rs:183-184 | `synchronize` starts with `advance`. On `Eof` that returns `previous()`, which computes `current - 1` | tokens `[Eof]`, recovery from position 0: `0 - 1` underflows, so the recovery routine itself panics | recovery on `Eof` stops where it is | low, not executed | Parsing.SynchronizeUnderflow | Parsing.SynchronizeChecked |
