/** The lexer's contract applied to concrete sources. The parser tests that
    lex their input first stop at the first punctuation character, because
    the lexer reaches `todo!()` right after recording it. */
module LexerExamples {
  import opened Tokens
  import opened Lexing

  /** `1 + 2 == 5 + 7`, byte by byte. */
  const ComparisonSource: seq<byte> := [49, 32, 43, 32, 50, 32, 61, 61, 32, 53, 32, 43, 32, 55]

  /** `1 == (2 + 2);`, byte by byte. */
  const GroupSource: seq<byte> := [49, 32, 61, 61, 32, 40, 50, 32, 43, 32, 50, 41, 59]

  /** The source of `test_comparison` stops at its first `+`, index 2. */
  method ScanComparisonSource() returns (r: LexResult)
    ensures r == Aborted(2)
  {
    assert !Recognised(ComparisonSource[0]) && !Recognised(ComparisonSource[1]) && Recognised(ComparisonSource[2]);
    r := ScanTokens(ComparisonSource);
    FirstRecognisedIs(ComparisonSource, 2, r.at);
  }

  /** The source of `test_eq_with_paren` stops at its `(`, index 5: the `=`
      bytes before it are errors, but scanning never gets to report them. */
  method ScanGroupSource() returns (r: LexResult)
    ensures r == Aborted(5)
  {
    assert forall i :: 0 <= i < 5 ==> !Recognised(GroupSource[i]);
    assert Recognised(GroupSource[5]);
    r := ScanTokens(GroupSource);
    FirstRecognisedIs(GroupSource, 5, r.at);
  }

  /** A source of unrecognised bytes only is rejected with one line per byte. */
  method ScanDigit() returns (r: LexResult)
    ensures r == Rejected("Unrecognized char at line 1: 1\n")
  {
    assert !Recognised(49);
    r := ScanTokens([49]);
    assert Messages([49]) == [UnrecognizedMessage(1, '1')];
    assert JoinLines([UnrecognizedMessage(1, '1')]) == JoinLines([]) + UnrecognizedMessage(1, '1') + "\n";
  }

  /** The empty source is the only one that lexes: to a lone `Eof` on line 1. */
  method ScanEmpty() returns (r: LexResult)
    ensures r == Lexed([Token(Eof, "", None, 1)])
  {
    r := ScanTokens([]);
  }

  /** Two positions that are both the first recognised byte are the same. */
  lemma FirstRecognisedIs(bs: seq<byte>, i: nat, j: nat)
    requires i < |bs| && Recognised(bs[i]) && NoneRecognised(bs[..i])
    requires j < |bs| && Recognised(bs[j]) && NoneRecognised(bs[..j])
    ensures i == j
  {
  }
}
