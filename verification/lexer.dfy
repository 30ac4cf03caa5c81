/** The lexer as far as it is written: single-character punctuation is
    recognised and its token recorded, after which scanning stops unfinished;
    every other byte is an "Unrecognized char" error. The source text is its
    UTF-8 byte sequence, read one byte at a time. */
module Lexing {
  import opened Tokens

  newtype byte = x: int | 0 <= x < 256

  /** `byte as char`: the character whose code point is the byte's value. */
  function ByteChar(b: byte): char
  {
    (b as int) as char
  }

  /** The characters of a byte sequence, one per byte. */
  function Spell(bs: seq<byte>): (s: string)
    ensures |s| == |bs| && forall i :: 0 <= i < |bs| ==> s[i] == ByteChar(bs[i])
  {
    seq(|bs|, i requires 0 <= i < |bs| => ByteChar(bs[i]))
  }

  /** The lexer state. `start` and `current` index bytes of `source`. */
  datatype Lexer = Lexer(source: seq<byte>, tokens: seq<Token>, start: nat, current: nat, line: nat)

  /** A fresh lexer: nothing scanned, no tokens, on line 1. */
  function New(source: seq<byte>): (l: Lexer)
    ensures l.source == source && l.tokens == []
    ensures l.start == 0 && l.current == 0 && l.line == 1
    ensures IsAtEnd(l) <==> |source| == 0
  {
    Lexer(source, [], 0, 0, 1)
  }

  predicate IsAtEnd(l: Lexer)
  {
    l.current >= |l.source|
  }

  // ----- the punctuation table -----

  /** The characters `scan_token` turns into a token. */
  const Punctuation: string := "(){},.-+;*"

  function SingleCharKind(c: char): Option<TokenType>
  {
    match c
    case '(' => Some(LeftParen)
    case ')' => Some(RightParen)
    case '{' => Some(LeftBrace)
    case '}' => Some(RightBrace)
    case ',' => Some(Comma)
    case '.' => Some(Dot)
    case '-' => Some(Minus)
    case '+' => Some(Plus)
    case ';' => Some(SemiColon)
    case '*' => Some(Star)
    case _ => None
  }

  /** Exactly the ten punctuation characters are recognised, each as its own
      kind; in particular `/`, `!`, `=`, `<`, `>`, digits, letters, quotes and
      whitespace are not. */
  lemma SingleCharTable()
    ensures forall c: char :: SingleCharKind(c).Some? <==> c in Punctuation
    ensures forall c: char, d: char :: SingleCharKind(c).Some? && SingleCharKind(c) == SingleCharKind(d) ==> c == d
    ensures forall c: char :: SingleCharKind(c).Some? ==> SingleCharKind(c).value != Slash && SingleCharKind(c).value != Eof
    ensures SingleCharKind('/').None? && SingleCharKind(' ').None? && SingleCharKind('\n').None?
  {
  }

  predicate Recognised(b: byte)
  {
    SingleCharKind(ByteChar(b)).Some?
  }

  // ----- the error message -----

  function DigitChar(d: nat): char
    requires d < 10
  {
    ('0' as int + d) as char
  }

  /** The decimal display of an unsigned integer: no sign, no leading zero. */
  function Decimal(n: nat): (s: string)
    ensures 1 <= |s| && (forall i :: 0 <= i < |s| ==> '0' <= s[i] <= '9')
    ensures s[0] == '0' ==> n == 0
    decreases n
  {
    if n < 10 then [DigitChar(n)] else Decimal(n / 10) + [DigitChar(n % 10)]
  }

  /** The value of a string of decimal digits. */
  function DigitsValue(s: string): nat
    requires forall i :: 0 <= i < |s| ==> '0' <= s[i] <= '9'
    decreases |s|
  {
    if |s| == 0 then 0 else 10 * DigitsValue(s[..|s| - 1]) + (s[|s| - 1] as int - '0' as int)
  }

  /** Reading the display back gives the number: different lines give
      different messages. */
  lemma {:induction false} DecimalRoundTrip(n: nat)
    ensures DigitsValue(Decimal(n)) == n
    decreases n
  {
    if n >= 10 {
      DecimalRoundTrip(n / 10);
      var s := Decimal(n);
      assert s[..|s| - 1] == Decimal(n / 10);
    }
  }

  lemma DecimalInjective(m: nat, n: nat)
    ensures Decimal(m) == Decimal(n) <==> m == n
  {
    if Decimal(m) == Decimal(n) {
      DecimalRoundTrip(m);
      DecimalRoundTrip(n);
    }
  }

  /** The error `scan_token` reports for a byte it does not recognise. */
  function UnrecognizedMessage(line: nat, c: char): string
  {
    "Unrecognized char at line " + Decimal(line) + ": " + [c]
  }

  /** The message names the line and ends with the offending character, and
      the line can be read back from it. */
  lemma UnrecognizedMessageShape(line: nat, c: char)
    ensures var m := UnrecognizedMessage(line, c);
      var prefix := "Unrecognized char at line ";
      && |m| == |prefix| + |Decimal(line)| + 3
      && m[..|prefix|] == prefix
      && m[|m| - 1] == c
      && DigitsValue(m[|prefix|..|m| - 3]) == line
  {
    var m := UnrecognizedMessage(line, c);
    var prefix := "Unrecognized char at line ";
    assert m[|prefix|..|m| - 3] == Decimal(line);
    DecimalRoundTrip(line);
  }

  /** Each message followed by a line break, all concatenated. */
  function JoinLines(ms: seq<string>): (s: string)
    ensures |ms| == 0 ==> s == ""
    decreases |ms|
  {
    if |ms| == 0 then "" else JoinLines(ms[..|ms| - 1]) + ms[|ms| - 1] + "\n"
  }

  /** The joined text is non-empty exactly when there is a message, and it
      always ends in a line break. */
  lemma {:induction false} JoinLinesShape(ms: seq<string>)
    ensures |JoinLines(ms)| >= |ms|
    ensures 0 < |ms| ==> JoinLines(ms)[|JoinLines(ms)| - 1] == '\n'
    decreases |ms|
  {
    if 0 < |ms| {
      JoinLinesShape(ms[..|ms| - 1]);
    }
  }

  // ----- adding a token -----

  /** The text between `start` and `current`, as `add_token_literal` copies it;
      empty when `start` is not before `current`. */
  function Lexeme(l: Lexer): string
    requires l.current <= l.start || l.current <= |l.source|
  {
    if l.start < l.current then Spell(l.source[l.start..l.current]) else ""
  }

  /** A lexeme that starts where the current byte is and ends after it is
      that byte's character. */
  lemma SingleByteLexeme(l: Lexer)
    requires l.start == l.current < |l.source|
    ensures Lexeme(l.(current := l.current + 1)) == [ByteChar(l.source[l.current])]
  {
    var bs := l.source[l.start..l.current + 1];
    assert |bs| == 1 && bs[0] == l.source[l.current];
    assert Spell(bs)[0] == ByteChar(l.source[l.current]);
  }

  /** `add_token_literal`: copies the lexeme byte by byte and appends the
      token. The result is `None` when the copy indexes past the end of the
      source, where the source would panic. */
  method AddTokenLiteral(l: Lexer, kind: TokenType, literal: Option<TokenLiteral>) returns (r: Option<Lexer>)
    ensures r.None? <==> l.start < l.current && |l.source| < l.current
    ensures r.Some? ==> l.current <= l.start || l.current <= |l.source|
    ensures r.Some? ==> r.value == l.(tokens := l.tokens + [Token(kind, Lexeme(l), literal, l.line)])
  {
    var text := "";
    var i := l.start;
    while i < l.current
      invariant l.start <= i
      invariant l.start < l.current ==> i <= l.current
      invariant l.current <= l.start ==> i == l.start
      invariant l.start < i ==> i <= |l.source|
      invariant |text| == i - l.start
      invariant forall k :: 0 <= k < |text| ==> text[k] == ByteChar(l.source[l.start + k])
      decreases l.current - i
    {
      if i >= |l.source| {
        return None;
      }
      text := text + [ByteChar(l.source[i])];
      i := i + 1;
    }
    if l.start < l.current {
      assert i == l.current;
      assert |text| == |Lexeme(l)|;
      assert forall k :: 0 <= k < |text| ==> text[k] == Lexeme(l)[k];
    }
    assert text == Lexeme(l);
    r := Some(l.(tokens := l.tokens + [Token(kind, text, literal, l.line)]));
  }

  /** `add_token`: a token with no literal payload. */
  method AddToken(l: Lexer, kind: TokenType) returns (r: Option<Lexer>)
    ensures r.None? <==> l.start < l.current && |l.source| < l.current
    ensures r.Some? ==> l.current <= l.start || l.current <= |l.source|
    ensures r.Some? ==> r.value == l.(tokens := l.tokens + [Token(kind, Lexeme(l), None, l.line)])
  {
    r := AddTokenLiteral(l, kind, None);
  }

  // ----- scanning -----

  /** What one call of `scan_token` can lead to. It never returns `Ok`: a
      recognised character is recorded and then execution reaches `todo!()`,
      which is `Unfinished` with the state at that point. */
  datatype Step =
    | Unrecognized(next: Lexer, message: string)
    | Unfinished(at: Lexer)
    | OutOfRange

  /** `scan_token`: reads one byte (`advance`), then either adds its token
      and stops unfinished, or reports it. */
  method ScanToken(l: Lexer) returns (r: Step)
    ensures r.OutOfRange? <==> IsAtEnd(l)
    ensures !IsAtEnd(l) ==> var c := ByteChar(l.source[l.current]);
      && (r.Unrecognized? <==> SingleCharKind(c).None?)
      && (r.Unrecognized? ==> r.next == l.(current := l.current + 1) && r.message == UnrecognizedMessage(l.line, c))
    ensures r.Unfinished? && l.start == l.current ==>
      var c := ByteChar(l.source[l.current]);
      r.at == l.(current := l.current + 1, tokens := l.tokens + [Token(SingleCharKind(c).value, [c], None, l.line)])
  {
    if l.current >= |l.source| {
      return OutOfRange;
    }
    var c := ByteChar(l.source[l.current]);
    var advanced := l.(current := l.current + 1);
    var kind := SingleCharKind(c);
    if kind.None? {
      return Unrecognized(advanced, UnrecognizedMessage(l.line, c));
    }
    var added := AddToken(advanced, kind.value);
    r := if added.Some? then Unfinished(added.value) else OutOfRange;
    if l.start == l.current {
      SingleByteLexeme(l);
    }
  }

  /** The outcome of `scan_tokens`: the token list, the joined error text, or
      a stop at `todo!()` while scanning the byte at index `at`. */
  datatype LexResult = Lexed(tokens: seq<Token>) | Rejected(message: string) | Aborted(at: nat)

  /** The messages for the unrecognised bytes `bs`, all reported on line 1:
      the line counter is never advanced. */
  function Messages(bs: seq<byte>): (ms: seq<string>)
    ensures |ms| == |bs| && forall i :: 0 <= i < |bs| ==> ms[i] == UnrecognizedMessage(1, ByteChar(bs[i]))
  {
    seq(|bs|, i requires 0 <= i < |bs| => UnrecognizedMessage(1, ByteChar(bs[i])))
  }

  /** No byte in `bs` is recognised. */
  predicate NoneRecognised(bs: seq<byte>)
  {
    forall i :: 0 <= i < |bs| ==> !Recognised(bs[i])
  }

  /** `scan_tokens`. The first recognised byte stops scanning unfinished. If
      there is none, the only token is `Eof` on line 1; it is returned when
      the source is empty, and otherwise every byte was an error and the
      result is the joined messages. */
  method ScanTokens(source: seq<byte>) returns (r: LexResult)
    ensures r.Aborted? <==> !NoneRecognised(source)
    ensures r.Aborted? ==> r.at < |source| && Recognised(source[r.at]) && NoneRecognised(source[..r.at])
    ensures r.Lexed? <==> |source| == 0
    ensures r.Lexed? ==> r.tokens == [Token(Eof, "", None, 1)]
    ensures r.Rejected? ==> r.message == JoinLines(Messages(source))
  {
    var l := New(source);
    var errors: seq<string> := [];
    while !IsAtEnd(l)
      invariant l.source == source && l.tokens == [] && l.line == 1
      invariant l.current <= |source|
      invariant NoneRecognised(source[..l.current])
      invariant errors == Messages(source[..l.current])
      decreases |source| - l.current
    {
      l := l.(start := l.current);
      var step := ScanToken(l);
      if step.Unrecognized? {
        assert source[..l.current + 1] == source[..l.current] + [source[l.current]];
        errors := errors + [step.message];
        l := step.next;
      } else {
        return Aborted(l.current);
      }
    }
    assert source[..l.current] == source;
    var tokens := l.tokens + [Token(Eof, "", None, l.line)];
    if |errors| > 0 {
      return Rejected(JoinLines(errors));
    }
    return Lexed(tokens);
  }
}
