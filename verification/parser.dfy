/** Recursive-descent expression parser over a token sequence and a cursor.
    Each Rust method that mutates `self.current` becomes a function from a
    cursor to a result that carries the cursor after the step. */
module Parsing {
  import opened Tokens
  import Ast

  /** The outcome of a parser step: a value with the cursor after it, a syntax
      error with the cursor where it was raised, or a panic (an index out of
      range, or `current - 1` below zero). */
  datatype Res<+T> = Ok(value: T, cursor: nat) | Err(message: string, cursor: nat) | Panic

  /** Some `Eof` token lies at or after `cur`. */
  predicate EofAhead(ts: seq<Token>, cur: nat)
  {
    exists k :: cur <= k < |ts| && ts[k].tokenType == Eof
  }

  /** No token in `[from, to)` is `Eof`: a cursor that moved from `from` to
      `to` did not pass an end-of-input marker. */
  predicate NoEofIn(ts: seq<Token>, from: nat, to: nat)
  {
    forall k :: from <= k < to && k < |ts| ==> ts[k].tokenType != Eof
  }

  // ----- cursor helpers -----

  function Peek(ts: seq<Token>, cur: nat): (r: Res<Token>)
    ensures r.Ok? <==> cur < |ts|
    ensures r.Ok? ==> r.value == ts[cur] && r.cursor == cur
  {
    if cur < |ts| then Ok(ts[cur], cur) else Panic
  }

  function IsAtEnd(ts: seq<Token>, cur: nat): (r: Res<bool>)
    ensures r.Ok? <==> cur < |ts|
    ensures r.Ok? ==> r.cursor == cur && (r.value <==> ts[cur].tokenType == Eof)
  {
    match Peek(ts, cur)
    case Ok(t, _) => Ok(t.tokenType == Eof, cur)
    case _ => Panic
  }

  function Previous(ts: seq<Token>, cur: nat): (r: Res<Token>)
    ensures r.Ok? <==> 1 <= cur <= |ts|
    ensures r.Ok? ==> r.value == ts[cur - 1] && r.cursor == cur
  {
    if 1 <= cur <= |ts| then Ok(ts[cur - 1], cur) else Panic
  }

  /** Steps over the current token unless it is `Eof`, then returns the token
      before the cursor. */
  function Advance(ts: seq<Token>, cur: nat): (r: Res<Token>)
    ensures cur < |ts| && ts[cur].tokenType != Eof ==> r == Ok(ts[cur], cur + 1)
    ensures cur < |ts| && ts[cur].tokenType == Eof ==> r == (if cur == 0 then Panic else Ok(ts[cur - 1], cur))
    ensures cur >= |ts| ==> r.Panic?
  {
    match IsAtEnd(ts, cur)
    case Ok(atEnd, _) => Previous(ts, if atEnd then cur else cur + 1)
    case _ => Panic
  }

  function MatchToken(ts: seq<Token>, cur: nat, kind: TokenType): (r: Res<bool>)
    ensures cur < |ts| ==>
      r == (if ts[cur].tokenType != Eof && ts[cur].tokenType == kind then Ok(true, cur + 1) else Ok(false, cur))
    ensures cur >= |ts| ==> r.Panic?
  {
    match IsAtEnd(ts, cur)
    case Ok(true, _) => Ok(false, cur)
    case Ok(false, _) =>
      (match Peek(ts, cur)
       case Ok(t, _) =>
         if t.tokenType == kind then
           (match Advance(ts, cur)
            case Ok(_, c) => Ok(true, c)
            case _ => Panic)
         else Ok(false, cur)
       case _ => Panic)
    case _ => Panic
  }

  /** Tries each kind in order; the first match advances. */
  function MatchTokens(ts: seq<Token>, cur: nat, kinds: seq<TokenType>): (r: Res<bool>)
    ensures cur < |ts| ==>
      r == (if ts[cur].tokenType != Eof && ts[cur].tokenType in kinds then Ok(true, cur + 1) else Ok(false, cur))
    ensures cur >= |ts| ==> r == (if |kinds| == 0 then Ok(false, cur) else Panic)
    decreases |kinds|
  {
    if |kinds| == 0 then Ok(false, cur)
    else
      match MatchToken(ts, cur, kinds[0])
      case Ok(true, c) => Ok(true, c)
      case Ok(false, c) => MatchTokens(ts, c, kinds[1..])
      case _ => Panic
  }

  function Consume(ts: seq<Token>, cur: nat, kind: TokenType, message: string): (r: Res<()>)
    requires kind != Eof
    ensures cur < |ts| && ts[cur].tokenType == kind ==> r == Ok((), cur + 1)
    ensures cur < |ts| && ts[cur].tokenType != kind ==> r == Err(message, cur)
    ensures cur >= |ts| ==> r.Panic?
  {
    match Peek(ts, cur)
    case Ok(t, _) =>
      if t.tokenType == kind then
        (match Advance(ts, cur)
         case Ok(_, c) => Ok((), c)
         case _ => Panic)
      else Err(message, cur)
    case _ => Panic
  }

  /** Reading back what was matched: once `match_tokens` succeeds, the cursor
      has moved by one, the token peeked before the step was not at the end
      and had one of the kinds, and `previous` returns that same token. This
      is how every binary loop and `unary` obtain their operator. */
  lemma MatchedOperator(ts: seq<Token>, cur: nat, kinds: seq<TokenType>)
    requires MatchTokens(ts, cur, kinds).Ok? && MatchTokens(ts, cur, kinds).value
    ensures var c := MatchTokens(ts, cur, kinds).cursor;
      && c == cur + 1
      && IsAtEnd(ts, cur) == Ok(false, cur)
      && Peek(ts, cur).Ok? && Peek(ts, cur).value.tokenType in kinds
      && Advance(ts, cur) == Ok(Peek(ts, cur).value, c)
      && Previous(ts, c) == Ok(Peek(ts, cur).value, c)
  {
  }

  // ----- the precedence ladder -----

  /** The productions, loosest first. */
  datatype Level = Equality | Comparison | Term | Factor | Unary | Primary

  function Rank(level: Level): nat
  {
    match level
    case Equality => 5
    case Comparison => 4
    case Term => 3
    case Factor => 2
    case Unary => 1
    case Primary => 0
  }

  predicate IsBinary(level: Level)
  {
    level.Equality? || level.Comparison? || level.Term? || level.Factor?
  }

  /** The production that parses the operands of a binary level. */
  function Tighter(level: Level): (t: Level)
    requires IsBinary(level)
    ensures Rank(t) + 1 == Rank(level)
  {
    match level
    case Equality => Comparison
    case Comparison => Term
    case Term => Factor
    case Factor => Unary
  }

  /** The operator kinds a level matches: infix for the binary levels,
      prefix for `Unary`. */
  function Operators(level: Level): seq<TokenType>
  {
    match level
    case Equality => [BangEqual, EqualEqual]
    case Comparison => [Greater, GreaterEqual, Less, LessEqual]
    case Term => [Minus, Plus]
    case Factor => [Slash, Star]
    case Unary => [Bang, BangEqual]
    case Primary => []
  }

  /** The token kinds `primary` turns into a literal node. */
  const LiteralKinds: set<TokenType> := {False, True, Nil, Number, StringLiteral}

  /** What every production promises about the cursor: a success moves it
      forward (by at least one token when `strict`) without passing an `Eof`,
      and as long as an `Eof` lies ahead nothing is read out of range. */
  predicate Consumed<T>(ts: seq<Token>, cur: nat, r: Res<T>, strict: bool)
  {
    && (r.Ok? ==> cur <= r.cursor <= |ts| && (strict ==> cur < r.cursor) && NoEofIn(ts, cur, r.cursor))
    && (EofAhead(ts, cur) ==> !r.Panic?)
  }

  /** An `Eof` ahead of a cursor is still ahead after the cursor moves over
      tokens that are not `Eof`. */
  lemma EofStillAhead(ts: seq<Token>, from: nat, to: nat)
    requires EofAhead(ts, from) && from <= to && NoEofIn(ts, from, to)
    ensures EofAhead(ts, to) && to < |ts|
  {
    var k :| from <= k < |ts| && ts[k].tokenType == Eof;
    assert to <= k;
  }

  /** Stepping over a token that is not `Eof` passes no `Eof`, and keeps
      an `Eof` that lay ahead still ahead. */
  lemma StepOver(ts: seq<Token>, cur: nat)
    requires cur < |ts| && ts[cur].tokenType != Eof
    ensures NoEofIn(ts, cur, cur + 1)
    ensures EofAhead(ts, cur) ==> EofAhead(ts, cur + 1)
  {
    if EofAhead(ts, cur) {
      EofStillAhead(ts, cur, cur + 1);
    }
  }

  /** Parses one `level` production at `cur`. `fromToken` stands for
      `LiteralValue::from_token`, whose definition is not part of this model. */
  function ParseAt(ts: seq<Token>, fromToken: Token -> Ast.LiteralValue, level: Level, cur: nat): (r: Res<Ast.Expression>)
    requires cur <= |ts|
    ensures Consumed(ts, cur, r, true)
    decreases |ts| - cur, Rank(level), 2
  {
    match level
    case Unary => UnaryAt(ts, fromToken, cur)
    case Primary => PrimaryAt(ts, fromToken, cur)
    case _ => BinaryAt(ts, fromToken, level, cur)
  }

  /** `unary`: `!` and `!=` are both accepted as prefix operators, and the
      operand is again a `unary`. */
  function UnaryAt(ts: seq<Token>, fromToken: Token -> Ast.LiteralValue, cur: nat): (r: Res<Ast.Expression>)
    requires cur <= |ts|
    ensures Consumed(ts, cur, r, true)
    decreases |ts| - cur, Rank(Unary), 1
  {
    match MatchTokens(ts, cur, Operators(Unary))
    case Ok(true, c) =>
      StepOver(ts, cur);
      (match Previous(ts, c)
       case Ok(op, _) =>
         (match ParseAt(ts, fromToken, Unary, c)
          case Ok(right, c') => Ok(Ast.Unary(op, right), c')
          case other => other)
       case _ => Panic)
    case Ok(false, c) => ParseAt(ts, fromToken, Primary, c)
    case _ => Panic
  }

  /** `primary`: a literal token, a parenthesised group, or an error that
      leaves the cursor where it was. */
  function PrimaryAt(ts: seq<Token>, fromToken: Token -> Ast.LiteralValue, cur: nat): (r: Res<Ast.Expression>)
    requires cur <= |ts|
    ensures Consumed(ts, cur, r, true)
    decreases |ts| - cur, Rank(Primary), 1
  {
    match Peek(ts, cur)
    case Ok(token, _) =>
      if token.tokenType == LeftParen then
        (match Advance(ts, cur)
         case Ok(_, c) =>
           (match ParseAt(ts, fromToken, Equality, c)
            case Ok(inner, c') =>
              (match Consume(ts, c', RightParen, "Expected ')'")
               case Ok(_, c'') => Ok(Ast.Grouping(inner), c'')
               case Err(m, c'') => Err(m, c'')
               case Panic => Panic)
            case other => other)
         case _ => Panic)
      else if token.tokenType in LiteralKinds then
        (match Advance(ts, cur)
         case Ok(_, c) => Ok(Ast.Literal(fromToken(token)), c)
         case _ => Panic)
      else Err("Expected expression", cur)
    case _ => Panic
  }

  /** A binary level: one operand of the tighter level, then the loop. */
  function BinaryAt(ts: seq<Token>, fromToken: Token -> Ast.LiteralValue, level: Level, cur: nat): (r: Res<Ast.Expression>)
    requires IsBinary(level) && cur <= |ts|
    ensures Consumed(ts, cur, r, true)
    decreases |ts| - cur, Rank(level), 1
  {
    match ParseAt(ts, fromToken, Tighter(level), cur)
    case Ok(left, c) => Loop(ts, fromToken, level, left, c)
    case other => other
  }

  /** The `while` loop of a binary level: each matched operator wraps the tree
      built so far as the left operand of a new node. */
  function Loop(ts: seq<Token>, fromToken: Token -> Ast.LiteralValue, level: Level, left: Ast.Expression, cur: nat)
    : (r: Res<Ast.Expression>)
    requires IsBinary(level) && cur <= |ts|
    ensures Consumed(ts, cur, r, false)
    decreases |ts| - cur, Rank(level), 0
  {
    match MatchTokens(ts, cur, Operators(level))
    case Ok(true, c) =>
      (match Previous(ts, c)
       case Ok(op, _) =>
         (match ParseAt(ts, fromToken, Tighter(level), c)
          case Ok(right, c') => Loop(ts, fromToken, level, Ast.Binary(left, op, right), c')
          case other => other)
       case _ => Panic)
    case Ok(false, c) => Ok(left, c)
    case _ => Panic
  }

  /** `parse`: one expression from the start of the sequence. Trailing tokens
      are left unread. */
  function Parse(ts: seq<Token>, fromToken: Token -> Ast.LiteralValue): (r: Res<Ast.Expression>)
    ensures EofAhead(ts, 0) ==> !r.Panic?
    ensures r.Ok? ==> 0 < r.cursor <= |ts| && NoEofIn(ts, 0, r.cursor)
  {
    ParseAt(ts, fromToken, Equality, 0)
  }

  // ----- error recovery -----

  /** The statement keywords recovery stops in front of. */
  const StatementStarts: set<TokenType> := {Class, Function, Variable, For, If, While, Say, Return}

  /** Where recovery may stop: on `Eof`, just after a `;`, or just before a
      statement keyword. */
  predicate AtBoundary(ts: seq<Token>, c: nat)
  {
    c < |ts| && (ts[c].tokenType == Eof || (1 <= c && ts[c - 1].tokenType == SemiColon) || ts[c].tokenType in StatementStarts)
  }

  /** `synchronize`: skips one token, then skips on to the first boundary. On
      a cursor at position 0 that is already on `Eof`, the initial `advance`
      asks for the token before position 0 and panics. */
  function Synchronize(ts: seq<Token>, cur: nat): (r: Res<()>)
    requires cur <= |ts|
    ensures r.Ok? ==> cur <= r.cursor && AtBoundary(ts, r.cursor) && NoEofIn(ts, cur, r.cursor)
    ensures r.Ok? ==> forall j :: cur < j < r.cursor ==> !AtBoundary(ts, j)
    ensures r.Ok? && ts[cur].tokenType != Eof ==> cur < r.cursor
    ensures cur < |ts| && EofAhead(ts, cur) && (cur > 0 || ts[cur].tokenType != Eof) ==> r.Ok?
    ensures cur == 0 && 0 < |ts| && ts[0].tokenType == Eof ==> r.Panic?
  {
    match Advance(ts, cur)
    case Ok(_, c) => SyncLoop(ts, c)
    case _ => Panic
  }

  /** The `while` loop of `synchronize`. */
  function SyncLoop(ts: seq<Token>, cur: nat): (r: Res<()>)
    requires cur <= |ts|
    ensures r.Ok? ==> cur <= r.cursor && AtBoundary(ts, r.cursor) && NoEofIn(ts, cur, r.cursor)
    ensures r.Ok? ==> forall j :: cur <= j < r.cursor ==> !AtBoundary(ts, j)
    ensures 1 <= cur && EofAhead(ts, cur) ==> r.Ok?
    decreases |ts| - cur
  {
    match IsAtEnd(ts, cur)
    case Ok(true, _) => Ok((), cur)
    case Ok(false, _) =>
      (match Previous(ts, cur)
       case Ok(prev, _) =>
         if prev.tokenType == SemiColon then Ok((), cur)
         else
           (match Peek(ts, cur)
            case Ok(t, _) =>
              if t.tokenType in StatementStarts then Ok((), cur)
              else
                (match Advance(ts, cur)
                 case Ok(_, c) => SyncLoop(ts, c)
                 case _ => Panic)
            case _ => Panic)
       case _ => Panic)
    case _ => Panic
  }

  /** The smallest input that shows the underflow: recovery on a sequence that
      holds only `Eof`, from the start. */
  lemma SynchronizeUnderflow()
    ensures Synchronize([Token(Eof, "", None, 1)], 0) == Panic
  {
  }

  /** Recovery as evidently intended: a cursor already on `Eof` is a boundary
      and stays put. Otherwise it is `synchronize` as written. */
  function SynchronizeChecked(ts: seq<Token>, cur: nat): (r: Res<()>)
    requires cur <= |ts|
    ensures EofAhead(ts, cur) ==> r.Ok?
    ensures r.Ok? ==> cur <= r.cursor && AtBoundary(ts, r.cursor) && NoEofIn(ts, cur, r.cursor)
    ensures r.Ok? ==> forall j :: cur < j < r.cursor ==> !AtBoundary(ts, j)
    ensures r.Ok? && ts[cur].tokenType != Eof ==> cur < r.cursor
  {
    match IsAtEnd(ts, cur)
    case Ok(true, _) => Ok((), cur)
    case Ok(false, _) => Synchronize(ts, cur)
    case _ => Panic
  }

  // ----- tree shape: one production at a time -----

  lemma RankInjective(a: Level, b: Level)
    requires Rank(a) == Rank(b)
    ensures a == b
  {
  }

  /** A literal token becomes a literal node and is consumed. */
  lemma PrimaryLiteral(ts: seq<Token>, fromToken: Token -> Ast.LiteralValue, cur: nat)
    requires cur < |ts| && ts[cur].tokenType in LiteralKinds
    ensures ParseAt(ts, fromToken, Primary, cur) == Ok(LiteralAt(ts, fromToken, cur), cur + 1)
  {
  }

  /** Any token that cannot start a primary is "Expected expression", and the
      cursor stays where it was. */
  lemma PrimaryRejects(ts: seq<Token>, fromToken: Token -> Ast.LiteralValue, cur: nat)
    requires cur < |ts| && ts[cur].tokenType != LeftParen && ts[cur].tokenType !in LiteralKinds
    ensures ParseAt(ts, fromToken, Primary, cur) == Err("Expected expression", cur)
  {
  }

  /** A `(` starts a group: the inner expression must be followed by `)`,
      otherwise the error is "Expected ')'" at the token that is there. */
  lemma PrimaryGroup(ts: seq<Token>, fromToken: Token -> Ast.LiteralValue, cur: nat)
    requires cur < |ts| && ts[cur].tokenType == LeftParen
    ensures var r := ParseAt(ts, fromToken, Equality, cur + 1);
      ParseAt(ts, fromToken, Primary, cur) ==
        if !r.Ok? then r
        else if r.cursor == |ts| then Panic
        else if ts[r.cursor].tokenType == RightParen then Ok(Ast.Grouping(r.value), r.cursor + 1)
        else Err("Expected ')'", r.cursor)
  {
  }

  /** A binary level parses one operand of the tighter level and hands it to
      its loop. */
  lemma OperandThenLoop(ts: seq<Token>, fromToken: Token -> Ast.LiteralValue, level: Level, cur: nat)
    requires IsBinary(level) && cur <= |ts| && ParseAt(ts, fromToken, Tighter(level), cur).Ok?
    ensures var r := ParseAt(ts, fromToken, Tighter(level), cur);
      ParseAt(ts, fromToken, level, cur) == Loop(ts, fromToken, level, r.value, r.cursor)
  {
  }

  /** A failure of the operand of a binary level is the failure of the level:
      the error and its cursor bubble up unchanged. */
  lemma FailurePropagates(ts: seq<Token>, fromToken: Token -> Ast.LiteralValue, level: Level, cur: nat)
    requires IsBinary(level) && cur <= |ts| && !ParseAt(ts, fromToken, Tighter(level), cur).Ok?
    ensures ParseAt(ts, fromToken, level, cur) == ParseAt(ts, fromToken, Tighter(level), cur)
  {
  }

  /** A failure of `unary` is the failure of every binary level above it. */
  lemma {:induction false} UnaryFailureRises(ts: seq<Token>, fromToken: Token -> Ast.LiteralValue, level: Level, cur: nat)
    requires Rank(Unary) <= Rank(level) && cur <= |ts| && !ParseAt(ts, fromToken, Unary, cur).Ok?
    ensures ParseAt(ts, fromToken, level, cur) == ParseAt(ts, fromToken, Unary, cur)
    decreases Rank(level)
  {
    if Rank(level) == Rank(Unary) {
      RankInjective(level, Unary);
    } else {
      UnaryFailureRises(ts, fromToken, Tighter(level), cur);
      FailurePropagates(ts, fromToken, level, cur);
    }
  }

  /** Reading past the last token without meeting an `Eof` is an
      out-of-range index at every level. */
  lemma {:induction false} OutOfTokens(ts: seq<Token>, fromToken: Token -> Ast.LiteralValue, level: Level)
    ensures ParseAt(ts, fromToken, level, |ts|) == Panic
    decreases Rank(level)
  {
    match level
    case Primary =>
    case Unary =>
    case _ =>
      OutOfTokens(ts, fromToken, Tighter(level));
      FailurePropagates(ts, fromToken, level, |ts|);
  }

  /** A parenthesised expression followed by a token that closes every level
      up to `level` is parsed at `level` as just that group. */
  lemma GroupOperand(ts: seq<Token>, fromToken: Token -> Ast.LiteralValue, level: Level, cur: nat)
    requires Rank(Unary) <= Rank(level) && cur < |ts| && ts[cur].tokenType == LeftParen
    requires var r := ParseAt(ts, fromToken, Equality, cur + 1);
      && r.Ok? && r.cursor + 1 < |ts| && ts[r.cursor].tokenType == RightParen
      && ClosesBetween(ts[r.cursor + 1].tokenType, Unary, level)
    ensures var r := ParseAt(ts, fromToken, Equality, cur + 1);
      ParseAt(ts, fromToken, level, cur) == Ok(Ast.Grouping(r.value), r.cursor + 1)
  {
    ClosedGroup(ts, fromToken, cur);
    Lift(ts, fromToken, Unary, level, cur);
  }

  /** A `(` whose inner expression is followed by `)` is a group at `unary`. */
  lemma ClosedGroup(ts: seq<Token>, fromToken: Token -> Ast.LiteralValue, cur: nat)
    requires cur < |ts| && ts[cur].tokenType == LeftParen
    requires var r := ParseAt(ts, fromToken, Equality, cur + 1);
      r.Ok? && r.cursor < |ts| && ts[r.cursor].tokenType == RightParen
    ensures var r := ParseAt(ts, fromToken, Equality, cur + 1);
      ParseAt(ts, fromToken, Unary, cur) == Ok(Ast.Grouping(r.value), r.cursor + 1)
  {
    PrimaryGroup(ts, fromToken, cur);
    UnaryFallsThrough(ts, fromToken, cur);
  }

  /** Both `!` and `!=` are prefix operators; the operand is another unary. */
  lemma UnaryPrefix(ts: seq<Token>, fromToken: Token -> Ast.LiteralValue, cur: nat)
    requires cur < |ts| && ts[cur].tokenType in {Bang, BangEqual}
    ensures var r := ParseAt(ts, fromToken, Unary, cur + 1);
      ParseAt(ts, fromToken, Unary, cur) == if r.Ok? then Ok(Ast.Unary(ts[cur], r.value), r.cursor) else r
  {
  }

  /** Without a prefix operator, `unary` is `primary` at the same cursor. */
  lemma UnaryFallsThrough(ts: seq<Token>, fromToken: Token -> Ast.LiteralValue, cur: nat)
    requires cur < |ts| && ts[cur].tokenType !in {Bang, BangEqual}
    ensures ParseAt(ts, fromToken, Unary, cur) == ParseAt(ts, fromToken, Primary, cur)
  {
    assert UnaryAt(ts, fromToken, cur) == ParseAt(ts, fromToken, Primary, cur);
  }

  /** A token that is not one of the level's operators ends its loop. */
  lemma LoopStops(ts: seq<Token>, fromToken: Token -> Ast.LiteralValue, level: Level, left: Ast.Expression, cur: nat)
    requires IsBinary(level) && cur < |ts| && ts[cur].tokenType !in Operators(level)
    ensures Loop(ts, fromToken, level, left, cur) == Ok(left, cur)
  {
  }

  /** One loop iteration: the tree built so far becomes the left operand. */
  lemma LoopWraps(ts: seq<Token>, fromToken: Token -> Ast.LiteralValue, level: Level, left: Ast.Expression, cur: nat)
    requires IsBinary(level) && cur < |ts| && ts[cur].tokenType in Operators(level)
    ensures var r := ParseAt(ts, fromToken, Tighter(level), cur + 1);
      Loop(ts, fromToken, level, left, cur) ==
        if r.Ok? then Loop(ts, fromToken, level, Ast.Binary(left, ts[cur], r.value), r.cursor) else r
  {
  }

  /** A token that cannot start an expression is rejected at every level with
      "Expected expression", and nothing is consumed. */
  lemma {:induction false} StartRejected(ts: seq<Token>, fromToken: Token -> Ast.LiteralValue, level: Level, cur: nat)
    requires cur < |ts|
    requires ts[cur].tokenType !in LiteralKinds && ts[cur].tokenType !in {LeftParen, Bang, BangEqual}
    ensures ParseAt(ts, fromToken, level, cur) == Err("Expected expression", cur)
    decreases Rank(level)
  {
    match level
    case Primary => PrimaryRejects(ts, fromToken, cur);
    case Unary =>
      UnaryFallsThrough(ts, fromToken, cur);
      PrimaryRejects(ts, fromToken, cur);
    case _ => StartRejected(ts, fromToken, Tighter(level), cur);
  }

  // ----- tree shape: across levels -----

  /** A token of kind `kind` ends the loop of every binary level ranked above
      `low`, up to and including `high`. */
  predicate ClosesBetween(kind: TokenType, low: Level, high: Level)
    decreases Rank(high)
  {
    Rank(high) <= Rank(low) || (IsBinary(high) && kind !in Operators(high) && ClosesBetween(kind, low, Tighter(high)))
  }

  /** Splitting the range of levels a token closes. */
  lemma {:induction false} SplitCloses(kind: TokenType, low: Level, mid: Level, high: Level)
    requires Rank(low) <= Rank(mid) <= Rank(high)
    requires ClosesBetween(kind, low, high)
    ensures ClosesBetween(kind, low, mid) && ClosesBetween(kind, mid, high)
    decreases Rank(high)
  {
    if Rank(high) == Rank(mid) {
      RankInjective(mid, high);
    } else {
      SplitCloses(kind, low, mid, Tighter(high));
    }
  }

  /** The operator sets of the binary levels are disjoint: an operator of one
      level closes every tighter level. */
  lemma OperatorClosesTighter(kind: TokenType, level: Level)
    requires IsBinary(level) && kind in Operators(level)
    ensures ClosesBetween(kind, Unary, Tighter(level))
  {
    match level
    case Factor =>
    case Term =>
      assert ClosesBetween(kind, Unary, Factor);
    case Comparison =>
      assert ClosesBetween(kind, Unary, Factor);
      assert ClosesBetween(kind, Unary, Term);
    case Equality =>
      assert ClosesBetween(kind, Unary, Factor);
      assert ClosesBetween(kind, Unary, Term);
      assert ClosesBetween(kind, Unary, Comparison);
  }

  /** An expression parsed at a tighter level is the result of a looser level
      too, when the token after it is no operator of the levels in between. */
  lemma {:induction false} Lift(ts: seq<Token>, fromToken: Token -> Ast.LiteralValue, low: Level, high: Level, cur: nat)
    requires Rank(Unary) <= Rank(low) <= Rank(high) && cur <= |ts|
    requires var r := ParseAt(ts, fromToken, low, cur);
      r.Ok? && r.cursor < |ts| && ClosesBetween(ts[r.cursor].tokenType, low, high)
    ensures ParseAt(ts, fromToken, high, cur) == ParseAt(ts, fromToken, low, cur)
    decreases Rank(high)
  {
    if Rank(high) == Rank(low) {
      RankInjective(low, high);
    } else {
      Lift(ts, fromToken, low, Tighter(high), cur);
      var r := ParseAt(ts, fromToken, low, cur);
      LoopStops(ts, fromToken, high, r.value, r.cursor);
    }
  }

  /** A literal followed by a token that closes the levels up to `level` is
      parsed at `level` as just that literal. */
  lemma LiteralOperand(ts: seq<Token>, fromToken: Token -> Ast.LiteralValue, level: Level, cur: nat)
    requires Rank(Unary) <= Rank(level)
    requires cur + 1 < |ts| && ts[cur].tokenType in LiteralKinds && ClosesBetween(ts[cur + 1].tokenType, Unary, level)
    ensures ParseAt(ts, fromToken, level, cur) == Ok(LiteralAt(ts, fromToken, cur), cur + 1)
  {
    UnaryFallsThrough(ts, fromToken, cur);
    PrimaryLiteral(ts, fromToken, cur);
    Lift(ts, fromToken, Unary, level, cur);
  }

  /** From `from` on, the tokens are `n` pairs of an operator of `level` and a
      literal, followed by a token that closes every level up to `level`. */
  predicate ChainAt(ts: seq<Token>, level: Level, from: nat, n: nat)
    decreases n
  {
    if n == 0 then from < |ts| && ClosesBetween(ts[from].tokenType, Unary, level)
    else
      && from + 1 < |ts|
      && ts[from].tokenType in Operators(level)
      && ts[from + 1].tokenType in LiteralKinds
      && ChainAt(ts, level, from + 2, n - 1)
  }

  /** The left-leaning tree such a chain denotes, built on top of `acc`:
      `((acc op1 a1) op2 a2) ...`. */
  function LeftFold(acc: Ast.Expression, ts: seq<Token>, fromToken: Token -> Ast.LiteralValue, from: nat, n: nat)
    : Ast.Expression
    requires from + 2 * n <= |ts|
    decreases n
  {
    if n == 0 then acc
    else LeftFold(Ast.Binary(acc, ts[from], LiteralAt(ts, fromToken, from + 1)), ts, fromToken, from + 2, n - 1)
  }

  /** The token that starts a chain closes every level tighter than the
      chain's own. */
  lemma ChainHead(ts: seq<Token>, level: Level, from: nat, n: nat)
    requires IsBinary(level) && ChainAt(ts, level, from, n)
    ensures from + 2 * n < |ts|
    ensures ClosesBetween(ts[from].tokenType, Unary, Tighter(level))
  {
    if n == 0 {
      SplitCloses(ts[from].tokenType, Unary, Tighter(level), level);
    } else {
      OperatorClosesTighter(ts[from].tokenType, level);
      ChainLength(ts, level, from, n);
    }
  }

  lemma {:induction false} ChainLength(ts: seq<Token>, level: Level, from: nat, n: nat)
    requires ChainAt(ts, level, from, n)
    ensures from + 2 * n < |ts|
    decreases n
  {
    if n > 0 {
      ChainLength(ts, level, from + 2, n - 1);
    }
  }

  /** The loop of a binary level folds a whole chain to the left. */
  lemma {:induction false} LoopChain(ts: seq<Token>, fromToken: Token -> Ast.LiteralValue, level: Level,
                                     acc: Ast.Expression, from: nat, n: nat)
    requires IsBinary(level) && ChainAt(ts, level, from, n)
    ensures from + 2 * n < |ts|
    ensures Loop(ts, fromToken, level, acc, from) == Ok(LeftFold(acc, ts, fromToken, from, n), from + 2 * n)
    decreases n
  {
    if n == 0 {
      LoopChainEnd(ts, fromToken, level, acc, from);
    } else {
      var next := Ast.Binary(acc, ts[from], LiteralAt(ts, fromToken, from + 1));
      LoopChain(ts, fromToken, level, next, from + 2, n - 1);
      LoopChainStep(ts, fromToken, level, acc, from, n);
    }
  }

  /** The token that ends a chain ends the loop. */
  lemma LoopChainEnd(ts: seq<Token>, fromToken: Token -> Ast.LiteralValue, level: Level, acc: Ast.Expression, from: nat)
    requires IsBinary(level) && ChainAt(ts, level, from, 0)
    ensures Loop(ts, fromToken, level, acc, from) == Ok(LeftFold(acc, ts, fromToken, from, 0), from)
  {
    SplitCloses(ts[from].tokenType, Unary, Tighter(level), level);
    LoopStops(ts, fromToken, level, acc, from);
  }

  /** One link of a chain: the operator and the literal after it are folded
      into the accumulated tree, and the rest of the chain does the rest. */
  lemma LoopChainStep(ts: seq<Token>, fromToken: Token -> Ast.LiteralValue, level: Level,
                      acc: Ast.Expression, from: nat, n: nat)
    requires IsBinary(level) && ChainAt(ts, level, from, n) && 0 < n && from + 2 * n < |ts|
    requires var next := Ast.Binary(acc, ts[from], LiteralAt(ts, fromToken, from + 1));
      Loop(ts, fromToken, level, next, from + 2) == Ok(LeftFold(next, ts, fromToken, from + 2, n - 1), from + 2 * n)
    ensures Loop(ts, fromToken, level, acc, from) == Ok(LeftFold(acc, ts, fromToken, from, n), from + 2 * n)
  {
    LoopChainLink(ts, fromToken, level, acc, from, n);
  }

  /** The loop reads an operator of the chain and the literal after it. */
  lemma LoopChainLink(ts: seq<Token>, fromToken: Token -> Ast.LiteralValue, level: Level,
                      acc: Ast.Expression, from: nat, n: nat)
    requires IsBinary(level) && ChainAt(ts, level, from, n) && 0 < n
    ensures from + 2 < |ts|
    ensures Loop(ts, fromToken, level, acc, from)
         == Loop(ts, fromToken, level, Ast.Binary(acc, ts[from], LiteralAt(ts, fromToken, from + 1)), from + 2)
  {
    ChainHead(ts, level, from + 2, n - 1);
    LiteralOperand(ts, fromToken, Tighter(level), from + 1);
    LoopWraps(ts, fromToken, level, acc, from);
  }

  /** Left associativity: `a0 op1 a1 ... opn an` at one binary level parses
      as `(...((a0 op1 a1) op2 a2) ... opn an)`. */
  lemma LeftAssociative(ts: seq<Token>, fromToken: Token -> Ast.LiteralValue, level: Level, cur: nat, n: nat)
    requires IsBinary(level) && cur < |ts| && ts[cur].tokenType in LiteralKinds
    requires ChainAt(ts, level, cur + 1, n)
    ensures cur + 1 + 2 * n < |ts|
    ensures ParseAt(ts, fromToken, level, cur)
         == Ok(LeftFold(LiteralAt(ts, fromToken, cur), ts, fromToken, cur + 1, n), cur + 1 + 2 * n)
  {
    ChainHead(ts, level, cur + 1, n);
    LiteralOperand(ts, fromToken, Tighter(level), cur);
    LoopChain(ts, fromToken, level, LiteralAt(ts, fromToken, cur), cur + 1, n);
  }

  /** The token at `i` exists and has one of the given kinds. */
  predicate KindIn(ts: seq<Token>, i: nat, kinds: set<TokenType>)
  {
    i < |ts| && ts[i].tokenType in kinds
  }

  /** The token at `i` exists and is an operator of `level`. */
  predicate OperatorAt(ts: seq<Token>, i: nat, level: Level)
  {
    i < |ts| && ts[i].tokenType in Operators(level)
  }

  /** The literal node `primary` builds from the token at `i`. */
  function LiteralAt(ts: seq<Token>, fromToken: Token -> Ast.LiteralValue, i: nat): Ast.Expression
    requires i < |ts|
  {
    Ast.Literal(fromToken(ts[i]))
  }

  /** The three-operand case spelled out: `a op b op' c` is `(a op b) op' c`. */
  lemma ThreeOperands(ts: seq<Token>, fromToken: Token -> Ast.LiteralValue, level: Level, cur: nat)
    requires IsBinary(level) && cur + 5 < |ts|
    requires KindIn(ts, cur, LiteralKinds) && KindIn(ts, cur + 2, LiteralKinds) && KindIn(ts, cur + 4, LiteralKinds)
    requires OperatorAt(ts, cur + 1, level) && OperatorAt(ts, cur + 3, level)
    requires ClosesBetween(ts[cur + 5].tokenType, Unary, level)
    ensures ParseAt(ts, fromToken, level, cur) == Ok(
      Ast.Binary(Ast.Binary(LiteralAt(ts, fromToken, cur), ts[cur + 1], LiteralAt(ts, fromToken, cur + 2)),
                 ts[cur + 3], LiteralAt(ts, fromToken, cur + 4)),
      cur + 5)
  {
    assert ChainAt(ts, level, cur + 5, 0);
    assert ChainAt(ts, level, cur + 3, 1);
    assert ChainAt(ts, level, cur + 1, 2);
    LeftAssociative(ts, fromToken, level, cur, 2);
  }

  /** Precedence: with `low` binding tighter than `high`, `a p b q c p' d`
      (`p`, `p'` of `low`, `q` of `high`) parses as `(a p b) q (c p' d)`. */
  lemma Precedence(ts: seq<Token>, fromToken: Token -> Ast.LiteralValue, low: Level, high: Level, cur: nat)
    requires IsBinary(low) && IsBinary(high) && Rank(low) < Rank(high)
    requires cur + 7 < |ts|
    requires KindIn(ts, cur, LiteralKinds) && KindIn(ts, cur + 2, LiteralKinds)
    requires KindIn(ts, cur + 4, LiteralKinds) && KindIn(ts, cur + 6, LiteralKinds)
    requires OperatorAt(ts, cur + 1, low) && OperatorAt(ts, cur + 3, high) && OperatorAt(ts, cur + 5, low)
    requires ClosesBetween(ts[cur + 7].tokenType, Unary, high)
    ensures ParseAt(ts, fromToken, high, cur) == Ok(
      Ast.Binary(Ast.Binary(LiteralAt(ts, fromToken, cur), ts[cur + 1], LiteralAt(ts, fromToken, cur + 2)),
                 ts[cur + 3],
                 Ast.Binary(LiteralAt(ts, fromToken, cur + 4), ts[cur + 5], LiteralAt(ts, fromToken, cur + 6))),
      cur + 7)
  {
    var q := ts[cur + 3].tokenType;
    var t := ts[cur + 7].tokenType;
    // `q` and `t` both close every level up to the operand level of `high`
    OperatorClosesTighter(q, high);
    SplitCloses(t, Unary, Tighter(high), high);
    LowPair(ts, fromToken, low, high, cur);
    LowPair(ts, fromToken, low, high, cur + 4);
    // one iteration of the loop of `high`, then `t` stops it
    var lhs := Ast.Binary(LiteralAt(ts, fromToken, cur), ts[cur + 1], LiteralAt(ts, fromToken, cur + 2));
    var rhs := Ast.Binary(LiteralAt(ts, fromToken, cur + 4), ts[cur + 5], LiteralAt(ts, fromToken, cur + 6));
    SplitCloses(t, Tighter(high), high, high);
    LoopWraps(ts, fromToken, high, lhs, cur + 3);
    LoopStops(ts, fromToken, high, Ast.Binary(lhs, ts[cur + 3], rhs), cur + 7);
  }

  /** `a p b` with `p` of `low`, followed by a token that closes every level
      up to the operand level of `high`, is one operand of `high`. */
  lemma LowPair(ts: seq<Token>, fromToken: Token -> Ast.LiteralValue, low: Level, high: Level, i: nat)
    requires IsBinary(low) && IsBinary(high) && Rank(low) < Rank(high)
    requires i + 3 < |ts| && KindIn(ts, i, LiteralKinds) && OperatorAt(ts, i + 1, low) && KindIn(ts, i + 2, LiteralKinds)
    requires ClosesBetween(ts[i + 3].tokenType, Unary, Tighter(high))
    ensures ParseAt(ts, fromToken, Tighter(high), i)
         == Ok(Ast.Binary(LiteralAt(ts, fromToken, i), ts[i + 1], LiteralAt(ts, fromToken, i + 2)), i + 3)
  {
    SplitCloses(ts[i + 3].tokenType, Unary, low, Tighter(high));
    assert ChainAt(ts, low, i + 3, 0);
    assert ChainAt(ts, low, i + 1, 1);
    LeftAssociative(ts, fromToken, low, i, 1);
    Lift(ts, fromToken, low, Tighter(high), i);
  }
}
