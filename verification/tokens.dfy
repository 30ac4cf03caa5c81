/** Tokens as the lexer produces them and the parser reads them. */
module Tokens {

  datatype Option<+T> = None | Some(value: T)

  /** The token kinds that the parser's grammar and the lexer's punctuation
      table refer to, plus the end-of-input marker. The token module of the
      repository is not part of this model; kinds it may declare that neither
      the parser nor the lexer names are left out. */
  datatype TokenType =
    // single-character punctuation
    | LeftParen | RightParen | LeftBrace | RightBrace
    | Comma | Dot | Minus | Plus | SemiColon | Slash | Star
    // one- and two-character operators
    | Bang | BangEqual | EqualEqual
    | Greater | GreaterEqual | Less | LessEqual
    // literals and literal keywords
    | Number | StringLiteral | True | False | Nil
    // keywords that begin a statement
    | Class | Function | Variable | For | If | While | Say | Return
    | Eof

  /** The literal payload a token may carry. The front end never looks inside
      it; only the integer variant the parser's tests build is modelled. */
  datatype TokenLiteral = IntValue(n: int)

  datatype Token = Token(tokenType: TokenType, lexeme: string, literal: Option<TokenLiteral>, lineNumber: nat)
}
