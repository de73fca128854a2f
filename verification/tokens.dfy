/** Lexical tokens, as produced by the scanner and consumed by the parser. */
module Tokens {
  import opened Values

  /** The token vocabulary of the language. */
  datatype TokenType =
    // single-character punctuation
    | LeftParen | RightParen | LeftBrace | RightBrace
    | Comma | Dot | Minus | Plus | Semicolon | Slash | Star
    // one- or two-character operators
    | Not | NotEqual | Equal | EqualEqual
    | Greater | GreaterEqual | Less | LessEqual
    // literals
    | Identifier | StringLit | NumberLit
    // keywords
    | AndKw | ClassKw | ElseKw | FalseKw | FunKw | ForKw | IfKw | NilKw
    | OrKw | PrintKw | ReturnKw | SuperKw | ThisKw | TrueKw | VarKw | WhileKw
    | Eof

  /** An immutable token: its kind, the source text it was scanned from, its literal
      value (`Nil` unless the kind is a NUMBER or STRING literal) and its source line. */
  datatype Token = Token(kind: TokenType, lexeme: string, literal: Value, line: int)
}
