/** The shape of the trees the recursive-descent parser builds, one predicate per
    precedence level, and `Flatten`, which writes a tree back out as tokens.

    The operand rules per level follow the productions as written:
      equality   -> equality ("!=" | "==") comparison | comparison   (left-associative)
      comparison -> comparison (">" | ">=" | "<" | "<=") term | term  (left-associative)
      term       -> factor ("-" | "+") term | factor                  (RIGHT-associative)
      factor     -> factor ("/" | "*") unary | unary                  (left-associative)
      unary      -> ("!" | "-") unary | primary
      primary    -> literal | "(" equality ")"                                        */
module Grammar {
  import opened Values
  import opened Tokens
  import opened Ast

  const EqualityOps: seq<TokenType> := [NotEqual, EqualEqual]
  const ComparisonOps: seq<TokenType> := [Greater, GreaterEqual, Less, LessEqual]
  const TermOps: seq<TokenType> := [Minus, Plus]
  const FactorOps: seq<TokenType> := [Slash, Star]
  const UnaryOps: seq<TokenType> := [Not, Minus]

  /** The operators at which each level's loop would go on; a level stops before none of them. */
  const TermStop: seq<TokenType> := [Minus, Plus, Slash, Star]
  const ComparisonStop: seq<TokenType> :=
    [Greater, GreaterEqual, Less, LessEqual, Minus, Plus, Slash, Star]
  const BinaryOps: seq<TokenType> :=
    [NotEqual, EqualEqual, Greater, GreaterEqual, Less, LessEqual, Minus, Plus, Slash, Star]

  /** The token kinds that can start a primary expression. */
  const PrimaryStarts: seq<TokenType> := [FalseKw, TrueKw, NilKw, NumberLit, StringLit, LeftParen]

  /** The token kinds a primary turns directly into a literal. */
  const LiteralKinds: seq<TokenType> := [FalseKw, TrueKw, NilKw, NumberLit, StringLit]

  /** The value of the literal a literal token stands for. */
  function LiteralOf(t: Token): Value
    requires t.kind in LiteralKinds
  {
    match t.kind
    case FalseKw => Bool(false)
    case TrueKw => Bool(true)
    case NilKw => Nil
    case _ => t.literal
  }

  /** The token kinds that can start any expression. */
  const ExpressionStarts: seq<TokenType> :=
    [Not, Minus, FalseKw, TrueKw, NilKw, NumberLit, StringLit, LeftParen]

  predicate IsEqualityTree(e: Expr)
    decreases e, 5
  {
    IsComparisonTree(e)
    || (e.Binary? && e.operator.kind in EqualityOps
        && IsEqualityTree(e.left) && IsComparisonTree(e.right))
  }

  predicate IsComparisonTree(e: Expr)
    decreases e, 4
  {
    IsTermTree(e)
    || (e.Binary? && e.operator.kind in ComparisonOps
        && IsComparisonTree(e.left) && IsTermTree(e.right))
  }

  predicate IsTermTree(e: Expr)
    decreases e, 3
  {
    IsFactorTree(e)
    || (e.Binary? && e.operator.kind in TermOps
        && IsFactorTree(e.left) && IsTermTree(e.right))
  }

  predicate IsFactorTree(e: Expr)
    decreases e, 2
  {
    IsUnaryTree(e)
    || (e.Binary? && e.operator.kind in FactorOps
        && IsFactorTree(e.left) && IsUnaryTree(e.right))
  }

  predicate IsUnaryTree(e: Expr)
    decreases e, 1
  {
    if e.Unary? then e.operator.kind in UnaryOps && IsUnaryTree(e.right)
    else IsPrimaryTree(e)
  }

  predicate IsPrimaryTree(e: Expr)
    decreases e, 0
  {
    match e
    case Literal(_) => true
    case Grouping(inner) => IsEqualityTree(inner)
    case _ => false
  }

  /** Each level accepts every tree of the levels that bind tighter. */
  lemma LevelsNest(e: Expr)
    ensures IsPrimaryTree(e) ==> IsUnaryTree(e)
    ensures IsUnaryTree(e) ==> IsFactorTree(e)
    ensures IsFactorTree(e) ==> IsTermTree(e)
    ensures IsTermTree(e) ==> IsComparisonTree(e)
    ensures IsComparisonTree(e) ==> IsEqualityTree(e)
  {
  }

  /** An equality tree above the comparison level is an `!=`/`==` node. */
  lemma EqualityNode(e: Expr)
    requires IsEqualityTree(e) && !IsComparisonTree(e)
    ensures e.Binary? && e.operator.kind in EqualityOps
    ensures IsEqualityTree(e.left) && IsComparisonTree(e.right)
  {
  }

  lemma ComparisonNode(e: Expr)
    requires IsComparisonTree(e) && !IsTermTree(e)
    ensures e.Binary? && e.operator.kind in ComparisonOps
    ensures IsComparisonTree(e.left) && IsTermTree(e.right)
  {
  }

  lemma TermNode(e: Expr)
    requires IsTermTree(e) && !IsFactorTree(e)
    ensures e.Binary? && e.operator.kind in TermOps
    ensures IsFactorTree(e.left) && IsTermTree(e.right)
  {
  }

  lemma FactorNode(e: Expr)
    requires IsFactorTree(e) && !IsUnaryTree(e)
    ensures e.Binary? && e.operator.kind in FactorOps
    ensures IsFactorTree(e.left) && IsUnaryTree(e.right)
  {
  }

  /** A statement the parser can produce: `print e;` or `e;` with a well-shaped `e`. */
  predicate IsParsedStmt(s: Stmt) {
    (s.Print? || s.Expression?) && IsEqualityTree(s.expression)
  }

  /** A token on line 1 without a literal value: the tokens `Flatten` writes out. Its lexeme is only descriptive. */
  function MakeToken(kind: TokenType, lexeme: string): Token {
    Token(kind, lexeme, Nil, 1)
  }

  /** The single token from which the parser builds `Literal(v)`. */
  function LiteralToken(v: Value): (t: Token)
    ensures t.kind in LiteralKinds && LiteralOf(t) == v
  {
    match v
    case Nil => MakeToken(NilKw, "nil")
    case Bool(b) => if b then MakeToken(TrueKw, "true") else MakeToken(FalseKw, "false")
    case Num(n) => Token(NumberLit, "", v, 1)
    case Str(s) => Token(StringLit, "\"" + s + "\"", v, 1)
  }

  /** The tokens of an expression in source order, with parentheses for groupings. */
  function Flatten(e: Expr): seq<Token> {
    match e
    case Literal(v) => [LiteralToken(v)]
    case Grouping(inner) =>
      [MakeToken(LeftParen, "(")] + Flatten(inner) + [MakeToken(RightParen, ")")]
    case Unary(op, right) => [op] + Flatten(right)
    case Binary(left, op, right) => Flatten(left) + [op] + Flatten(right)
  }

  /** The tokens of a statement, ending in its `;`. */
  function FlattenStmt(s: Stmt): seq<Token>
    requires IsParsedStmt(s)
  {
    match s
    case Print(e) => [MakeToken(PrintKw, "print")] + Flatten(e) + [MakeToken(Semicolon, ";")]
    case Expression(e) => Flatten(e) + [MakeToken(Semicolon, ";")]
  }

  /** The tokens of a statement list, without the closing EOF. */
  function FlattenStmts(ss: seq<Stmt>): seq<Token>
    requires forall i :: 0 <= i < |ss| ==> IsParsedStmt(ss[i])
  {
    if |ss| == 0 then [] else FlattenStmt(ss[0]) + FlattenStmts(ss[1..])
  }
}
