/** The recursive-descent parser: one production per precedence level, each a pure
    function from a token sequence and a cursor to the parsed node and the new cursor.
    A syntax error aborts the production with the token and message it is reported at. */
module Parser {
  import opened Results
  import opened Values
  import opened Tokens
  import opened Ast
  import opened Grammar

  /** The token and message a syntax error is reported with. */
  datatype ParseError = ParseError(token: Token, message: string)

  /** What a production returns: the node and the cursor just after it, or the error. */
  type Parsed<T> = Result<(T, nat), ParseError>

  const ExpectExpression: string := "Expect expression."
  const ExpectRightParen: string := "Expect ')' after expression."
  const ExpectSemicolon: string := "Expect ';' after value."

  const ExpressionErrors: set<string> := {ExpectExpression, ExpectRightParen}

  const StatementErrors: set<string> := {ExpectExpression, ExpectRightParen, ExpectSemicolon}

  /** The keywords before which error recovery resumes. */
  const StatementStarts: seq<TokenType> :=
    [ClassKw, ForKw, FunKw, IfKw, PrintKw, ReturnKw, VarKw, WhileKw]

  /** A token sequence as the scanner delivers it: non-empty and ending in EOF. */
  predicate WellFormed(toks: seq<Token>) {
    0 < |toks| && toks[|toks| - 1].kind == Eof
  }

  predicate ValidCursor(toks: seq<Token>, pos: nat) {
    WellFormed(toks) && pos < |toks|
  }

  /** The cursor stands on EOF; on a well-formed sequence it does at the last position. */
  predicate IsAtEnd(toks: seq<Token>, pos: nat): (atEnd: bool)
    requires pos < |toks|
    ensures WellFormed(toks) && pos == |toks| - 1 ==> atEnd
  {
    toks[pos].kind == Eof
  }

  /** The token at the cursor, one of the input tokens; the cursor does not move. */
  function Peek(toks: seq<Token>, pos: nat): (t: Token)
    requires pos < |toks|
    ensures t in toks
    ensures WellFormed(toks) && pos == |toks| - 1 ==> t.kind == Eof
  {
    toks[pos]
  }

  /** The token just consumed: an input token standing before the cursor. */
  function Previous(toks: seq<Token>, pos: nat): (t: Token)
    requires 0 < pos <= |toks|
    ensures t in toks[..pos]
  {
    toks[pos - 1]
  }

  /** The current token has the given kind; EOF never passes, not even when asked for. */
  predicate Check(toks: seq<Token>, pos: nat, kind: TokenType): (holds: bool)
    requires pos < |toks|
    ensures holds ==> kind != Eof
  {
    !IsAtEnd(toks, pos) && Peek(toks, pos).kind == kind
  }

  /** While the cursor is on EOF, `check` fails for every kind, because `isAtEnd` is tested first. */
  lemma {:induction false} CheckFalseAtEnd(toks: seq<Token>, pos: nat, kind: TokenType)
    requires pos < |toks| && IsAtEnd(toks, pos)
    ensures !Check(toks, pos, kind)
  {
  }

  /** Steps over the current token unless it is EOF, and returns the token before the
      new cursor. The cursor never moves past EOF, so it stays in bounds. */
  function Advance(toks: seq<Token>, pos: nat): (r: (nat, Token))
    requires ValidCursor(toks, pos)
    requires 0 < pos || !IsAtEnd(toks, pos)
    ensures pos <= r.0 <= pos + 1 && r.0 < |toks|
    ensures r.0 == pos <==> IsAtEnd(toks, pos)
    ensures 0 < r.0 && r.1 == toks[r.0 - 1]
  {
    var next := if IsAtEnd(toks, pos) then pos else pos + 1;
    (next, Previous(toks, next))
  }

  /** Consumes the current token if one of `kinds` passes `Check` on it; returns the
      new cursor. */
  function Match(toks: seq<Token>, pos: nat, kinds: seq<TokenType>): (next: nat)
    requires ValidCursor(toks, pos)
    ensures next == pos || next == pos + 1
    ensures next == pos + 1 <==> !IsAtEnd(toks, pos) && toks[pos].kind in kinds
    ensures next < |toks|
  {
    // some kind passes `Check` exactly when the current token is not EOF and has one of them
    if !IsAtEnd(toks, pos) && Peek(toks, pos).kind in kinds then Advance(toks, pos).0
    else pos
  }

  /** Consumes a token of the expected kind, or fails at the current token. */
  function Consume(toks: seq<Token>, pos: nat, kind: TokenType, message: string): (r: Result<nat, ParseError>)
    requires ValidCursor(toks, pos)
    ensures r.Ok? <==> Check(toks, pos, kind)
    ensures r.Ok? ==> r.value == pos + 1 && r.value < |toks|
    ensures r.Err? ==> r.error == ParseError(toks[pos], message)
  {
    if Check(toks, pos, kind) then Ok(Advance(toks, pos).0)
    else Err(ParseError(Peek(toks, pos), message))
  }

  /** The error is reported at one of the input tokens, with one of `messages`. */
  predicate ReportedAt(toks: seq<Token>, err: ParseError, messages: set<string>) {
    err.message in messages && err.token in toks
  }

  // expression -> equality
  function ParseExpression(toks: seq<Token>, pos: nat): (r: Parsed<Expr>)
    requires ValidCursor(toks, pos)
    ensures r.Ok? ==> pos < r.value.1 < |toks|
    ensures r.Ok? ==> toks[pos].kind in ExpressionStarts
    ensures r.Ok? ==> IsEqualityTree(r.value.0)
    ensures r.Ok? ==> toks[r.value.1].kind !in BinaryOps
    ensures r.Err? ==> ReportedAt(toks, r.error, ExpressionErrors)
    decreases |toks| - pos, 7
  {
    ParseEquality(toks, pos)
  }

  // equality -> comparison (("!=" | "==") comparison)*
  function ParseEquality(toks: seq<Token>, pos: nat): (r: Parsed<Expr>)
    requires ValidCursor(toks, pos)
    ensures r.Ok? ==> pos < r.value.1 < |toks|
    ensures r.Ok? ==> toks[pos].kind in ExpressionStarts
    ensures r.Ok? ==> IsEqualityTree(r.value.0)
    ensures r.Ok? ==> toks[r.value.1].kind !in BinaryOps
    ensures r.Err? ==> ReportedAt(toks, r.error, ExpressionErrors)
    decreases |toks| - pos, 6
  {
    var first :- ParseComparison(toks, pos);
    EqualityLoop(toks, first.1, first.0)
  }

  /** `equality` parses one operand with `comparison` and hands it to its loop. */
  lemma {:induction false} EqualityBegins(toks: seq<Token>, pos: nat, first: Expr, next: nat)
    requires ValidCursor(toks, pos) && ParseComparison(toks, pos) == Ok((first, next))
    ensures ParseEquality(toks, pos) == EqualityLoop(toks, next, first)
  {
  }

  /** A successful `equality` began with a successful operand of the next level. */
  lemma {:induction false} EqualitySplits(toks: seq<Token>, pos: nat) returns (first: Expr, next: nat)
    requires ValidCursor(toks, pos) && ParseEquality(toks, pos).Ok?
    ensures ParseComparison(toks, pos) == Ok((first, next))
    ensures ParseEquality(toks, pos) == EqualityLoop(toks, next, first)
  {
    var r := ParseComparison(toks, pos);
    assert r.Ok?;
    first, next := r.value.0, r.value.1;
  }

  /** The `while (match(NOT_EQUAL, EQUAL_EQUAL))` loop of `equality`, with the tree so far. */
  function EqualityLoop(toks: seq<Token>, pos: nat, left: Expr): (r: Parsed<Expr>)
    requires ValidCursor(toks, pos)
    requires IsEqualityTree(left) && toks[pos].kind !in ComparisonStop
    ensures r.Ok? ==> pos <= r.value.1 < |toks|
    ensures r.Ok? ==> IsEqualityTree(r.value.0)
    ensures r.Ok? ==> toks[r.value.1].kind !in BinaryOps
    ensures r.Err? ==> ReportedAt(toks, r.error, ExpressionErrors)
    decreases |toks| - pos, 6
  {
    var next := Match(toks, pos, EqualityOps);
    if next == pos then Ok((left, pos))
    else
      var operator := Previous(toks, next);
      var right :- ParseComparison(toks, next);
      EqualityLoop(toks, right.1, Binary(left, operator, right.0))
  }

  /** The loop stops at the first token that is not `!=` or `==`. */
  lemma {:induction false} EqualityLoopStops(toks: seq<Token>, pos: nat, left: Expr)
    requires ValidCursor(toks, pos)
    requires IsEqualityTree(left) && toks[pos].kind !in ComparisonStop
    requires toks[pos].kind !in EqualityOps
    ensures EqualityLoop(toks, pos, left) == Ok((left, pos))
  {
  }

  /** Each `!=`/`==` makes the tree so far the left operand of a new node. */
  lemma {:induction false} EqualityLoopStep(toks: seq<Token>, pos: nat, left: Expr, right: Expr, next: nat)
    requires ValidCursor(toks, pos)
    requires IsEqualityTree(left) && toks[pos].kind in EqualityOps
    requires ParseComparison(toks, pos + 1) == Ok((right, next))
    ensures EqualityLoop(toks, pos, left) == EqualityLoop(toks, next, Binary(left, toks[pos], right))
  {
  }

  /** A successful loop of `equality` at a `!=`/`==` has parsed the comparison after it. */
  lemma {:induction false} EqualityLoopOperand(toks: seq<Token>, pos: nat, left: Expr) returns (right: Expr, next: nat)
    requires ValidCursor(toks, pos)
    requires IsEqualityTree(left) && toks[pos].kind !in ComparisonStop && toks[pos].kind in EqualityOps
    requires EqualityLoop(toks, pos, left).Ok?
    ensures ParseComparison(toks, pos + 1) == Ok((right, next))
    ensures EqualityLoop(toks, pos, left) == EqualityLoop(toks, next, Binary(left, toks[pos], right))
    ensures pos + 1 < next < |toks| && IsEqualityTree(Binary(left, toks[pos], right)) && toks[next].kind !in ComparisonStop
  {
    var r := ParseComparison(toks, pos + 1);
    assert r.Ok?;
    right, next := r.value.0, r.value.1;
    EqualityLoopStep(toks, pos, left, right, next);
  }

  // comparison -> term ((">" | ">=" | "<" | "<=") term)*
  function ParseComparison(toks: seq<Token>, pos: nat): (r: Parsed<Expr>)
    requires ValidCursor(toks, pos)
    ensures r.Ok? ==> pos < r.value.1 < |toks|
    ensures r.Ok? ==> toks[pos].kind in ExpressionStarts
    ensures r.Ok? ==> IsComparisonTree(r.value.0)
    ensures r.Ok? ==> toks[r.value.1].kind !in ComparisonStop
    ensures r.Err? ==> ReportedAt(toks, r.error, ExpressionErrors)
    decreases |toks| - pos, 5
  {
    var first :- ParseTerm(toks, pos);
    ComparisonLoop(toks, first.1, first.0)
  }

  /** `comparison` parses one operand with `term` and hands it to its loop. */
  lemma {:induction false} ComparisonBegins(toks: seq<Token>, pos: nat, first: Expr, next: nat)
    requires ValidCursor(toks, pos) && ParseTerm(toks, pos) == Ok((first, next))
    ensures ParseComparison(toks, pos) == ComparisonLoop(toks, next, first)
  {
  }

  /** A successful `comparison` began with a successful operand of the next level. */
  lemma {:induction false} ComparisonSplits(toks: seq<Token>, pos: nat) returns (first: Expr, next: nat)
    requires ValidCursor(toks, pos) && ParseComparison(toks, pos).Ok?
    ensures ParseTerm(toks, pos) == Ok((first, next))
    ensures ParseComparison(toks, pos) == ComparisonLoop(toks, next, first)
  {
    var r := ParseTerm(toks, pos);
    assert r.Ok?;
    first, next := r.value.0, r.value.1;
  }

  /** The `while (match(GREATER, GREATER_EQUAL, LESS, LESS_EQUAL))` loop of `comparison`. */
  function ComparisonLoop(toks: seq<Token>, pos: nat, left: Expr): (r: Parsed<Expr>)
    requires ValidCursor(toks, pos)
    requires IsComparisonTree(left) && toks[pos].kind !in TermStop
    ensures r.Ok? ==> pos <= r.value.1 < |toks|
    ensures r.Ok? ==> IsComparisonTree(r.value.0)
    ensures r.Ok? ==> toks[r.value.1].kind !in ComparisonStop
    ensures r.Err? ==> ReportedAt(toks, r.error, ExpressionErrors)
    decreases |toks| - pos, 5
  {
    var next := Match(toks, pos, ComparisonOps);
    if next == pos then Ok((left, pos))
    else
      var operator := Previous(toks, next);
      var right :- ParseTerm(toks, next);
      ComparisonLoop(toks, right.1, Binary(left, operator, right.0))
  }

  /** The loop stops at the first token that is not a comparison operator. */
  lemma {:induction false} ComparisonLoopStops(toks: seq<Token>, pos: nat, left: Expr)
    requires ValidCursor(toks, pos)
    requires IsComparisonTree(left) && toks[pos].kind !in TermStop
    requires toks[pos].kind !in ComparisonOps
    ensures ComparisonLoop(toks, pos, left) == Ok((left, pos))
  {
  }

  /** Each comparison operator makes the tree so far the left operand of a new node. */
  lemma {:induction false} ComparisonLoopStep(toks: seq<Token>, pos: nat, left: Expr, right: Expr, next: nat)
    requires ValidCursor(toks, pos)
    requires IsComparisonTree(left) && toks[pos].kind in ComparisonOps
    requires ParseTerm(toks, pos + 1) == Ok((right, next))
    ensures ComparisonLoop(toks, pos, left) == ComparisonLoop(toks, next, Binary(left, toks[pos], right))
  {
  }

  /** A successful loop of `comparison` at a comparison operator has parsed the term after it. */
  lemma {:induction false} ComparisonLoopOperand(toks: seq<Token>, pos: nat, left: Expr) returns (right: Expr, next: nat)
    requires ValidCursor(toks, pos)
    requires IsComparisonTree(left) && toks[pos].kind !in TermStop && toks[pos].kind in ComparisonOps
    requires ComparisonLoop(toks, pos, left).Ok?
    ensures ParseTerm(toks, pos + 1) == Ok((right, next))
    ensures ComparisonLoop(toks, pos, left) == ComparisonLoop(toks, next, Binary(left, toks[pos], right))
    ensures pos + 1 < next < |toks| && IsComparisonTree(Binary(left, toks[pos], right)) && toks[next].kind !in TermStop
  {
    var r := ParseTerm(toks, pos + 1);
    assert r.Ok?;
    right, next := r.value.0, r.value.1;
    ComparisonLoopStep(toks, pos, left, right, next);
  }

  // term -> factor (("-" | "+") factor)*  -- but the right operand is parsed by term itself
  function ParseTerm(toks: seq<Token>, pos: nat): (r: Parsed<Expr>)
    requires ValidCursor(toks, pos)
    ensures r.Ok? ==> pos < r.value.1 < |toks|
    ensures r.Ok? ==> toks[pos].kind in ExpressionStarts
    ensures r.Ok? ==> IsTermTree(r.value.0)
    ensures r.Ok? ==> toks[r.value.1].kind !in TermStop
    ensures r.Err? ==> ReportedAt(toks, r.error, ExpressionErrors)
    decreases |toks| - pos, 4
  {
    var first :- ParseFactor(toks, pos);
    TermLoop(toks, first.1, first.0)
  }

  /** `term` parses one operand with `factor` and hands it to its loop. */
  lemma {:induction false} TermBegins(toks: seq<Token>, pos: nat, first: Expr, next: nat)
    requires ValidCursor(toks, pos) && ParseFactor(toks, pos) == Ok((first, next))
    ensures ParseTerm(toks, pos) == TermLoop(toks, next, first)
  {
  }

  /** A successful `term` began with a successful operand of the next level. */
  lemma {:induction false} TermSplits(toks: seq<Token>, pos: nat) returns (first: Expr, next: nat)
    requires ValidCursor(toks, pos) && ParseTerm(toks, pos).Ok?
    ensures ParseFactor(toks, pos) == Ok((first, next))
    ensures ParseTerm(toks, pos) == TermLoop(toks, next, first)
  {
    var r := ParseFactor(toks, pos);
    assert r.Ok?;
    first, next := r.value.0, r.value.1;
  }

  /** The `while (match(MINUS, PLUS))` loop of `term`. Its right operand is a whole term,
      which leaves no `+`/`-` behind, so the loop runs at most once. */
  function TermLoop(toks: seq<Token>, pos: nat, left: Expr): (r: Parsed<Expr>)
    requires ValidCursor(toks, pos)
    requires toks[pos].kind !in FactorOps
    requires IsFactorTree(left) || (IsTermTree(left) && toks[pos].kind !in TermOps)
    ensures r.Ok? ==> pos <= r.value.1 < |toks|
    ensures r.Ok? ==> IsTermTree(r.value.0)
    ensures r.Ok? ==> toks[r.value.1].kind !in TermStop
    ensures r.Err? ==> ReportedAt(toks, r.error, ExpressionErrors)
    decreases |toks| - pos, 4
  {
    var next := Match(toks, pos, TermOps);
    if next == pos then Ok((left, pos))
    else
      var operator := Previous(toks, next);
      var right :- ParseTerm(toks, next);
      TermLoop(toks, right.1, Binary(left, operator, right.0))
  }

  /** The loop stops at the first token that is not `-` or `+`. */
  lemma {:induction false} TermLoopStops(toks: seq<Token>, pos: nat, left: Expr)
    requires ValidCursor(toks, pos)
    requires IsTermTree(left) && toks[pos].kind !in TermStop
    ensures TermLoop(toks, pos, left) == Ok((left, pos))
  {
  }

  /** A `-`/`+` takes the whole term after it as its right operand, and the loop ends
      there: `a - b - c` groups as `a - (b - c)`. */
  lemma {:induction false} TermLoopOnce(toks: seq<Token>, pos: nat, left: Expr, right: Expr, next: nat)
    requires ValidCursor(toks, pos)
    requires IsFactorTree(left) && toks[pos].kind in TermOps
    requires ParseTerm(toks, pos + 1) == Ok((right, next))
    ensures TermLoop(toks, pos, left) == Ok((Binary(left, toks[pos], right), next))
  {
    assert Match(toks, pos, TermOps) == pos + 1;
    assert Previous(toks, pos + 1) == toks[pos];
    TermLoopStops(toks, next, Binary(left, toks[pos], right));
  }

  /** A successful loop of `term` at a `-`/`+` has parsed the term after it. */
  lemma {:induction false} TermLoopOperand(toks: seq<Token>, pos: nat, left: Expr) returns (right: Expr, next: nat)
    requires ValidCursor(toks, pos)
    requires IsFactorTree(left) && toks[pos].kind !in FactorOps && toks[pos].kind in TermOps
    requires TermLoop(toks, pos, left).Ok?
    ensures ParseTerm(toks, pos + 1) == Ok((right, next))
    ensures TermLoop(toks, pos, left) == Ok((Binary(left, toks[pos], right), next))
  {
    var r := ParseTerm(toks, pos + 1);
    assert r.Ok?;
    right, next := r.value.0, r.value.1;
    TermLoopOnce(toks, pos, left, right, next);
  }

  // factor -> unary (("/" | "*") unary)*
  function ParseFactor(toks: seq<Token>, pos: nat): (r: Parsed<Expr>)
    requires ValidCursor(toks, pos)
    ensures r.Ok? ==> pos < r.value.1 < |toks|
    ensures r.Ok? ==> toks[pos].kind in ExpressionStarts
    ensures r.Ok? ==> IsFactorTree(r.value.0)
    ensures r.Ok? ==> toks[r.value.1].kind !in FactorOps
    ensures r.Err? ==> ReportedAt(toks, r.error, ExpressionErrors)
    decreases |toks| - pos, 3
  {
    var first :- ParseUnary(toks, pos);
    FactorLoop(toks, first.1, first.0)
  }

  /** `factor` parses one operand with `unary` and hands it to its loop. */
  lemma {:induction false} FactorBegins(toks: seq<Token>, pos: nat, first: Expr, next: nat)
    requires ValidCursor(toks, pos) && ParseUnary(toks, pos) == Ok((first, next))
    ensures ParseFactor(toks, pos) == FactorLoop(toks, next, first)
  {
  }

  /** A successful `factor` began with a successful operand of the next level. */
  lemma {:induction false} FactorSplits(toks: seq<Token>, pos: nat) returns (first: Expr, next: nat)
    requires ValidCursor(toks, pos) && ParseFactor(toks, pos).Ok?
    ensures ParseUnary(toks, pos) == Ok((first, next))
    ensures ParseFactor(toks, pos) == FactorLoop(toks, next, first)
  {
    var r := ParseUnary(toks, pos);
    assert r.Ok?;
    first, next := r.value.0, r.value.1;
  }

  /** The `while (match(SLASH, STAR))` loop of `factor`. */
  function FactorLoop(toks: seq<Token>, pos: nat, left: Expr): (r: Parsed<Expr>)
    requires ValidCursor(toks, pos)
    requires IsFactorTree(left)
    ensures r.Ok? ==> pos <= r.value.1 < |toks|
    ensures r.Ok? ==> IsFactorTree(r.value.0)
    ensures r.Ok? ==> toks[r.value.1].kind !in FactorOps
    ensures r.Err? ==> ReportedAt(toks, r.error, ExpressionErrors)
    decreases |toks| - pos, 3
  {
    var next := Match(toks, pos, FactorOps);
    if next == pos then Ok((left, pos))
    else
      var operator := Previous(toks, next);
      var right :- ParseUnary(toks, next);
      FactorLoop(toks, right.1, Binary(left, operator, right.0))
  }

  /** The loop stops at the first token that is not `/` or `*`. */
  lemma {:induction false} FactorLoopStops(toks: seq<Token>, pos: nat, left: Expr)
    requires ValidCursor(toks, pos)
    requires IsFactorTree(left) && toks[pos].kind !in FactorOps
    ensures FactorLoop(toks, pos, left) == Ok((left, pos))
  {
  }

  /** Each `/`/`*` makes the tree so far the left operand of a new node. */
  lemma {:induction false} FactorLoopStep(toks: seq<Token>, pos: nat, left: Expr, right: Expr, next: nat)
    requires ValidCursor(toks, pos)
    requires IsFactorTree(left) && toks[pos].kind in FactorOps
    requires ParseUnary(toks, pos + 1) == Ok((right, next))
    ensures FactorLoop(toks, pos, left) == FactorLoop(toks, next, Binary(left, toks[pos], right))
  {
  }

  /** A successful loop of `factor` at a `/`/`*` has parsed the unary expression after it. */
  lemma {:induction false} FactorLoopOperand(toks: seq<Token>, pos: nat, left: Expr) returns (right: Expr, next: nat)
    requires ValidCursor(toks, pos)
    requires IsFactorTree(left) && toks[pos].kind in FactorOps
    requires FactorLoop(toks, pos, left).Ok?
    ensures ParseUnary(toks, pos + 1) == Ok((right, next))
    ensures FactorLoop(toks, pos, left) == FactorLoop(toks, next, Binary(left, toks[pos], right))
    ensures pos + 1 < next < |toks| && IsFactorTree(Binary(left, toks[pos], right))
  {
    var r := ParseUnary(toks, pos + 1);
    assert r.Ok?;
    right, next := r.value.0, r.value.1;
    FactorLoopStep(toks, pos, left, right, next);
  }

  // unary -> ("!" | "-") unary | primary
  function ParseUnary(toks: seq<Token>, pos: nat): (r: Parsed<Expr>)
    requires ValidCursor(toks, pos)
    ensures r.Ok? ==> pos < r.value.1 < |toks|
    ensures r.Ok? ==> toks[pos].kind in ExpressionStarts
    ensures r.Ok? ==> IsUnaryTree(r.value.0)
    ensures r.Err? ==> ReportedAt(toks, r.error, ExpressionErrors)
    decreases |toks| - pos, 2
  {
    var next := Match(toks, pos, UnaryOps);
    if next > pos then
      var operator := Previous(toks, next);
      var right :- ParseUnary(toks, next);
      Ok((Unary(operator, right.0), right.1))
    else
      ParsePrimary(toks, pos)
  }

  /** A token that is not `!` or `-` leaves `unary` to `primary`. */
  lemma {:induction false} UnaryFallsThrough(toks: seq<Token>, pos: nat)
    requires ValidCursor(toks, pos) && toks[pos].kind !in UnaryOps
    ensures ParseUnary(toks, pos) == ParsePrimary(toks, pos)
  {
  }

  /** Prefix operators nest: `!`/`-` applies to the whole unary expression after it. */
  lemma {:induction false} UnaryNests(toks: seq<Token>, pos: nat, operand: Expr, next: nat)
    requires ValidCursor(toks, pos) && toks[pos].kind in UnaryOps
    requires ParseUnary(toks, pos + 1) == Ok((operand, next))
    ensures ParseUnary(toks, pos) == Ok((Unary(toks[pos], operand), next))
  {
  }

  /** A successful `unary` at `!`/`-` has parsed the unary expression after it. */
  lemma {:induction false} UnaryOperand(toks: seq<Token>, pos: nat) returns (right: Expr, next: nat)
    requires ValidCursor(toks, pos) && toks[pos].kind in UnaryOps && ParseUnary(toks, pos).Ok?
    ensures ParseUnary(toks, pos + 1) == Ok((right, next))
    ensures ParseUnary(toks, pos) == Ok((Unary(toks[pos], right), next))
  {
    var r := ParseUnary(toks, pos + 1);
    assert r.Ok?;
    right, next := r.value.0, r.value.1;
  }

  // primary -> NUMBER | STRING | "true" | "false" | "nil" | "(" expression ")"
  function ParsePrimary(toks: seq<Token>, pos: nat): (r: Parsed<Expr>)
    requires ValidCursor(toks, pos)
    ensures r.Ok? ==> pos < r.value.1 < |toks|
    ensures r.Ok? ==> IsPrimaryTree(r.value.0) && toks[pos].kind in PrimaryStarts
    ensures r.Err? ==> ReportedAt(toks, r.error, ExpressionErrors)
    decreases |toks| - pos, 1
  {
    // `match` of a single kind is `check` followed by an `advance` of one token
    if Check(toks, pos, FalseKw) then Ok((Literal(Bool(false)), pos + 1))
    else if Check(toks, pos, TrueKw) then Ok((Literal(Bool(true)), pos + 1))
    else if Check(toks, pos, NilKw) then Ok((Literal(Nil), pos + 1))
    else if Check(toks, pos, NumberLit) || Check(toks, pos, StringLit) then
      Ok((Literal(Peek(toks, pos).literal), pos + 1))
    else if Check(toks, pos, LeftParen) then ParseGrouping(toks, pos + 1)
    else Err(ParseError(Peek(toks, pos), ExpectExpression))
  }

  /** A literal token becomes the literal it stands for. */
  lemma {:induction false} PrimaryLiteral(toks: seq<Token>, pos: nat)
    requires ValidCursor(toks, pos) && toks[pos].kind in LiteralKinds
    ensures ParsePrimary(toks, pos) == Ok((Literal(LiteralOf(toks[pos])), pos + 1))
  {
    assert !IsAtEnd(toks, pos);
  }

  /** `( e )` becomes `Grouping(e)`. */
  lemma {:induction false} PrimaryGroups(toks: seq<Token>, pos: nat, e: Expr, close: nat)
    requires ValidCursor(toks, pos) && toks[pos].kind == LeftParen
    requires ParseExpression(toks, pos + 1) == Ok((e, close)) && toks[close].kind == RightParen
    ensures ParsePrimary(toks, pos) == Ok((Grouping(e), close + 1))
  {
    assert Consume(toks, close, RightParen, ExpectRightParen) == Ok(close + 1);
    assert ParseGrouping(toks, pos + 1) == Ok((Grouping(e), close + 1));
    assert !Check(toks, pos, FalseKw) && !Check(toks, pos, TrueKw) && !Check(toks, pos, NilKw);
    assert !Check(toks, pos, NumberLit) && !Check(toks, pos, StringLit) && Check(toks, pos, LeftParen);
  }

  /** A `(` whose expression is not followed by `)` is reported at the token found instead. */
  lemma {:induction false} PrimaryUnclosed(toks: seq<Token>, pos: nat, e: Expr, close: nat)
    requires ValidCursor(toks, pos) && toks[pos].kind == LeftParen
    requires ParseExpression(toks, pos + 1) == Ok((e, close)) && toks[close].kind != RightParen
    ensures ParsePrimary(toks, pos) == Err(ParseError(toks[close], ExpectRightParen))
  {
    assert Consume(toks, close, RightParen, ExpectRightParen) == Err(ParseError(toks[close], ExpectRightParen));
    assert ParseGrouping(toks, pos + 1) == Err(ParseError(toks[close], ExpectRightParen));
    assert !Check(toks, pos, FalseKw) && !Check(toks, pos, TrueKw) && !Check(toks, pos, NilKw);
    assert !Check(toks, pos, NumberLit) && !Check(toks, pos, StringLit) && Check(toks, pos, LeftParen);
  }

  /** A successful `primary` at `(` has parsed an expression and the `)` after it. */
  lemma {:induction false} GroupingOperand(toks: seq<Token>, pos: nat) returns (inner: Expr, close: nat)
    requires ValidCursor(toks, pos) && toks[pos].kind == LeftParen && ParsePrimary(toks, pos).Ok?
    ensures ParseExpression(toks, pos + 1) == Ok((inner, close)) && toks[close].kind == RightParen
    ensures ParsePrimary(toks, pos) == Ok((Grouping(inner), close + 1))
  {
    PrimaryOpensGrouping(toks, pos);
    inner, close := GroupingSplits(toks, pos + 1);
  }

  /** At `(`, `primary` is the grouping branch. */
  lemma {:induction false} PrimaryOpensGrouping(toks: seq<Token>, pos: nat)
    requires ValidCursor(toks, pos) && toks[pos].kind == LeftParen
    ensures ParsePrimary(toks, pos) == ParseGrouping(toks, pos + 1)
  {
    assert !Check(toks, pos, FalseKw) && !Check(toks, pos, TrueKw) && !Check(toks, pos, NilKw);
    assert !Check(toks, pos, NumberLit) && !Check(toks, pos, StringLit) && Check(toks, pos, LeftParen);
  }

  /** Any token that starts no primary (EOF included) is reported as "Expect expression.". */
  lemma {:induction false} PrimaryRejects(toks: seq<Token>, pos: nat)
    requires ValidCursor(toks, pos) && toks[pos].kind !in PrimaryStarts
    ensures ParsePrimary(toks, pos) == Err(ParseError(toks[pos], ExpectExpression))
  {
  }

  /** A failure of the first `primary` of an expression not opened by `!` or `-` is the
      failure of the whole expression: every level's first step is the next level's. */
  lemma {:induction false} PrimaryErrorPropagates(toks: seq<Token>, pos: nat)
    requires ValidCursor(toks, pos) && toks[pos].kind !in UnaryOps && ParsePrimary(toks, pos).Err?
    ensures ParseExpression(toks, pos) == ParsePrimary(toks, pos)
  {
    var err := ParsePrimary(toks, pos);
    UnaryFallsThrough(toks, pos);
    assert ParseFactor(toks, pos) == err;
    assert ParseTerm(toks, pos) == err;
    assert ParseComparison(toks, pos) == err;
    assert ParseEquality(toks, pos) == err;
  }

  /** A token that starts no expression fails the whole expression right there, with the
      message `primary` reports. */
  lemma {:induction false} ExpressionRejects(toks: seq<Token>, pos: nat)
    requires ValidCursor(toks, pos) && toks[pos].kind !in ExpressionStarts
    ensures ParseExpression(toks, pos) == Err(ParseError(toks[pos], ExpectExpression))
  {
    PrimaryRejects(toks, pos);
    PrimaryErrorPropagates(toks, pos);
  }

  /** The `"(" expression ")"` branch of `primary`, after the consumed `(`. */
  function ParseGrouping(toks: seq<Token>, pos: nat): (r: Parsed<Expr>)
    requires ValidCursor(toks, pos)
    ensures r.Ok? ==> pos < r.value.1 < |toks| && toks[r.value.1 - 1].kind == RightParen
    ensures r.Ok? ==> r.value.0.Grouping? && IsPrimaryTree(r.value.0)
    ensures r.Err? ==> ReportedAt(toks, r.error, ExpressionErrors)
    decreases |toks| - pos, 8
  {
    var inner :- ParseExpression(toks, pos);
    var next :- Consume(toks, inner.1, RightParen, ExpectRightParen);
    Ok((Grouping(inner.0), next))
  }

  /** A successful grouping has parsed an expression and the `)` after it. */
  lemma {:induction false} GroupingSplits(toks: seq<Token>, pos: nat) returns (inner: Expr, close: nat)
    requires ValidCursor(toks, pos) && ParseGrouping(toks, pos).Ok?
    ensures ParseExpression(toks, pos) == Ok((inner, close)) && toks[close].kind == RightParen
    ensures ParseGrouping(toks, pos) == Ok((Grouping(inner), close + 1))
  {
    var r := ParseExpression(toks, pos);
    assert r.Ok?;
    inner, close := r.value.0, r.value.1;
    assert Consume(toks, close, RightParen, ExpectRightParen).Ok?;
  }

  // statement -> printStmt | exprStmt
  function ParseStatement(toks: seq<Token>, pos: nat): (r: Parsed<Stmt>)
    requires ValidCursor(toks, pos)
    ensures r.Ok? ==> pos < r.value.1 < |toks| && toks[r.value.1 - 1].kind == Semicolon
    ensures r.Ok? ==> IsParsedStmt(r.value.0)
    ensures r.Ok? ==> (r.value.0.Print? <==> toks[pos].kind == PrintKw)
    ensures r.Err? ==> ReportedAt(toks, r.error, StatementErrors)
  {
    var next := Match(toks, pos, [PrintKw]);
    if next > pos then ParsePrintStatement(toks, next)
    else ParseExpressionStatement(toks, pos)
  }

  /** `statement` dispatches on a leading `print` and nothing else. */
  lemma {:induction false} StatementDispatch(toks: seq<Token>, pos: nat)
    requires ValidCursor(toks, pos)
    ensures toks[pos].kind == PrintKw ==> ParseStatement(toks, pos) == ParsePrintStatement(toks, pos + 1)
    ensures toks[pos].kind != PrintKw ==> ParseStatement(toks, pos) == ParseExpressionStatement(toks, pos)
  {
  }

  // printStmt -> expression ";"   (after the consumed "print")
  function ParsePrintStatement(toks: seq<Token>, pos: nat): (r: Parsed<Stmt>)
    requires ValidCursor(toks, pos)
    ensures r.Ok? ==> pos < r.value.1 < |toks| && toks[r.value.1 - 1].kind == Semicolon
    ensures r.Ok? ==> r.value.0.Print? && IsParsedStmt(r.value.0)
    ensures r.Err? ==> ReportedAt(toks, r.error, StatementErrors)
  {
    var value :- ParseExpression(toks, pos);
    var next :- Consume(toks, value.1, Semicolon, ExpectSemicolon);
    Ok((Print(value.0), next))
  }

  /** `print e` followed by `;` is a print statement; anything else after `e` is reported
      at that token as a missing semicolon. */
  lemma {:induction false} PrintStatementEnds(toks: seq<Token>, pos: nat, e: Expr, q: nat)
    requires ValidCursor(toks, pos) && ParseExpression(toks, pos) == Ok((e, q))
    ensures toks[q].kind == Semicolon ==> ParsePrintStatement(toks, pos) == Ok((Print(e), q + 1))
    ensures toks[q].kind != Semicolon ==>
      ParsePrintStatement(toks, pos) == Err(ParseError(toks[q], ExpectSemicolon))
  {
  }

  // exprStmt -> expression ";"
  function ParseExpressionStatement(toks: seq<Token>, pos: nat): (r: Parsed<Stmt>)
    requires ValidCursor(toks, pos)
    ensures r.Ok? ==> pos < r.value.1 < |toks| && toks[r.value.1 - 1].kind == Semicolon
    ensures r.Ok? ==> r.value.0.Expression? && IsParsedStmt(r.value.0)
    ensures r.Err? ==> ReportedAt(toks, r.error, StatementErrors)
  {
    var expr :- ParseExpression(toks, pos);
    var next :- Consume(toks, expr.1, Semicolon, ExpectSemicolon);
    Ok((Expression(expr.0), next))
  }

  /** The same for an expression statement. */
  lemma {:induction false} ExpressionStatementEnds(toks: seq<Token>, pos: nat, e: Expr, q: nat)
    requires ValidCursor(toks, pos) && ParseExpression(toks, pos) == Ok((e, q))
    ensures toks[q].kind == Semicolon ==> ParseExpressionStatement(toks, pos) == Ok((Expression(e), q + 1))
    ensures toks[q].kind != Semicolon ==>
      ParseExpressionStatement(toks, pos) == Err(ParseError(toks[q], ExpectSemicolon))
  {
  }

  /** An expression followed by `;` is an expression statement: no expression starts
      with `print` or EOF. */
  lemma {:induction false} ExpressionStatementParsed(toks: seq<Token>, pos: nat, e: Expr, q: nat)
    requires ValidCursor(toks, pos)
    requires ParseExpression(toks, pos) == Ok((e, q)) && toks[q].kind == Semicolon
    ensures !IsAtEnd(toks, pos)
    ensures ParseStatement(toks, pos) == Ok((Expression(e), q + 1))
  {
    var k := toks[pos].kind;
    assert k != PrintKw && k != Eof by {
      assert k in ExpressionStarts;
    }
    ExpressionStatementEnds(toks, pos, e, q);
    StatementDispatch(toks, pos);
  }

  /** A successful statement has parsed an expression, after the `print` if there is one,
      and the `;` after it. */
  lemma {:induction false} StatementOperand(toks: seq<Token>, pos: nat) returns (e: Expr, semi: nat)
    requires ValidCursor(toks, pos) && ParseStatement(toks, pos).Ok?
    ensures toks[pos].kind == PrintKw ==> pos + 1 < |toks| && ParseExpression(toks, pos + 1) == Ok((e, semi))
    ensures toks[pos].kind != PrintKw ==> ParseExpression(toks, pos) == Ok((e, semi))
    ensures semi < |toks| && toks[semi].kind == Semicolon
    ensures ParseStatement(toks, pos) == Ok((if toks[pos].kind == PrintKw then Print(e) else Expression(e), semi + 1))
  {
    StatementDispatch(toks, pos);
    var start := if toks[pos].kind == PrintKw then pos + 1 else pos;
    var r := ParseExpression(toks, start);
    assert r.Ok?;
    e, semi := r.value.0, r.value.1;
    if toks[pos].kind == PrintKw {
      PrintStatementEnds(toks, start, e, semi);
    } else {
      ExpressionStatementEnds(toks, start, e, semi);
    }
  }

  /** The `while (!isAtEnd())` loop of `parse`: statements in source order up to EOF.
      There is no recovery: the first syntax error is the result. */
  function ParseFrom(toks: seq<Token>, pos: nat): (r: Result<seq<Stmt>, ParseError>)
    requires ValidCursor(toks, pos)
    ensures IsAtEnd(toks, pos) ==> r == Ok([])
    ensures r.Ok? ==> forall i :: 0 <= i < |r.value| ==> IsParsedStmt(r.value[i])
    ensures r.Err? ==> ReportedAt(toks, r.error, StatementErrors)
    decreases |toks| - pos
  {
    if IsAtEnd(toks, pos) then Ok([])
    else
      var first :- ParseStatement(toks, pos);
      var rest :- ParseFrom(toks, first.1);
      Ok([first.0] + rest)
  }

  /** A parsed statement is followed by the statements parsed after it, or by their error. */
  lemma {:induction false} ParseFromStep(toks: seq<Token>, pos: nat, s: Stmt, next: nat)
    requires ValidCursor(toks, pos) && !IsAtEnd(toks, pos)
    requires ParseStatement(toks, pos) == Ok((s, next))
    ensures ParseFrom(toks, next).Ok? ==> ParseFrom(toks, pos) == Ok([s] + ParseFrom(toks, next).value)
    ensures ParseFrom(toks, next).Err? ==> ParseFrom(toks, pos) == ParseFrom(toks, next)
  {
  }

  /** A successful `parse` from a token other than EOF has parsed a first statement and
      the rest after it. */
  lemma {:induction false} ParseFromSplits(toks: seq<Token>, pos: nat) returns (s: Stmt, next: nat, rest: seq<Stmt>)
    requires ValidCursor(toks, pos) && !IsAtEnd(toks, pos) && ParseFrom(toks, pos).Ok?
    ensures ParseStatement(toks, pos) == Ok((s, next)) && next < |toks|
    ensures ParseFrom(toks, next) == Ok(rest) && ParseFrom(toks, pos) == Ok([s] + rest)
  {
    var r := ParseStatement(toks, pos);
    assert r.Ok?;
    s, next := r.value.0, r.value.1;
    rest := ParseFrom(toks, next).value;
  }

  /** The first statement that fails to parse is the result: nothing after it is parsed. */
  lemma {:induction false} ParseFromAborts(toks: seq<Token>, pos: nat)
    requires ValidCursor(toks, pos) && !IsAtEnd(toks, pos)
    requires ParseStatement(toks, pos).Err?
    ensures ParseFrom(toks, pos) == Err(ParseStatement(toks, pos).error)
  {
  }

  /** An expression statement whose expression fails ends the program with that error. */
  lemma {:induction false} ExpressionErrorAborts(toks: seq<Token>, pos: nat)
    requires ValidCursor(toks, pos) && toks[pos].kind != PrintKw && toks[pos].kind != Eof
    requires ParseExpression(toks, pos).Err?
    ensures ParseFrom(toks, pos) == Err(ParseExpression(toks, pos).error)
  {
    StatementDispatch(toks, pos);
    ParseFromAborts(toks, pos);
  }

  /** A statement opened by a `(` whose expression is not followed by `)` ends the program
      with "Expect ')' after expression." at the token found instead. */
  lemma {:induction false} UnclosedGroupingAborts(toks: seq<Token>, pos: nat, e: Expr, close: nat)
    requires ValidCursor(toks, pos) && toks[pos].kind == LeftParen
    requires ParseExpression(toks, pos + 1) == Ok((e, close)) && toks[close].kind != RightParen
    ensures ParseFrom(toks, pos) == Err(ParseError(toks[close], ExpectRightParen))
  {
    PrimaryUnclosed(toks, pos, e, close);
    PrimaryErrorPropagates(toks, pos);
    ExpressionErrorAborts(toks, pos);
  }

  /** Parses a whole token sequence; the only statements it yields are `print` and
      expression statements, and a sequence holding only EOF yields none. */
  function Parse(toks: seq<Token>): (r: Result<seq<Stmt>, ParseError>)
    requires WellFormed(toks)
    ensures |toks| == 1 ==> r == Ok([])
    ensures r.Ok? ==> forall i :: 0 <= i < |r.value| ==> IsParsedStmt(r.value[i])
    ensures r.Err? ==> ReportedAt(toks, r.error, StatementErrors)
  {
    ParseFrom(toks, 0)
  }

  /** True where panic-mode recovery may resume: at EOF, just after a `;`, or before a
      keyword that starts a statement. */
  predicate AtBoundary(toks: seq<Token>, q: nat)
    requires 0 < q < |toks|
  {
    IsAtEnd(toks, q) || toks[q - 1].kind == Semicolon || toks[q].kind in StatementStarts
  }

  /** Discards tokens up to the next statement boundary: it always steps over the current
      token unless it is EOF, then stops at the first boundary. */
  method Synchronize(toks: seq<Token>, pos: nat) returns (r: nat)
    requires ValidCursor(toks, pos)
    requires 0 < pos || !IsAtEnd(toks, pos)
    ensures r < |toks|
    ensures IsAtEnd(toks, pos) ==> r == pos
    ensures !IsAtEnd(toks, pos) ==>
              pos < r && AtBoundary(toks, r)
              && forall q :: pos < q < r ==> !AtBoundary(toks, q)
  {
    r := Advance(toks, pos).0;
    while !IsAtEnd(toks, r)
      invariant pos <= r < |toks|
      invariant IsAtEnd(toks, pos) ==> r == pos
      invariant !IsAtEnd(toks, pos) ==> pos < r && forall q :: pos < q < r ==> !AtBoundary(toks, q)
      decreases |toks| - r
    {
      if Previous(toks, r).kind == Semicolon {
        return;
      }
      if Peek(toks, r).kind in StatementStarts {
        return;
      }
      r := Advance(toks, r).0;
    }
  }
}
