/** Parsing inverts `Flatten`: every tree of the right shape for a precedence level is
    what that level's production builds from the tree's own tokens, and a statement list
    is parsed back in source order. Together with the shape guarantees in the productions'
    contracts, this pins down how precedence and associativity shape the parse tree. */
module ParserRoundTrip {
  import opened Results
  import opened Tokens
  import opened Ast
  import opened Grammar
  import opened Parser

  /** The number of tokens `Flatten` writes for `e`. */
  function Size(e: Expr): nat {
    match e
    case Literal(_) => 1
    case Grouping(inner) => Size(inner) + 2
    case Unary(_, right) => Size(right) + 1
    case Binary(left, _, right) => Size(left) + 1 + Size(right)
  }

  /** The tokens from `pos` on are those of `e`, as far as the parser looks at them. */
  ghost predicate At(toks: seq<Token>, pos: nat, e: Expr)
    decreases e
  {
    pos + Size(e) <= |toks| &&
    match e
    case Literal(v) => toks[pos].kind in LiteralKinds && LiteralOf(toks[pos]) == v
    case Grouping(inner) =>
      toks[pos].kind == LeftParen && At(toks, pos + 1, inner)
      && toks[pos + 1 + Size(inner)].kind == RightParen
    case Unary(op, right) => toks[pos] == op && At(toks, pos + 1, right)
    case Binary(left, op, right) =>
      At(toks, pos, left) && toks[pos + Size(left)] == op
      && At(toks, pos + Size(left) + 1, right)
  }

  /** The tokens of `e` stand at `pos` in `toks`, and some token follows them. */
  ghost predicate Framed(toks: seq<Token>, pos: nat, e: Expr) {
    WellFormed(toks) && pos + Size(e) < |toks| && At(toks, pos, e)
  }

  function End(pos: nat, e: Expr): nat {
    pos + Size(e)
  }

  /** Splits a framed binary node at its operator, which stands at `mid`. */
  lemma FramedBinary(toks: seq<Token>, pos: nat, e: Expr) returns (mid: nat)
    requires e.Binary? && Framed(toks, pos, e)
    ensures mid == End(pos, e.left) && Framed(toks, pos, e.left)
    ensures mid < |toks| && toks[mid] == e.operator
    ensures Framed(toks, mid + 1, e.right) && End(mid + 1, e.right) == End(pos, e)
  {
    mid := End(pos, e.left);
  }

  lemma FramedUnary(toks: seq<Token>, pos: nat, e: Expr)
    requires e.Unary? && Framed(toks, pos, e)
    ensures toks[pos] == e.operator
    ensures Framed(toks, pos + 1, e.right) && End(pos + 1, e.right) == End(pos, e)
  {
  }

  /** Splits a framed grouping into its parentheses, the closing one at `close`. */
  lemma FramedGrouping(toks: seq<Token>, pos: nat, e: Expr) returns (close: nat)
    requires e.Grouping? && Framed(toks, pos, e)
    ensures toks[pos].kind == LeftParen
    ensures Framed(toks, pos + 1, e.expression) && close == End(pos + 1, e.expression)
    ensures close < |toks| && toks[close].kind == RightParen && close + 1 == End(pos, e)
  {
    close := End(pos + 1, e.expression);
  }

  lemma FramedLiteral(toks: seq<Token>, pos: nat, e: Expr)
    requires e.Literal? && Framed(toks, pos, e)
    ensures toks[pos].kind in LiteralKinds && LiteralOf(toks[pos]) == e.value
    ensures End(pos, e) == pos + 1
  {
  }

  lemma LiteralRoundTrip(toks: seq<Token>, pos: nat, e: Expr)
    requires e.Literal? && Framed(toks, pos, e)
    ensures ParsePrimary(toks, pos) == Ok((e, End(pos, e)))
  {
    FramedLiteral(toks, pos, e);
    PrimaryLiteral(toks, pos);
    assert Literal(LiteralOf(toks[pos])) == e;
  }

  lemma {:induction false} GroupingRoundTrip(toks: seq<Token>, pos: nat, inner: Expr)
    requires IsEqualityTree(inner) && Framed(toks, pos, Grouping(inner))
    ensures ParsePrimary(toks, pos) == Ok((Grouping(inner), End(pos, Grouping(inner))))
    decreases inner, 15
  {
    var close := FramedGrouping(toks, pos, Grouping(inner));
    ExpressionRoundTrip(toks, pos + 1, inner);
    assert ParseExpression(toks, pos + 1) == Ok((inner, close));
    PrimaryGroups(toks, pos, inner, close);
    assert ParsePrimary(toks, pos) == Ok((Grouping(inner), close + 1));
  }

  lemma {:induction false} PrimaryRoundTrip(toks: seq<Token>, pos: nat, e: Expr)
    requires IsPrimaryTree(e) && Framed(toks, pos, e)
    ensures ParsePrimary(toks, pos) == Ok((e, End(pos, e)))
    decreases e, 1
  {
    if e.Literal? {
      LiteralRoundTrip(toks, pos, e);
    } else {
      GroupingRoundTrip(toks, pos, e.expression);
    }
  }

  lemma {:induction false} UnaryRoundTrip(toks: seq<Token>, pos: nat, e: Expr)
    requires IsUnaryTree(e) && Framed(toks, pos, e)
    ensures ParseUnary(toks, pos) == Ok((e, End(pos, e)))
    decreases e, 2
  {
    if e.Unary? {
      FramedUnary(toks, pos, e);
      UnaryRoundTrip(toks, pos + 1, e.right);
      UnaryNests(toks, pos, e.right, End(pos, e));
    } else {
      if e.Literal? {
        FramedLiteral(toks, pos, e);
      } else {
        var _ := FramedGrouping(toks, pos, e);
      }
      UnaryFallsThrough(toks, pos);
      PrimaryRoundTrip(toks, pos, e);
    }
  }

  /** Parsing a factor tree that may be followed by more `*` or `/` leaves the loop
      of `factor` to continue from the whole tree. */
  lemma {:induction false} FactorPrefix(toks: seq<Token>, pos: nat, e: Expr)
    requires IsFactorTree(e) && Framed(toks, pos, e)
    ensures ParseFactor(toks, pos) == FactorLoop(toks, End(pos, e), e)
    decreases e, 5
  {
    if IsUnaryTree(e) {
      UnaryRoundTrip(toks, pos, e);
      FactorBegins(toks, pos, e, End(pos, e));
    } else {
      FactorNode(e);
      FactorNodePrefix(toks, pos, e);
    }
  }

  /** A `/`/`*` node: the loop has already consumed its left operand. */
  lemma {:induction false} FactorNodePrefix(toks: seq<Token>, pos: nat, e: Expr)
    requires e.Binary? && e.operator.kind in FactorOps && IsFactorTree(e.left) && IsUnaryTree(e.right)
    requires IsFactorTree(e) && Framed(toks, pos, e)
    ensures ParseFactor(toks, pos) == FactorLoop(toks, End(pos, e), e)
    decreases e, 4
  {
    var mid := FramedBinary(toks, pos, e);
    FactorPrefix(toks, pos, e.left);
    FactorOperand(toks, mid, e.left, e.right);
    assert Binary(e.left, toks[mid], e.right) == e;
  }

  /** The loop of `factor` at an operator takes the framed unary expression after it. */
  lemma {:induction false} FactorOperand(toks: seq<Token>, mid: nat, left: Expr, right: Expr)
    requires ValidCursor(toks, mid) && toks[mid].kind in FactorOps && IsFactorTree(left)
    requires IsUnaryTree(right) && Framed(toks, mid + 1, right)
    ensures FactorLoop(toks, mid, left) == FactorLoop(toks, End(mid + 1, right), Binary(left, toks[mid], right))
    decreases right, 3
  {
    UnaryRoundTrip(toks, mid + 1, right);
    FactorLoopStep(toks, mid, left, right, End(mid + 1, right));
  }

  lemma {:induction false} FactorRoundTrip(toks: seq<Token>, pos: nat, e: Expr)
    requires IsFactorTree(e) && Framed(toks, pos, e)
    requires toks[End(pos, e)].kind !in FactorOps
    ensures ParseFactor(toks, pos) == Ok((e, End(pos, e)))
    decreases e, 6
  {
    FactorPrefix(toks, pos, e);
    FactorLoopStops(toks, End(pos, e), e);
  }

  lemma {:induction false} TermRoundTrip(toks: seq<Token>, pos: nat, e: Expr)
    requires IsTermTree(e) && Framed(toks, pos, e)
    requires toks[End(pos, e)].kind !in TermStop
    ensures ParseTerm(toks, pos) == Ok((e, End(pos, e)))
    decreases e, 8
  {
    if IsFactorTree(e) {
      FactorRoundTrip(toks, pos, e);
      TermBegins(toks, pos, e, End(pos, e));
      TermLoopStops(toks, End(pos, e), e);
    } else {
      TermNode(e);
      TermNodeRoundTrip(toks, pos, e);
    }
  }

  /** A `-`/`+` node: its left operand is a factor and its right operand a whole term. */
  lemma {:induction false} TermNodeRoundTrip(toks: seq<Token>, pos: nat, e: Expr)
    requires e.Binary? && e.operator.kind in TermOps && IsFactorTree(e.left) && IsTermTree(e.right)
    requires IsTermTree(e) && Framed(toks, pos, e)
    requires toks[End(pos, e)].kind !in TermStop
    ensures ParseTerm(toks, pos) == Ok((e, End(pos, e)))
    decreases e, 7
  {
    var mid := FramedBinary(toks, pos, e);
    FactorRoundTrip(toks, pos, e.left);
    TermBegins(toks, pos, e.left, mid);
    TermRoundTrip(toks, mid + 1, e.right);
    TermLoopOnce(toks, mid, e.left, e.right, End(mid + 1, e.right));
    assert Binary(e.left, toks[mid], e.right) == e;
  }

  lemma {:induction false} ComparisonPrefix(toks: seq<Token>, pos: nat, e: Expr)
    requires IsComparisonTree(e) && Framed(toks, pos, e)
    requires toks[End(pos, e)].kind !in TermStop
    ensures ParseComparison(toks, pos) == ComparisonLoop(toks, End(pos, e), e)
    decreases e, 10
  {
    if IsTermTree(e) {
      TermRoundTrip(toks, pos, e);
      ComparisonBegins(toks, pos, e, End(pos, e));
    } else {
      ComparisonNode(e);
      ComparisonNodePrefix(toks, pos, e);
    }
  }

  lemma {:induction false} ComparisonNodePrefix(toks: seq<Token>, pos: nat, e: Expr)
    requires e.Binary? && e.operator.kind in ComparisonOps && IsComparisonTree(e.left) && IsTermTree(e.right)
    requires IsComparisonTree(e) && Framed(toks, pos, e)
    requires toks[End(pos, e)].kind !in TermStop
    ensures ParseComparison(toks, pos) == ComparisonLoop(toks, End(pos, e), e)
    decreases e, 9
  {
    var mid := FramedBinary(toks, pos, e);
    ComparisonPrefix(toks, pos, e.left);
    TermRoundTrip(toks, mid + 1, e.right);
    ComparisonLoopStep(toks, mid, e.left, e.right, End(mid + 1, e.right));
    assert Binary(e.left, toks[mid], e.right) == e;
  }

  lemma {:induction false} ComparisonRoundTrip(toks: seq<Token>, pos: nat, e: Expr)
    requires IsComparisonTree(e) && Framed(toks, pos, e)
    requires toks[End(pos, e)].kind !in ComparisonStop
    ensures ParseComparison(toks, pos) == Ok((e, End(pos, e)))
    decreases e, 11
  {
    ComparisonPrefix(toks, pos, e);
    ComparisonLoopStops(toks, End(pos, e), e);
  }

  lemma {:induction false} EqualityPrefix(toks: seq<Token>, pos: nat, e: Expr)
    requires IsEqualityTree(e) && Framed(toks, pos, e)
    requires toks[End(pos, e)].kind !in ComparisonStop
    ensures ParseEquality(toks, pos) == EqualityLoop(toks, End(pos, e), e)
    decreases e, 13
  {
    if IsComparisonTree(e) {
      ComparisonRoundTrip(toks, pos, e);
      EqualityBegins(toks, pos, e, End(pos, e));
    } else {
      EqualityNode(e);
      EqualityNodePrefix(toks, pos, e);
    }
  }

  lemma {:induction false} EqualityNodePrefix(toks: seq<Token>, pos: nat, e: Expr)
    requires e.Binary? && e.operator.kind in EqualityOps && IsEqualityTree(e.left) && IsComparisonTree(e.right)
    requires IsEqualityTree(e) && Framed(toks, pos, e)
    requires toks[End(pos, e)].kind !in ComparisonStop
    ensures ParseEquality(toks, pos) == EqualityLoop(toks, End(pos, e), e)
    decreases e, 12
  {
    var mid := FramedBinary(toks, pos, e);
    EqualityPrefix(toks, pos, e.left);
    ComparisonRoundTrip(toks, mid + 1, e.right);
    EqualityLoopStep(toks, mid, e.left, e.right, End(mid + 1, e.right));
    assert Binary(e.left, toks[mid], e.right) == e;
  }

  /** A well-shaped expression followed by a token that continues no operator chain is
      parsed back to itself, consuming exactly its own tokens. */
  lemma {:induction false} ExpressionRoundTrip(toks: seq<Token>, pos: nat, e: Expr)
    requires IsEqualityTree(e) && Framed(toks, pos, e)
    requires toks[End(pos, e)].kind !in BinaryOps
    ensures ParseExpression(toks, pos) == Ok((e, End(pos, e)))
    decreases e, 14
  {
    EqualityPrefix(toks, pos, e);
    EqualityLoopStops(toks, End(pos, e), e);
  }

  // ----- statements and programs -----

  /** The number of tokens `FlattenStmt` writes for `s`. */
  function StmtSize(s: Stmt): nat
    requires IsParsedStmt(s)
  {
    if s.Print? then Size(s.expression) + 2 else Size(s.expression) + 1
  }

  function StmtEnd(pos: nat, s: Stmt): nat
    requires IsParsedStmt(s)
  {
    pos + StmtSize(s)
  }

  /** The tokens from `pos` on are those of statement `s`, ending in its `;`. */
  ghost predicate StmtAt(toks: seq<Token>, pos: nat, s: Stmt)
    requires IsParsedStmt(s)
  {
    pos + StmtSize(s) <= |toks| &&
    if s.Print? then
      toks[pos].kind == PrintKw && At(toks, pos + 1, s.expression)
      && toks[pos + 1 + Size(s.expression)].kind == Semicolon
    else
      At(toks, pos, s.expression) && toks[pos + Size(s.expression)].kind == Semicolon
  }

  ghost predicate StmtFramed(toks: seq<Token>, pos: nat, s: Stmt) {
    WellFormed(toks) && IsParsedStmt(s) && pos + StmtSize(s) < |toks| && StmtAt(toks, pos, s)
  }

  /** Splits a framed `print` statement; its `;` stands at `semi`. */
  lemma FramedPrint(toks: seq<Token>, pos: nat, s: Stmt) returns (semi: nat)
    requires s.Print? && StmtFramed(toks, pos, s)
    ensures toks[pos].kind == PrintKw && IsEqualityTree(s.expression)
    ensures Framed(toks, pos + 1, s.expression) && semi == End(pos + 1, s.expression)
    ensures semi < |toks| && toks[semi].kind == Semicolon && semi + 1 == StmtEnd(pos, s)
  {
    semi := End(pos + 1, s.expression);
  }

  /** Splits a framed expression statement; its `;` stands at `semi`. */
  lemma FramedExpressionStmt(toks: seq<Token>, pos: nat, s: Stmt) returns (semi: nat)
    requires s.Expression? && StmtFramed(toks, pos, s)
    ensures IsEqualityTree(s.expression)
    ensures Framed(toks, pos, s.expression) && semi == End(pos, s.expression)
    ensures semi < |toks| && toks[semi].kind == Semicolon && semi + 1 == StmtEnd(pos, s)
  {
    semi := End(pos, s.expression);
  }

  /** A statement is parsed back from its own tokens, up to and including its `;`. */
  lemma {:induction false} StatementRoundTrip(toks: seq<Token>, pos: nat, s: Stmt)
    requires StmtFramed(toks, pos, s)
    ensures !IsAtEnd(toks, pos)
    ensures ParseStatement(toks, pos) == Ok((s, StmtEnd(pos, s)))
  {
    if s.Print? {
      PrintRoundTrip(toks, pos, s);
    } else {
      ExpressionStmtRoundTrip(toks, pos, s);
    }
  }

  /** The `print` case of `StatementRoundTrip`. */
  lemma {:induction false} PrintRoundTrip(toks: seq<Token>, pos: nat, s: Stmt)
    requires s.Print? && StmtFramed(toks, pos, s)
    ensures !IsAtEnd(toks, pos)
    ensures ParseStatement(toks, pos) == Ok((s, StmtEnd(pos, s)))
  {
    var semi := FramedPrint(toks, pos, s);
    ExpressionRoundTrip(toks, pos + 1, s.expression);
    PrintStatementEnds(toks, pos + 1, s.expression, semi);
    StatementDispatch(toks, pos);
  }

  /** The expression-statement case of `StatementRoundTrip`. */
  lemma {:induction false} ExpressionStmtRoundTrip(toks: seq<Token>, pos: nat, s: Stmt)
    requires s.Expression? && StmtFramed(toks, pos, s)
    ensures !IsAtEnd(toks, pos)
    ensures ParseStatement(toks, pos) == Ok((s, StmtEnd(pos, s)))
  {
    var semi := FramedExpressionStmt(toks, pos, s);
    ExpressionRoundTrip(toks, pos, s.expression);
    ExpressionStatementParsed(toks, pos, s.expression, semi);
  }

  predicate AllParsed(ss: seq<Stmt>) {
    forall i :: 0 <= i < |ss| ==> IsParsedStmt(ss[i])
  }

  /** The number of tokens `FlattenStmts` writes for `ss`. */
  function StmtsSize(ss: seq<Stmt>): nat
    requires AllParsed(ss)
  {
    if |ss| == 0 then 0 else StmtSize(ss[0]) + StmtsSize(ss[1..])
  }

  /** The tokens from `pos` on are those of the statements `ss`, one after another. */
  ghost predicate StmtsAt(toks: seq<Token>, pos: nat, ss: seq<Stmt>)
    requires AllParsed(ss)
    decreases |ss|
  {
    |ss| == 0 || (StmtAt(toks, pos, ss[0]) && StmtsAt(toks, pos + StmtSize(ss[0]), ss[1..]))
  }

  /** The tokens of `ss` stand at `pos` and are followed by EOF. */
  ghost predicate ProgramFramed(toks: seq<Token>, pos: nat, ss: seq<Stmt>) {
    WellFormed(toks) && AllParsed(ss) && pos + StmtsSize(ss) < |toks|
    && StmtsAt(toks, pos, ss) && toks[pos + StmtsSize(ss)].kind == Eof
  }

  /** Splits a framed program after its first statement, which ends at `next`. */
  lemma FramedFirst(toks: seq<Token>, pos: nat, ss: seq<Stmt>) returns (next: nat)
    requires 0 < |ss| && ProgramFramed(toks, pos, ss)
    ensures StmtFramed(toks, pos, ss[0]) && next == StmtEnd(pos, ss[0])
    ensures ProgramFramed(toks, next, ss[1..])
  {
    next := StmtEnd(pos, ss[0]);
  }

  /** A list of statements followed by EOF is parsed back to itself, in order. */
  lemma {:induction false} ProgramRoundTrip(toks: seq<Token>, pos: nat, ss: seq<Stmt>)
    requires ProgramFramed(toks, pos, ss)
    ensures ParseFrom(toks, pos) == Ok(ss)
    decreases |ss|
  {
    if |ss| == 0 {
      assert IsAtEnd(toks, pos);
    } else {
      var next := FramedFirst(toks, pos, ss);
      ProgramRoundTrip(toks, next, ss[1..]);
      ProgramCons(toks, pos, ss, next);
    }
  }

  /** One step of `ProgramRoundTrip`: the first statement, then the rest as parsed. */
  lemma {:induction false} ProgramCons(toks: seq<Token>, pos: nat, ss: seq<Stmt>, next: nat)
    requires 0 < |ss| && StmtFramed(toks, pos, ss[0]) && next == StmtEnd(pos, ss[0])
    requires next < |toks| && ParseFrom(toks, next) == Ok(ss[1..])
    ensures ParseFrom(toks, pos) == Ok(ss)
  {
    StatementRoundTrip(toks, pos, ss[0]);
    ParseFromStep(toks, pos, ss[0], next);
    assert [ss[0]] + ss[1..] == ss;
  }

  /** A program of one statement: its tokens, then EOF. */
  lemma {:induction false} SingleStatementProgram(toks: seq<Token>, s: Stmt)
    requires IsParsedStmt(s) && WellFormed(toks) && |toks| == StmtSize(s) + 1 && StmtAt(toks, 0, s)
    ensures Parse(toks) == Ok([s])
  {
    assert [s][1..] == [];
    assert StmtsSize([s]) == StmtSize(s);
    assert StmtsAt(toks, 0, [s]);
    ProgramRoundTrip(toks, 0, [s]);
  }

  /** A program of two statements: the tokens of one, then the other's, then EOF. */
  lemma {:induction false} TwoStatementProgram(toks: seq<Token>, s: Stmt, t: Stmt)
    requires IsParsedStmt(s) && IsParsedStmt(t) && WellFormed(toks)
    requires |toks| == StmtSize(s) + StmtSize(t) + 1
    requires StmtAt(toks, 0, s) && StmtAt(toks, StmtSize(s), t)
    ensures Parse(toks) == Ok([s, t])
  {
    var next := StmtSize(s);
    assert [t][1..] == [];
    assert StmtsSize([t]) == StmtSize(t);
    assert StmtsAt(toks, next, [t]);
    ProgramRoundTrip(toks, next, [t]);
    assert [s, t][1..] == [t];
    ProgramCons(toks, 0, [s, t], next);
  }

  // ----- from token lists to framing -----

  /** `toks` holds exactly `f` from `pos` on. */
  ghost predicate Spells(toks: seq<Token>, pos: nat, f: seq<Token>) {
    pos + |f| <= |toks| && toks[pos..pos + |f|] == f
  }

  lemma SpellsSplit(toks: seq<Token>, pos: nat, a: seq<Token>, b: seq<Token>)
    requires Spells(toks, pos, a + b)
    ensures Spells(toks, pos, a) && Spells(toks, pos + |a|, b)
  {
    var whole := toks[pos..pos + |a| + |b|];
    assert toks[pos..pos + |a|] == whole[..|a|];
    assert toks[pos + |a|..pos + |a| + |b|] == whole[|a|..];
  }

  lemma SpellsOne(toks: seq<Token>, pos: nat, t: Token)
    requires Spells(toks, pos, [t])
    ensures pos < |toks| && toks[pos] == t
  {
    assert toks[pos..pos + 1][0] == toks[pos];
  }

  /** Splits the tokens of a binary node at its operator, which stands at `mid`. */
  lemma SpellsBinary(toks: seq<Token>, pos: nat, e: Expr) returns (mid: nat)
    requires e.Binary? && Spells(toks, pos, Flatten(e))
    ensures Spells(toks, pos, Flatten(e.left)) && mid == pos + |Flatten(e.left)|
    ensures mid < |toks| && toks[mid] == e.operator && Spells(toks, mid + 1, Flatten(e.right))
    ensures |Flatten(e)| == |Flatten(e.left)| + 1 + |Flatten(e.right)|
  {
    SpellsSplit(toks, pos, Flatten(e.left) + [e.operator], Flatten(e.right));
    SpellsSplit(toks, pos, Flatten(e.left), [e.operator]);
    mid := pos + |Flatten(e.left)|;
    SpellsOne(toks, mid, e.operator);
  }

  lemma SpellsUnary(toks: seq<Token>, pos: nat, e: Expr)
    requires e.Unary? && Spells(toks, pos, Flatten(e))
    ensures pos < |toks| && toks[pos] == e.operator && Spells(toks, pos + 1, Flatten(e.right))
    ensures |Flatten(e)| == 1 + |Flatten(e.right)|
  {
    SpellsSplit(toks, pos, [e.operator], Flatten(e.right));
    SpellsOne(toks, pos, e.operator);
  }

  /** Splits the tokens of a grouping; its closing parenthesis stands at `close`. */
  lemma SpellsGrouping(toks: seq<Token>, pos: nat, e: Expr) returns (close: nat)
    requires e.Grouping? && Spells(toks, pos, Flatten(e))
    ensures pos < |toks| && toks[pos].kind == LeftParen
    ensures Spells(toks, pos + 1, Flatten(e.expression)) && close == pos + 1 + |Flatten(e.expression)|
    ensures close < |toks| && toks[close].kind == RightParen
    ensures |Flatten(e)| == |Flatten(e.expression)| + 2
  {
    var open, closing := MakeToken(LeftParen, "("), MakeToken(RightParen, ")");
    SpellsSplit(toks, pos, [open] + Flatten(e.expression), [closing]);
    SpellsSplit(toks, pos, [open], Flatten(e.expression));
    SpellsOne(toks, pos, open);
    close := pos + 1 + |Flatten(e.expression)|;
    SpellsOne(toks, close, closing);
  }

  lemma AtBinary(toks: seq<Token>, pos: nat, e: Expr, mid: nat)
    requires e.Binary? && At(toks, pos, e.left) && mid == pos + Size(e.left)
    requires mid < |toks| && toks[mid] == e.operator && At(toks, mid + 1, e.right)
    ensures At(toks, pos, e)
  {
  }

  /** The framing of `left`, an operator at `pos` and the framing of `right` after it
      frame the binary node, which ends where `right` does. */
  lemma AtNode(toks: seq<Token>, start: nat, left: Expr, pos: nat, right: Expr, next: nat)
    requires At(toks, start, left) && pos == End(start, left) && pos < |toks|
    requires At(toks, pos + 1, right) && next == End(pos + 1, right)
    ensures At(toks, start, Binary(left, toks[pos], right))
    ensures next == End(start, Binary(left, toks[pos], right))
  {
    AtBinary(toks, start, Binary(left, toks[pos], right), pos);
  }

  lemma AtUnary(toks: seq<Token>, pos: nat, e: Expr)
    requires e.Unary? && pos < |toks| && toks[pos] == e.operator && At(toks, pos + 1, e.right)
    ensures At(toks, pos, e)
  {
  }

  lemma AtGrouping(toks: seq<Token>, pos: nat, e: Expr, close: nat)
    requires e.Grouping? && pos < |toks| && toks[pos].kind == LeftParen
    requires At(toks, pos + 1, e.expression) && close == pos + 1 + Size(e.expression)
    requires close < |toks| && toks[close].kind == RightParen
    ensures At(toks, pos, e)
  {
  }

  /** Where the tokens of `Flatten(e)` stand, `e` is framed, and `Size` counts them. */
  lemma {:induction false} FlattenAt(toks: seq<Token>, pos: nat, e: Expr)
    requires Spells(toks, pos, Flatten(e))
    ensures Size(e) == |Flatten(e)| && At(toks, pos, e)
    decreases e, 1
  {
    if e.Literal? {
      SpellsOne(toks, pos, LiteralToken(e.value));
    } else if e.Grouping? {
      FlattenGroupingAt(toks, pos, e);
    } else if e.Unary? {
      FlattenUnaryAt(toks, pos, e);
    } else {
      FlattenBinaryAt(toks, pos, e);
    }
  }

  lemma {:induction false} FlattenGroupingAt(toks: seq<Token>, pos: nat, e: Expr)
    requires e.Grouping? && Spells(toks, pos, Flatten(e))
    ensures Size(e) == |Flatten(e)| && At(toks, pos, e)
    decreases e, 0
  {
    var close := SpellsGrouping(toks, pos, e);
    FlattenAt(toks, pos + 1, e.expression);
    AtGrouping(toks, pos, e, close);
  }

  lemma {:induction false} FlattenUnaryAt(toks: seq<Token>, pos: nat, e: Expr)
    requires e.Unary? && Spells(toks, pos, Flatten(e))
    ensures Size(e) == |Flatten(e)| && At(toks, pos, e)
    decreases e, 0
  {
    SpellsUnary(toks, pos, e);
    FlattenAt(toks, pos + 1, e.right);
    AtUnary(toks, pos, e);
  }

  lemma {:induction false} FlattenBinaryAt(toks: seq<Token>, pos: nat, e: Expr)
    requires e.Binary? && Spells(toks, pos, Flatten(e))
    ensures Size(e) == |Flatten(e)| && At(toks, pos, e)
    decreases e, 0
  {
    var mid := SpellsBinary(toks, pos, e);
    FlattenAt(toks, pos, e.left);
    FlattenAt(toks, mid + 1, e.right);
    AtBinary(toks, pos, e, mid);
  }

  /** Splits the tokens of a statement into its expression's and its `;` at `semi`. */
  lemma SpellsStmt(toks: seq<Token>, pos: nat, s: Stmt) returns (start: nat, semi: nat)
    requires IsParsedStmt(s) && Spells(toks, pos, FlattenStmt(s))
    ensures start == (if s.Print? then pos + 1 else pos)
    ensures s.Print? ==> pos < |toks| && toks[pos].kind == PrintKw
    ensures Spells(toks, start, Flatten(s.expression)) && semi == start + |Flatten(s.expression)|
    ensures semi < |toks| && toks[semi].kind == Semicolon && |FlattenStmt(s)| == semi + 1 - pos
  {
    var e, semicolon := s.expression, MakeToken(Semicolon, ";");
    if s.Print? {
      var kw := MakeToken(PrintKw, "print");
      SpellsSplit(toks, pos, [kw] + Flatten(e), [semicolon]);
      SpellsSplit(toks, pos, [kw], Flatten(e));
      SpellsOne(toks, pos, kw);
      start := pos + 1;
    } else {
      SpellsSplit(toks, pos, Flatten(e), [semicolon]);
      start := pos;
    }
    semi := start + |Flatten(e)|;
    SpellsOne(toks, semi, semicolon);
  }

  lemma {:induction false} FlattenStmtAt(toks: seq<Token>, pos: nat, s: Stmt)
    requires IsParsedStmt(s) && Spells(toks, pos, FlattenStmt(s))
    ensures StmtSize(s) == |FlattenStmt(s)| && StmtAt(toks, pos, s)
  {
    var start, semi := SpellsStmt(toks, pos, s);
    FlattenAt(toks, start, s.expression);
  }

  lemma {:induction false} FlattenStmtsAt(toks: seq<Token>, pos: nat, ss: seq<Stmt>)
    requires AllParsed(ss) && Spells(toks, pos, FlattenStmts(ss))
    ensures StmtsSize(ss) == |FlattenStmts(ss)| && StmtsAt(toks, pos, ss)
    decreases |ss|
  {
    if |ss| > 0 {
      SpellsSplit(toks, pos, FlattenStmt(ss[0]), FlattenStmts(ss[1..]));
      FlattenStmtAt(toks, pos, ss[0]);
      FlattenStmtsAt(toks, pos + |FlattenStmt(ss[0])|, ss[1..]);
    }
  }

  const EofToken: Token := MakeToken(Eof, "")

  /** Parsing inverts flattening: the tokens of any list of `print` and expression
      statements over well-shaped expressions, closed by EOF, parse back to that list. */
  lemma {:induction false} ParseInvertsFlatten(ss: seq<Stmt>)
    requires AllParsed(ss)
    ensures Parse(FlattenStmts(ss) + [EofToken]) == Ok(ss)
  {
    var body := FlattenStmts(ss);
    var toks := body + [EofToken];
    assert toks[0..|body|] == body;
    FlattenStmtsAt(toks, 0, ss);
    assert toks[|body|] == EofToken;
    ProgramRoundTrip(toks, 0, ss);
  }
}
