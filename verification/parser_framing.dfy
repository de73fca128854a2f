/** The converse of `ParserRoundTrip`: whatever a production returns is framed by the
    tokens it consumed. A successful parse reads exactly the tokens of the tree it builds,
    in source order, and stops right after them; so the statements `Parse` yields are the
    statements written in the tokens, and no others. */
module ParserFraming {
  import opened Results
  import opened Tokens
  import opened Ast
  import opened Grammar
  import opened Parser
  import opened ParserRoundTrip

  lemma {:induction false} PrimaryAt(toks: seq<Token>, pos: nat, e: Expr, q: nat)
    requires ValidCursor(toks, pos) && ParsePrimary(toks, pos) == Ok((e, q))
    ensures At(toks, pos, e) && q == End(pos, e)
    decreases |toks| - pos, 1
  {
    assert toks[pos].kind in PrimaryStarts;
    if toks[pos].kind in LiteralKinds {
      PrimaryLiteral(toks, pos);
    } else {
      var inner, close := GroupingOperand(toks, pos);
      ExpressionAt(toks, pos + 1, inner, close);
      AtGrouping(toks, pos, e, close);
    }
  }

  lemma {:induction false} UnaryAt(toks: seq<Token>, pos: nat, e: Expr, q: nat)
    requires ValidCursor(toks, pos) && ParseUnary(toks, pos) == Ok((e, q))
    ensures At(toks, pos, e) && q == End(pos, e)
    decreases |toks| - pos, 2
  {
    if toks[pos].kind in UnaryOps {
      var right, next := UnaryOperand(toks, pos);
      UnaryAt(toks, pos + 1, right, next);
      AtUnary(toks, pos, e);
    } else {
      UnaryFallsThrough(toks, pos);
      PrimaryAt(toks, pos, e, q);
    }
  }

  lemma {:induction false} FactorAt(toks: seq<Token>, pos: nat, e: Expr, q: nat)
    requires ValidCursor(toks, pos) && ParseFactor(toks, pos) == Ok((e, q))
    ensures At(toks, pos, e) && q == End(pos, e)
    decreases |toks| - pos, 4
  {
    var first, next := FactorSplits(toks, pos);
    UnaryAt(toks, pos, first, next);
    FactorLoopAt(toks, pos, next, first, e, q);
  }

  /** The loop of `factor`, entered after the tokens of `left`, which start at `start`. */
  lemma {:induction false} FactorLoopAt(toks: seq<Token>, start: nat, pos: nat, left: Expr, e: Expr, q: nat)
    requires ValidCursor(toks, pos) && IsFactorTree(left)
    requires At(toks, start, left) && pos == End(start, left)
    requires FactorLoop(toks, pos, left) == Ok((e, q))
    ensures At(toks, start, e) && q == End(start, e)
    decreases |toks| - pos, 3
  {
    if toks[pos].kind in FactorOps {
      var right, next := FactorLoopOperand(toks, pos, left);
      FactorOperandAt(toks, start, pos, left, right, next);
      FactorLoopAt(toks, start, next, Binary(left, toks[pos], right), e, q);
    } else {
      FactorLoopStops(toks, pos, left);
    }
  }

  /** The framing of the tree so far grows by the operator at `pos` and the unary expression
      parsed after it. */
  lemma {:induction false} FactorOperandAt(toks: seq<Token>, start: nat, pos: nat, left: Expr, right: Expr, next: nat)
    requires ValidCursor(toks, pos) && pos + 1 < |toks| && ParseUnary(toks, pos + 1) == Ok((right, next))
    requires At(toks, start, left) && pos == End(start, left)
    ensures At(toks, start, Binary(left, toks[pos], right))
    ensures next == End(start, Binary(left, toks[pos], right))
    decreases |toks| - pos, 2
  {
    assert ValidCursor(toks, pos + 1);
    UnaryAt(toks, pos + 1, right, next);
    assert At(toks, pos + 1, right) && next == End(pos + 1, right);
    AtNode(toks, start, left, pos, right, next);
  }

  lemma {:induction false} TermAt(toks: seq<Token>, pos: nat, e: Expr, q: nat)
    requires ValidCursor(toks, pos) && ParseTerm(toks, pos) == Ok((e, q))
    ensures At(toks, pos, e) && q == End(pos, e)
    decreases |toks| - pos, 6
  {
    var first, next := TermSplits(toks, pos);
    FactorAt(toks, pos, first, next);
    TermLoopAt(toks, pos, next, first, e, q);
  }

  /** The loop of `term`, entered after the factor `left`: at most one `+`/`-` and the
      whole term after it. */
  lemma {:induction false} TermLoopAt(toks: seq<Token>, start: nat, pos: nat, left: Expr, e: Expr, q: nat)
    requires ValidCursor(toks, pos) && IsFactorTree(left) && toks[pos].kind !in FactorOps
    requires At(toks, start, left) && pos == End(start, left)
    requires TermLoop(toks, pos, left) == Ok((e, q))
    ensures At(toks, start, e) && q == End(start, e)
    decreases |toks| - pos, 5
  {
    if toks[pos].kind in TermOps {
      var right, next := TermLoopOperand(toks, pos, left);
      TermAt(toks, pos + 1, right, next);
      AtNode(toks, start, left, pos, right, next);
    } else {
      LevelsNest(left);
      TermLoopStops(toks, pos, left);
    }
  }

  lemma {:induction false} ComparisonAt(toks: seq<Token>, pos: nat, e: Expr, q: nat)
    requires ValidCursor(toks, pos) && ParseComparison(toks, pos) == Ok((e, q))
    ensures At(toks, pos, e) && q == End(pos, e)
    decreases |toks| - pos, 8
  {
    var first, next := ComparisonSplits(toks, pos);
    TermAt(toks, pos, first, next);
    ComparisonLoopAt(toks, pos, next, first, e, q);
  }

  /** The loop of `comparison`, entered after the tokens of `left`. */
  lemma {:induction false} ComparisonLoopAt(toks: seq<Token>, start: nat, pos: nat, left: Expr, e: Expr, q: nat)
    requires ValidCursor(toks, pos) && IsComparisonTree(left) && toks[pos].kind !in TermStop
    requires At(toks, start, left) && pos == End(start, left)
    requires ComparisonLoop(toks, pos, left) == Ok((e, q))
    ensures At(toks, start, e) && q == End(start, e)
    decreases |toks| - pos, 7
  {
    if toks[pos].kind in ComparisonOps {
      var right, next := ComparisonLoopOperand(toks, pos, left);
      ComparisonOperandAt(toks, start, pos, left, right, next);
      ComparisonLoopAt(toks, start, next, Binary(left, toks[pos], right), e, q);
    } else {
      ComparisonLoopStops(toks, pos, left);
    }
  }

  /** The framing of the tree so far grows by the operator at `pos` and the term
      parsed after it. */
  lemma {:induction false} ComparisonOperandAt(toks: seq<Token>, start: nat, pos: nat, left: Expr, right: Expr, next: nat)
    requires ValidCursor(toks, pos) && pos + 1 < |toks| && ParseTerm(toks, pos + 1) == Ok((right, next))
    requires At(toks, start, left) && pos == End(start, left)
    ensures At(toks, start, Binary(left, toks[pos], right))
    ensures next == End(start, Binary(left, toks[pos], right))
    decreases |toks| - pos, 6
  {
    TermAt(toks, pos + 1, right, next);
    assert At(toks, pos + 1, right) && next == End(pos + 1, right);
    AtNode(toks, start, left, pos, right, next);
  }

  lemma {:induction false} EqualityAt(toks: seq<Token>, pos: nat, e: Expr, q: nat)
    requires ValidCursor(toks, pos) && ParseEquality(toks, pos) == Ok((e, q))
    ensures At(toks, pos, e) && q == End(pos, e)
    decreases |toks| - pos, 10
  {
    var first, next := EqualitySplits(toks, pos);
    ComparisonAt(toks, pos, first, next);
    EqualityLoopAt(toks, pos, next, first, e, q);
  }

  /** The loop of `equality`, entered after the tokens of `left`. */
  lemma {:induction false} EqualityLoopAt(toks: seq<Token>, start: nat, pos: nat, left: Expr, e: Expr, q: nat)
    requires ValidCursor(toks, pos) && IsEqualityTree(left) && toks[pos].kind !in ComparisonStop
    requires At(toks, start, left) && pos == End(start, left)
    requires EqualityLoop(toks, pos, left) == Ok((e, q))
    ensures At(toks, start, e) && q == End(start, e)
    decreases |toks| - pos, 9
  {
    if toks[pos].kind in EqualityOps {
      var right, next := EqualityLoopOperand(toks, pos, left);
      EqualityOperandAt(toks, start, pos, left, right, next);
      EqualityLoopAt(toks, start, next, Binary(left, toks[pos], right), e, q);
    } else {
      EqualityLoopStops(toks, pos, left);
    }
  }

  /** The framing of the tree so far grows by the operator at `pos` and the comparison
      parsed after it. */
  lemma {:induction false} EqualityOperandAt(toks: seq<Token>, start: nat, pos: nat, left: Expr, right: Expr, next: nat)
    requires ValidCursor(toks, pos) && pos + 1 < |toks| && ParseComparison(toks, pos + 1) == Ok((right, next))
    requires At(toks, start, left) && pos == End(start, left)
    ensures At(toks, start, Binary(left, toks[pos], right))
    ensures next == End(start, Binary(left, toks[pos], right))
    decreases |toks| - pos, 8
  {
    ComparisonAt(toks, pos + 1, right, next);
    assert At(toks, pos + 1, right) && next == End(pos + 1, right);
    AtNode(toks, start, left, pos, right, next);
  }

  /** A parsed expression is framed by the tokens it consumed: the parse stops exactly
      after the tokens of the tree it returns. */
  lemma {:induction false} ExpressionAt(toks: seq<Token>, pos: nat, e: Expr, q: nat)
    requires ValidCursor(toks, pos) && ParseExpression(toks, pos) == Ok((e, q))
    ensures At(toks, pos, e) && q == End(pos, e)
    decreases |toks| - pos, 11
  {
    EqualityAt(toks, pos, e, q);
  }

  /** A parsed statement is framed by its tokens, up to and including its `;`. */
  lemma {:induction false} StatementAt(toks: seq<Token>, pos: nat, s: Stmt, q: nat)
    requires ValidCursor(toks, pos) && ParseStatement(toks, pos) == Ok((s, q))
    ensures IsParsedStmt(s) && StmtAt(toks, pos, s) && q == StmtEnd(pos, s)
  {
    var e, semi := StatementOperand(toks, pos);
    if toks[pos].kind == PrintKw {
      PrintStmtAt(toks, pos, e, semi);
    } else {
      ExpressionStmtAt(toks, pos, e, semi);
    }
  }

  /** `print`, the tokens of the parsed expression and the `;` frame the print statement. */
  lemma {:induction false} PrintStmtAt(toks: seq<Token>, pos: nat, e: Expr, semi: nat)
    requires ValidCursor(toks, pos) && toks[pos].kind == PrintKw && pos + 1 < |toks|
    requires ParseExpression(toks, pos + 1) == Ok((e, semi)) && toks[semi].kind == Semicolon
    ensures IsParsedStmt(Print(e)) && StmtAt(toks, pos, Print(e)) && semi + 1 == StmtEnd(pos, Print(e))
  {
    ExpressionAt(toks, pos + 1, e, semi);
    assert At(toks, pos + 1, e) && semi == End(pos + 1, e);
  }

  /** The tokens of the parsed expression and the `;` frame the expression statement. */
  lemma {:induction false} ExpressionStmtAt(toks: seq<Token>, pos: nat, e: Expr, semi: nat)
    requires ValidCursor(toks, pos)
    requires ParseExpression(toks, pos) == Ok((e, semi)) && toks[semi].kind == Semicolon
    ensures IsParsedStmt(Expression(e)) && StmtAt(toks, pos, Expression(e)) && semi + 1 == StmtEnd(pos, Expression(e))
  {
    ExpressionAt(toks, pos, e, semi);
    assert At(toks, pos, e) && semi == End(pos, e);
  }

  /** The statements `ParseFrom` yields are framed one after another by the tokens from
      `pos` on, and EOF follows the last of them. */
  lemma {:induction false} ProgramAt(toks: seq<Token>, pos: nat, ss: seq<Stmt>)
    requires ValidCursor(toks, pos) && ParseFrom(toks, pos) == Ok(ss)
    ensures ProgramFramed(toks, pos, ss)
    decreases |toks| - pos
  {
    if !IsAtEnd(toks, pos) {
      var s, next, rest := ParseFromSplits(toks, pos);
      StatementAt(toks, pos, s, next);
      ProgramAt(toks, next, rest);
      FramedCons(toks, pos, s, rest);
    }
  }

  /** A framed statement before a framed program is a framed program. */
  lemma FramedCons(toks: seq<Token>, pos: nat, s: Stmt, rest: seq<Stmt>)
    requires IsParsedStmt(s) && StmtAt(toks, pos, s) && ProgramFramed(toks, StmtEnd(pos, s), rest)
    ensures ProgramFramed(toks, pos, [s] + rest)
  {
    var ss := [s] + rest;
    assert ss[0] == s && ss[1..] == rest;
  }

  /** A successful parse of a whole token sequence is exactly the statements written in
      it: `Parse` succeeds with `ss` if and only if the tokens frame `ss`, in order, up
      to the closing EOF. */
  lemma {:induction false} ParseExactly(toks: seq<Token>, ss: seq<Stmt>)
    requires WellFormed(toks)
    ensures Parse(toks) == Ok(ss) <==> ProgramFramed(toks, 0, ss)
  {
    if Parse(toks) == Ok(ss) {
      ProgramAt(toks, 0, ss);
    }
    if ProgramFramed(toks, 0, ss) {
      ProgramRoundTrip(toks, 0, ss);
    }
  }
}
