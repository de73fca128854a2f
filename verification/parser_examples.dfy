/** Token lists and what the parser makes of them, for any numbers and lexemes: the grouping the productions
    give to chains of operators, and the error each kind of malformed statement stops at. */
module ParserExamples {
  import opened Results
  import opened Values
  import opened Tokens
  import opened Ast
  import opened Grammar
  import opened Parser
  import opened ParserRoundTrip

  /** A number token as the scanner makes it, with its source text. */
  function NumTok(n: real, text: string): Token { Token(NumberLit, text, Num(n), 1) }

  const MinusTok: Token := MakeToken(Minus, "-")
  const PlusTok: Token := MakeToken(Plus, "+")
  const StarTok: Token := MakeToken(Star, "*")
  const EqualTok: Token := MakeToken(EqualEqual, "==")
  const LessTok: Token := MakeToken(Less, "<")
  const BangTok: Token := MakeToken(Not, "!")
  const TrueTok: Token := MakeToken(TrueKw, "true")
  const PrintTok: Token := MakeToken(PrintKw, "print")
  const LeftTok: Token := MakeToken(LeftParen, "(")
  const RightTok: Token := MakeToken(RightParen, ")")
  const SemiTok: Token := MakeToken(Semicolon, ";")

  function Lit(n: real): Expr { Literal(Num(n)) }

  /** A source holding nothing but EOF is the empty program. */
  lemma EmptyProgram()
    ensures Parse([EofToken]) == Ok([])
  {
  }

  /** `x - y - z;` groups to the right: `-` takes its right operand from `term` itself. */
  lemma MinusGroupsRight(x: real, tx: string, y: real, ty: string, z: real, tz: string)
    ensures Parse([NumTok(x, tx), MinusTok, NumTok(y, ty), MinusTok, NumTok(z, tz), SemiTok, EofToken])
         == Ok([Expression(Binary(Lit(x), MinusTok, Binary(Lit(y), MinusTok, Lit(z))))])
  {
    var toks := [NumTok(x, tx), MinusTok, NumTok(y, ty), MinusTok, NumTok(z, tz), SemiTok, EofToken];
    var right := Binary(Lit(y), MinusTok, Lit(z));
    var e := Binary(Lit(x), MinusTok, right);
    LevelsNest(Lit(x));
    LevelsNest(Lit(y));
    LevelsNest(Lit(z));
    assert IsTermTree(right) && Size(right) == 3;
    assert IsTermTree(e);
    LevelsNest(e);
    assert At(toks, 2, right) by {
      assert At(toks, 2, Lit(y)) && At(toks, 4, Lit(z));
    }
    assert At(toks, 0, e) by {
      assert At(toks, 0, Lit(x));
    }
    SingleStatementProgram(toks, Expression(e));
  }

  /** Parentheses are the way to get `(x - y) - z`. */
  lemma ParenthesesGroupLeft(x: real, tx: string, y: real, ty: string, z: real, tz: string)
    ensures Parse([LeftTok, NumTok(x, tx), MinusTok, NumTok(y, ty), RightTok, MinusTok, NumTok(z, tz), SemiTok, EofToken])
         == Ok([Expression(Binary(Grouping(Binary(Lit(x), MinusTok, Lit(y))), MinusTok, Lit(z)))])
  {
    var toks := [LeftTok, NumTok(x, tx), MinusTok, NumTok(y, ty), RightTok, MinusTok, NumTok(z, tz), SemiTok, EofToken];
    var inner := Binary(Lit(x), MinusTok, Lit(y));
    var group := Grouping(inner);
    var e := Binary(group, MinusTok, Lit(z));
    LevelsNest(Lit(x));
    LevelsNest(Lit(y));
    LevelsNest(Lit(z));
    assert IsTermTree(inner) && Size(inner) == 3;
    LevelsNest(inner);
    assert IsPrimaryTree(group) && Size(group) == 5;
    LevelsNest(group);
    assert IsTermTree(e) && Size(e) == 7;
    LevelsNest(e);
    assert At(toks, 1, inner) by {
      assert At(toks, 1, Lit(x)) && At(toks, 3, Lit(y));
    }
    assert At(toks, 0, e) by {
      assert At(toks, 0, group) && At(toks, 6, Lit(z));
    }
    SingleStatementProgram(toks, Expression(e));
  }

  /** `x == y == z;` groups to the left. */
  lemma EqualityGroupsLeft(x: real, tx: string, y: real, ty: string, z: real, tz: string)
    ensures Parse([NumTok(x, tx), EqualTok, NumTok(y, ty), EqualTok, NumTok(z, tz), SemiTok, EofToken])
         == Ok([Expression(Binary(Binary(Lit(x), EqualTok, Lit(y)), EqualTok, Lit(z)))])
  {
    var toks := [NumTok(x, tx), EqualTok, NumTok(y, ty), EqualTok, NumTok(z, tz), SemiTok, EofToken];
    var left := Binary(Lit(x), EqualTok, Lit(y));
    var e := Binary(left, EqualTok, Lit(z));
    LevelsNest(Lit(x));
    LevelsNest(Lit(y));
    LevelsNest(Lit(z));
    assert IsEqualityTree(left) && Size(left) == 3;
    assert IsEqualityTree(e);
    assert At(toks, 0, left) by {
      assert At(toks, 0, Lit(x)) && At(toks, 2, Lit(y));
    }
    assert At(toks, 0, e) by {
      assert At(toks, 4, Lit(z));
    }
    SingleStatementProgram(toks, Expression(e));
  }

  /** `*` binds tighter than a `+` before it... */
  lemma StarBindsTighter(x: real, tx: string, y: real, ty: string, z: real, tz: string)
    ensures Parse([NumTok(x, tx), PlusTok, NumTok(y, ty), StarTok, NumTok(z, tz), SemiTok, EofToken])
         == Ok([Expression(Binary(Lit(x), PlusTok, Binary(Lit(y), StarTok, Lit(z))))])
  {
    var toks := [NumTok(x, tx), PlusTok, NumTok(y, ty), StarTok, NumTok(z, tz), SemiTok, EofToken];
    var right := Binary(Lit(y), StarTok, Lit(z));
    var e := Binary(Lit(x), PlusTok, right);
    LevelsNest(Lit(x));
    LevelsNest(Lit(y));
    LevelsNest(Lit(z));
    assert IsFactorTree(right) && Size(right) == 3;
    LevelsNest(right);
    assert IsTermTree(e);
    LevelsNest(e);
    assert At(toks, 2, right) by {
      assert At(toks, 2, Lit(y)) && At(toks, 4, Lit(z));
    }
    assert At(toks, 0, e) by {
      assert At(toks, 0, Lit(x));
    }
    SingleStatementProgram(toks, Expression(e));
  }

  /** ... and than a `+` after it. */
  lemma StarBindsTighterAfter(x: real, tx: string, y: real, ty: string, z: real, tz: string)
    ensures Parse([NumTok(x, tx), StarTok, NumTok(y, ty), PlusTok, NumTok(z, tz), SemiTok, EofToken])
         == Ok([Expression(Binary(Binary(Lit(x), StarTok, Lit(y)), PlusTok, Lit(z)))])
  {
    var toks := [NumTok(x, tx), StarTok, NumTok(y, ty), PlusTok, NumTok(z, tz), SemiTok, EofToken];
    var left := Binary(Lit(x), StarTok, Lit(y));
    var e := Binary(left, PlusTok, Lit(z));
    LevelsNest(Lit(x));
    LevelsNest(Lit(y));
    LevelsNest(Lit(z));
    assert IsFactorTree(left) && Size(left) == 3;
    assert IsTermTree(e);
    LevelsNest(e);
    assert At(toks, 0, left) by {
      assert At(toks, 0, Lit(x)) && At(toks, 2, Lit(y));
    }
    assert At(toks, 0, e) by {
      assert At(toks, 4, Lit(z));
    }
    SingleStatementProgram(toks, Expression(e));
  }

  /** `<` binds tighter than `==`. */
  lemma ComparisonBindsTighter(x: real, tx: string, y: real, ty: string)
    ensures Parse([NumTok(x, tx), LessTok, NumTok(y, ty), EqualTok, TrueTok, SemiTok, EofToken])
         == Ok([Expression(Binary(Binary(Lit(x), LessTok, Lit(y)), EqualTok, Literal(Bool(true))))])
  {
    var toks := [NumTok(x, tx), LessTok, NumTok(y, ty), EqualTok, TrueTok, SemiTok, EofToken];
    var left := Binary(Lit(x), LessTok, Lit(y));
    var e := Binary(left, EqualTok, Literal(Bool(true)));
    LevelsNest(Lit(x));
    LevelsNest(Lit(y));
    LevelsNest(Literal(Bool(true)));
    assert IsComparisonTree(left) && Size(left) == 3;
    LevelsNest(left);
    assert IsEqualityTree(e);
    assert At(toks, 0, left) by {
      assert At(toks, 0, Lit(x)) && At(toks, 2, Lit(y));
    }
    assert At(toks, 0, e) by {
      assert At(toks, 4, Literal(Bool(true)));
    }
    SingleStatementProgram(toks, Expression(e));
  }

  /** `print !!true; y;` is two statements, in order, the `!`s nested. */
  lemma StatementsInOrder(y: real, ty: string)
    ensures Parse([PrintTok, BangTok, BangTok, TrueTok, SemiTok, NumTok(y, ty), SemiTok, EofToken])
         == Ok([Print(Unary(BangTok, Unary(BangTok, Literal(Bool(true))))), Expression(Lit(y))])
  {
    var toks := [PrintTok, BangTok, BangTok, TrueTok, SemiTok, NumTok(y, ty), SemiTok, EofToken];
    var first := PrintNotNotAt(toks);
    assert IsParsedStmt(Expression(Lit(y))) && StmtAt(toks, 5, Expression(Lit(y))) by {
      LevelsNest(Lit(y));
      assert At(toks, 5, Lit(y));
    }
    TwoStatementProgram(toks, first, Expression(Lit(y)));
  }

  /** The tokens of `print !!true;` at the start of `toks` frame that statement. */
  lemma PrintNotNotAt(toks: seq<Token>) returns (s: Stmt)
    requires 5 <= |toks| && toks[..5] == [PrintTok, BangTok, BangTok, TrueTok, SemiTok]
    ensures s == Print(Unary(BangTok, Unary(BangTok, Literal(Bool(true)))))
    ensures IsParsedStmt(s) && StmtSize(s) == 5 && StmtAt(toks, 0, s)
  {
    var once := Unary(BangTok, Literal(Bool(true)));
    var twice := Unary(BangTok, once);
    assert toks[0] == PrintTok && toks[1] == BangTok && toks[2] == BangTok;
    assert toks[3] == TrueTok && toks[4] == SemiTok;
    assert IsUnaryTree(once) && Size(once) == 2;
    assert IsUnaryTree(twice) && Size(twice) == 3;
    LevelsNest(twice);
    assert At(toks, 2, once) by {
      assert At(toks, 3, Literal(Bool(true)));
    }
    s := Print(twice);
  }

  /** `print x` without its `;` fails at EOF. */
  lemma MissingSemicolon(x: real, tx: string)
    ensures Parse([PrintTok, NumTok(x, tx), EofToken]) == Err(ParseError(EofToken, ExpectSemicolon))
  {
    var toks := [PrintTok, NumTok(x, tx), EofToken];
    LevelsNest(Literal(Num(x)));
    ExpressionRoundTrip(toks, 1, Literal(Num(x)));
    PrintStatementEnds(toks, 1, Literal(Num(x)), 2);
    StatementDispatch(toks, 0);
    ParseFromAborts(toks, 0);
  }

  /** `(x;` fails at the `;` where the `)` should be. */
  lemma UnclosedGrouping(x: real, tx: string)
    ensures Parse([LeftTok, NumTok(x, tx), SemiTok, EofToken]) == Err(ParseError(SemiTok, ExpectRightParen))
  {
    var toks := [LeftTok, NumTok(x, tx), SemiTok, EofToken];
    LevelsNest(Lit(x));
    assert At(toks, 1, Lit(x));
    ExpressionRoundTrip(toks, 1, Lit(x));
    UnclosedGroupingAborts(toks, 0, Lit(x), 2);
  }

  /** A stray `;` fails with "Expect expression.", and the well-formed statement after it
      does not matter: there is no recovery. */
  lemma NoRecovery(x: real, tx: string)
    ensures Parse([SemiTok, PrintTok, NumTok(x, tx), SemiTok, EofToken]) == Err(ParseError(SemiTok, ExpectExpression))
  {
    var toks := [SemiTok, PrintTok, NumTok(x, tx), SemiTok, EofToken];
    ExpressionRejects(toks, 0);
    StatementDispatch(toks, 0);
    ParseFromAborts(toks, 0);
  }
}
