/** Properties of evaluation and execution that relate several calls: a static
    approximation of which expressions cannot fail, how runs compose, and the laws of the
    prefix operators. */
module InterpreterProperties {
  import opened Results
  import opened Values
  import opened Tokens
  import opened Ast
  import opened Interpreter

  /** The runtime type of a value. */
  datatype Ty = TNil | TBool | TNum | TStr

  function TypeOf(v: Value): Ty {
    match v
    case Nil => TNil
    case Bool(_) => TBool
    case Num(_) => TNum
    case Str(_) => TStr
  }

  /** The type of an operator node whose operands have types `lt` and `rt`, or `None`
      when the operator may fail on such operands. A division is accepted only by a
      non-zero number literal. */
  function BinaryType(op: TokenType, lt: Ty, rt: Ty, right: Expr): Option<Ty> {
    match op
    case NotEqual => Some(TBool)
    case EqualEqual => Some(TBool)
    case Greater => if lt == TNum && rt == TNum then Some(TBool) else None
    case GreaterEqual => if lt == TNum && rt == TNum then Some(TBool) else None
    case Less => if lt == TNum && rt == TNum then Some(TBool) else None
    case LessEqual => if lt == TNum && rt == TNum then Some(TBool) else None
    case Minus => if lt == TNum && rt == TNum then Some(TNum) else None
    case Star => if lt == TNum && rt == TNum then Some(TNum) else None
    case Plus =>
      if lt == TNum && rt == TNum then Some(TNum)
      else if (lt == TStr || lt == TNum) && (rt == TStr || rt == TNum) then Some(TStr)
      else None
    case Slash =>
      if lt == TNum && right.Literal? && right.value.Num? && right.value.n != 0.0 then Some(TNum)
      else None
    case _ => Some(TNil)
  }

  /** A conservative type checker: `Some(t)` promises evaluation succeeds with a `t`. */
  function Infer(e: Expr): Option<Ty> {
    match e
    case Literal(v) => Some(TypeOf(v))
    case Grouping(inner) => Infer(inner)
    case Unary(op, right) =>
      var t := Infer(right);
      if t.None? then None
      else if op.kind == Not then Some(TBool)
      else if op.kind == Minus then (if t.value == TNum then Some(TNum) else None)
      else Some(TNil)
    case Binary(left, op, right) =>
      var lt, rt := Infer(left), Infer(right);
      if lt.None? || rt.None? then None else BinaryType(op.kind, lt.value, rt.value, right)
  }

  /** The operators agree with `BinaryType`: on operands of the types it accepts they
      succeed with a value of the type it names. */
  lemma ApplyBinaryTyped(op: Token, l: Value, r: Value, right: Expr, show: real -> string)
    requires BinaryType(op.kind, TypeOf(l), TypeOf(r), right).Some?
    requires op.kind == Slash ==> right.Literal? && r == right.value
    ensures ApplyBinary(op, l, r, show).Ok?
    ensures TypeOf(ApplyBinary(op, l, r, show).value) == BinaryType(op.kind, TypeOf(l), TypeOf(r), right).value
  {
  }

  /** A checked expression evaluates without a runtime error, to a value of its type. */
  lemma {:induction false} InferSound(e: Expr, show: real -> string)
    requires Infer(e).Some?
    ensures Evaluate(e, show).Ok? && TypeOf(Evaluate(e, show).value) == Infer(e).value
    decreases e, 1
  {
    match e
    case Literal(_) =>
    case Grouping(inner) => InferSound(inner, show);
    case Unary(op, right) => InferSound(right, show);
    case Binary(left, op, right) => BinarySound(e, show);
  }

  lemma {:induction false} BinarySound(e: Expr, show: real -> string)
    requires e.Binary? && Infer(e).Some?
    ensures Evaluate(e, show).Ok? && TypeOf(Evaluate(e, show).value) == Infer(e).value
    decreases e, 0
  {
    InferSound(e.left, show);
    InferSound(e.right, show);
    var l, r := Evaluate(e.left, show).value, Evaluate(e.right, show).value;
    ApplyBinaryTyped(e.operator, l, r, e.right, show);
  }

  /** `!!e` is the truthiness of `e`'s value. */
  lemma DoubleNot(outer: Token, inner: Token, e: Expr, show: real -> string)
    requires outer.kind == Not && inner.kind == Not && Evaluate(e, show).Ok?
    ensures Evaluate(Unary(outer, Unary(inner, e)), show) == Ok(Bool(IsTruthy(Evaluate(e, show).value)))
  {
  }

  /** `--e` is `e` on numbers and fails at the inner `-` on anything else. */
  lemma DoubleNegation(outer: Token, inner: Token, e: Expr, show: real -> string)
    requires outer.kind == Minus && inner.kind == Minus && Evaluate(e, show).Ok?
    ensures Evaluate(e, show).value.Num? ==>
      Evaluate(Unary(outer, Unary(inner, e)), show) == Evaluate(e, show)
    ensures !Evaluate(e, show).value.Num? ==>
      Evaluate(Unary(outer, Unary(inner, e)), show) == Err(RuntimeError(inner, OperandMustBeNumber))
  {
  }

  /** Running two lists one after the other is running the second only if the first
      finished without an error, keeping the first one's output ahead of the second's. */
  lemma {:induction false} RunAppend(a: seq<Stmt>, b: seq<Stmt>, show: real -> string)
    requires AllExecutable(a) && AllExecutable(b)
    ensures AllExecutable(a + b)
    ensures Run(a, show).error.Some? ==> Run(a + b, show) == Run(a, show)
    ensures Run(a, show).error.None? ==> Run(a + b, show) == After(Run(a, show).output, Run(b, show))
    decreases |a|
  {
    assert AllExecutable(a + b) by {
      forall i | 0 <= i < |a + b| ensures Executable((a + b)[i]) {
        if i >= |a| { assert (a + b)[i] == b[i - |a|]; }
      }
    }
    if |a| == 0 {
      assert a + b == b;
      assert [] + Run(b, show).output == Run(b, show).output;
    } else {
      assert (a + b)[0] == a[0] && (a + b)[1..] == a[1..] + b;
      RunAppend(a[1..], b, show);
      match Execute(a[0], show)
      case Err(_) =>
      case Ok(lines) =>
        AfterAfter(lines, Run(a[1..], show).output, Run(b, show));
    }
  }

  /** The first failing statement ends the run: its error is the run's, and the output
      is exactly what the statements before it printed. */
  lemma {:induction false} FirstErrorStops(stmts: seq<Stmt>, k: nat, show: real -> string)
    requires AllExecutable(stmts) && k < |stmts| && Execute(stmts[k], show).Err?
    requires forall i :: 0 <= i < k ==> Execute(stmts[i], show).Ok?
    ensures Run(stmts, show) == Outcome(Run(stmts[..k], show).output, Some(Execute(stmts[k], show).error))
  {
    var before, rest := stmts[..k], stmts[k..];
    assert stmts == before + rest;
    assert forall i :: 0 <= i < |before| ==> Execute(before[i], show).Ok?;
    RunAppend(before, rest, show);
    RunFrom(stmts, k, show);
    assert Run(before, show).output + [] == Run(before, show).output;
  }
}
