/** The tree-walking evaluator and statement executor. Java's `RuntimeError` exception
    becomes the `Err` side of a `Result`; `print` appends a line to an output trace
    instead of writing to standard output. */
module Interpreter {
  import opened Results
  import opened Values
  import opened Tokens
  import opened Ast
  import opened Grammar

  /** A failed operator check: the operator token it is reported at, and its message. */
  datatype RuntimeError = RuntimeError(token: Token, message: string)

  const OperandMustBeNumber: string := "Operand must be a number."
  const OperandsMustBeNumbers: string := "Operands must be numbers."
  const OperandsMustBeNumbersOrStrings: string := "Operands must be two numbers or two strings."
  const CannotDivideByZero: string := "Cannot divide by zero."

  /** Every message a runtime error can carry. */
  const RuntimeMessages: seq<string> :=
    [OperandMustBeNumber, OperandsMustBeNumbers, OperandsMustBeNumbersOrStrings, CannotDivideByZero]

  type Eval = Result<Value, RuntimeError>

  /** `false` and `nil` are falsey; every other value, `0` and `""` included, is truthy. */
  function IsTruthy(v: Value): (truthy: bool)
    ensures !truthy <==> v == Nil || v == Bool(false)
  {
    match v
    case Nil => false
    case Bool(b) => b
    case _ => true
  }

  /** Java's `equals` on a non-null boxed value: same class and same content. */
  function JavaEquals(a: Value, b: Value): (equal: bool)
    requires !a.Nil?
    ensures equal <==> a == b
  {
    match a
    case Bool(x) => b.Bool? && b.b == x
    case Num(x) => b.Num? && b.n == x
    case Str(x) => b.Str? && b.s == x
  }

  /** `nil` equals only `nil`; other values are equal when of one type and content. */
  function IsEqual(a: Value, b: Value): (equal: bool)
    ensures equal <==> a == b
  {
    if a.Nil? && b.Nil? then true
    else if a.Nil? then false
    else JavaEquals(a, b)
  }

  /** The operand as a number, or the error reported at `operator` when it is not one. */
  function CheckNumberOperand(operator: Token, operand: Value): (r: Result<real, RuntimeError>)
    ensures r.Ok? <==> operand.Num?
    ensures r.Ok? ==> Num(r.value) == operand
    ensures r.Err? ==> r.error == RuntimeError(operator, OperandMustBeNumber)
  {
    if operand.Num? then Ok(operand.n) else Err(RuntimeError(operator, OperandMustBeNumber))
  }

  /** Both operands as numbers, or the error reported at `operator` unless both are. */
  function CheckNumberOperands(operator: Token, left: Value, right: Value)
    : (r: Result<(real, real), RuntimeError>)
    ensures r.Ok? <==> left.Num? && right.Num?
    ensures r.Ok? ==> r.value == (left.n, right.n)
    ensures r.Err? ==> r.error == RuntimeError(operator, OperandsMustBeNumbers)
  {
    if left.Num? && right.Num? then Ok((left.n, right.n))
    else Err(RuntimeError(operator, OperandsMustBeNumbers))
  }

  /** Java's `text.endsWith(".0")`: the last two characters are `.` and `0`. */
  predicate EndsWithPointZero(text: string): (ends: bool)
    ensures ends <==> 2 <= |text| && text[|text| - 2] == '.' && text[|text| - 1] == '0'
    ensures ends ==> text[..|text| - 2] + ".0" == text
  {
    2 <= |text| && text[|text| - 2..] == ".0"
  }

  /** The text `print` shows for a value. `show` stands for Java's `Double.toString`;
      only the removal of a trailing ".0" from its result is modelled. */
  function Stringify(v: Value, show: real -> string): (text: string)
    ensures v.Nil? ==> text == "nil"
    ensures v.Bool? ==> text == (if v.b then "true" else "false")
    ensures v.Str? ==> text == v.s
    ensures v.Num? && EndsWithPointZero(show(v.n)) ==> text + ".0" == show(v.n)
    ensures v.Num? && !EndsWithPointZero(show(v.n)) ==> text == show(v.n)
  {
    match v
    case Nil => "nil"
    case Num(n) =>
      var raw := show(n);
      if EndsWithPointZero(raw) then raw[..|raw| - 2] else raw
    case Bool(b) => if b then "true" else "false"
    case Str(s) => s
  }

  /** `!` and unary `-`; any other operator yields `nil`, as the Java switch falls through. */
  function ApplyUnary(operator: Token, right: Value): (r: Eval)
    ensures operator.kind == Not ==> r == Ok(Bool(!IsTruthy(right)))
    ensures operator.kind == Minus ==> (r.Ok? <==> right.Num?)
    ensures operator.kind == Minus && r.Ok? ==> r.value == Num(-right.n)
    ensures r.Err? ==> r.error == RuntimeError(operator, OperandMustBeNumber)
  {
    match operator.kind
    case Not => Ok(Bool(!IsTruthy(right)))
    case Minus =>
      var n :- CheckNumberOperand(operator, right);
      Ok(Num(-n))
    case _ => Ok(Nil)
  }

  /** `>`, `>=`, `<`, `<=`: two numbers give a boolean, anything else fails. */
  function Compare(operator: Token, left: Value, right: Value): (r: Eval)
    requires operator.kind in ComparisonOps
    ensures r.Ok? <==> left.Num? && right.Num?
    ensures r.Ok? ==> r.value.Bool?
    ensures r.Ok? && operator.kind == Greater ==> (r.value.b <==> left.n > right.n)
    ensures r.Ok? && operator.kind == GreaterEqual ==> (r.value.b <==> left.n >= right.n)
    ensures r.Ok? && operator.kind == Less ==> (r.value.b <==> left.n < right.n)
    ensures r.Ok? && operator.kind == LessEqual ==> (r.value.b <==> left.n <= right.n)
    ensures r.Err? ==> r.error == RuntimeError(operator, OperandsMustBeNumbers)
  {
    var ab :- CheckNumberOperands(operator, left, right);
    match operator.kind
    case Greater => Ok(Bool(ab.0 > ab.1))
    case GreaterEqual => Ok(Bool(ab.0 >= ab.1))
    case Less => Ok(Bool(ab.0 < ab.1))
    case LessEqual => Ok(Bool(ab.0 <= ab.1))
  }

  /** `+`: numbers add, strings concatenate, and a string with a number concatenates
      the two values' printed texts, in operand order. */
  function Add(operator: Token, left: Value, right: Value, show: real -> string): (r: Eval)
    ensures r.Ok? <==> (left.Num? || left.Str?) && (right.Num? || right.Str?)
    ensures left.Num? && right.Num? ==> r == Ok(Num(left.n + right.n))
    ensures left.Str? && right.Str? ==> r == Ok(Str(left.s + right.s))
    ensures r.Ok? && left.Str? != right.Str? ==>
      r == Ok(Str(Stringify(left, show) + Stringify(right, show)))
    ensures r.Err? ==> r.error == RuntimeError(operator, OperandsMustBeNumbersOrStrings)
  {
    if left.Num? && right.Num? then Ok(Num(left.n + right.n))
    else if left.Str? && right.Str? then Ok(Str(left.s + right.s))
    else if (left.Str? && right.Num?) || (left.Num? && right.Str?) then
      Ok(Str(Stringify(left, show) + Stringify(right, show)))
    else Err(RuntimeError(operator, OperandsMustBeNumbersOrStrings))
  }

  /** `/`: the operand type check comes first, then the zero check, then the quotient. */
  function Divide(operator: Token, left: Value, right: Value): (r: Eval)
    ensures !(left.Num? && right.Num?) ==> r == Err(RuntimeError(operator, OperandsMustBeNumbers))
    ensures left.Num? && right.Num? && right.n == 0.0 ==>
      r == Err(RuntimeError(operator, CannotDivideByZero))
    ensures left.Num? && right.Num? && right.n != 0.0 ==> r == Ok(Num(left.n / right.n))
  {
    var ab :- CheckNumberOperands(operator, left, right);
    if ab.1 == 0.0 then Err(RuntimeError(operator, CannotDivideByZero))
    else Ok(Num(ab.0 / ab.1))
  }

  /** `-` and `*` on two numbers. */
  function Arithmetic(operator: Token, left: Value, right: Value): (r: Eval)
    requires operator.kind == Minus || operator.kind == Star
    ensures r.Ok? <==> left.Num? && right.Num?
    ensures r.Ok? && operator.kind == Minus ==> r.value == Num(left.n - right.n)
    ensures r.Ok? && operator.kind == Star ==> r.value == Num(left.n * right.n)
    ensures r.Err? ==> r.error == RuntimeError(operator, OperandsMustBeNumbers)
  {
    // past the check both operands are numbers
    var _ :- CheckNumberOperands(operator, left, right);
    if operator.kind == Minus then Ok(Num(left.n - right.n)) else Ok(Num(left.n * right.n))
  }

  /** The binary operators, applied to operands that are already evaluated; an operator
      the Java switch does not list yields `nil`. */
  function ApplyBinary(operator: Token, left: Value, right: Value, show: real -> string): (r: Eval)
    // `==` and `!=` never fail and are complements
    ensures operator.kind == EqualEqual ==> r == Ok(Bool(left == right))
    ensures operator.kind == NotEqual ==> r == Ok(Bool(left != right))
    ensures operator.kind in ComparisonOps ==> r == Compare(operator, left, right)
    ensures operator.kind == Minus || operator.kind == Star ==> r == Arithmetic(operator, left, right)
    ensures operator.kind == Plus ==> r == Add(operator, left, right, show)
    ensures operator.kind == Slash ==> r == Divide(operator, left, right)
    ensures operator.kind !in BinaryOps ==> r == Ok(Nil)
    ensures r.Err? ==> r.error.token == operator && r.error.message in RuntimeMessages
  {
    match operator.kind
    case Greater => Compare(operator, left, right)
    case GreaterEqual => Compare(operator, left, right)
    case Less => Compare(operator, left, right)
    case LessEqual => Compare(operator, left, right)
    case Minus => Arithmetic(operator, left, right)
    case NotEqual => Ok(Bool(!IsEqual(left, right)))
    case EqualEqual => Ok(Bool(IsEqual(left, right)))
    case Plus => Add(operator, left, right, show)
    case Slash => Divide(operator, left, right)
    case Star => Arithmetic(operator, left, right)
    case _ => Ok(Nil)
  }

  /** The operator tokens of `e`, the only tokens a runtime error can be reported at. */
  function Operators(e: Expr): seq<Token> {
    match e
    case Literal(_) => []
    case Grouping(inner) => Operators(inner)
    case Unary(op, right) => [op] + Operators(right)
    case Binary(left, op, right) => Operators(left) + [op] + Operators(right)
  }

  /** Evaluates `e`: a literal is its value, a grouping its contents; an operator node
      evaluates its left operand, then its right one, then applies the operator. */
  function Evaluate(e: Expr, show: real -> string): (r: Eval)
    ensures r.Err? ==> r.error.token in Operators(e) && r.error.message in RuntimeMessages
    ensures e.Literal? ==> r == Ok(e.value)
    // an error in the left operand wins over anything the right one would do
    ensures e.Binary? && Evaluate(e.left, show).Err? ==> r == Evaluate(e.left, show)
    ensures e.Binary? && Evaluate(e.left, show).Ok? && Evaluate(e.right, show).Err? ==>
      r == Evaluate(e.right, show)
    decreases e
  {
    match e
    case Literal(v) => Ok(v)
    case Grouping(inner) => Evaluate(inner, show)
    case Unary(op, right) =>
      var v :- Evaluate(right, show);
      ApplyUnary(op, v)
    case Binary(left, op, right) =>
      var l :- Evaluate(left, show);
      var r :- Evaluate(right, show);
      ApplyBinary(op, l, r, show)
  }

  /** The statements the interpreter can execute: it has no visitor for blocks or
      variable declarations, and the parser builds neither. */
  predicate Executable(s: Stmt) {
    s.Print? || s.Expression?
  }

  /** Executes one statement, returning the lines it prints. */
  function Execute(s: Stmt, show: real -> string): (r: Result<seq<string>, RuntimeError>)
    requires Executable(s)
    ensures r.Ok? <==> Evaluate(s.expression, show).Ok?
    ensures r.Err? ==> r.error == Evaluate(s.expression, show).error
    ensures r.Ok? && s.Print? ==> r.value == [Stringify(Evaluate(s.expression, show).value, show)]
    ensures r.Ok? && s.Expression? ==> r.value == []
  {
    match s
    case Expression(e) =>
      var _ :- Evaluate(e, show);
      Ok([])
    case Print(e) =>
      var v :- Evaluate(e, show);
      Ok([Stringify(v, show)])
  }

  /** What a run produced: the printed lines, then the runtime error that stopped it, if any. */
  datatype Outcome = Outcome(output: seq<string>, error: Option<RuntimeError>)

  function PrintCount(stmts: seq<Stmt>): nat {
    if |stmts| == 0 then 0 else (if stmts[0].Print? then 1 else 0) + PrintCount(stmts[1..])
  }

  predicate AllExecutable(stmts: seq<Stmt>) {
    forall i :: 0 <= i < |stmts| ==> Executable(stmts[i])
  }

  /** Prefixes lines printed earlier to the outcome of what ran after them. */
  function After(earlier: seq<string>, later: Outcome): Outcome {
    Outcome(earlier + later.output, later.error)
  }

  /** The reference semantics of a run: statements in order, stopping at the first error. */
  function Run(stmts: seq<Stmt>, show: real -> string): (o: Outcome)
    requires AllExecutable(stmts)
    ensures o.error.None? <==> forall i :: 0 <= i < |stmts| ==> Execute(stmts[i], show).Ok?
    ensures o.error.None? ==> |o.output| == PrintCount(stmts)
    ensures |o.output| <= PrintCount(stmts)
    ensures o.error.Some? ==> o.error.value.message in RuntimeMessages
    decreases |stmts|
  {
    if |stmts| == 0 then Outcome([], None)
    else
      match Execute(stmts[0], show)
      case Err(e) => Outcome([], Some(e))
      case Ok(lines) => After(lines, Run(stmts[1..], show))
  }

  /** `Run` from position `i` on: the statement at `i`, then the rest. */
  lemma RunFrom(stmts: seq<Stmt>, i: nat, show: real -> string)
    requires AllExecutable(stmts) && i < |stmts|
    ensures Execute(stmts[i], show).Err? ==>
      Run(stmts[i..], show) == Outcome([], Some(Execute(stmts[i], show).error))
    ensures Execute(stmts[i], show).Ok? ==>
      Run(stmts[i..], show) == After(Execute(stmts[i], show).value, Run(stmts[i + 1..], show))
  {
    assert stmts[i..][0] == stmts[i] && stmts[i..][1..] == stmts[i + 1..];
  }

  lemma AfterAfter(a: seq<string>, b: seq<string>, o: Outcome)
    ensures After(a, After(b, o)) == After(a + b, o)
  {
    assert a + (b + o.output) == (a + b) + o.output;
  }

  /** Executes the statements in order; the first runtime error stops the run and is
      returned, together with everything printed before it. */
  method Interpret(stmts: seq<Stmt>, show: real -> string)
    returns (output: seq<string>, error: Option<RuntimeError>)
    requires AllExecutable(stmts)
    ensures Outcome(output, error) == Run(stmts, show)
  {
    output := [];
    var i := 0;
    while i < |stmts|
      invariant 0 <= i <= |stmts|
      invariant Run(stmts, show) == After(output, Run(stmts[i..], show))
      decreases |stmts| - i
    {
      RunFrom(stmts, i, show);
      var r := Execute(stmts[i], show);
      if r.Err? {
        error := Some(r.error);
        assert output + [] == output;
        return;
      }
      AfterAfter(output, r.value, Run(stmts[i + 1..], show));
      output := output + r.value;
      i := i + 1;
    }
    error := None;
    assert output + [] == output;
  }
}
