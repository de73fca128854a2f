# JLox parser and interpreter, modelled in Dafny

This project models the two pure parts of an early JLox, the tree-walking interpreter
for the Lox language:

- the **recursive-descent parser** (`Parser.java`), which turns a token sequence ending
  in EOF into a list of `print` and expression statements;
- the **evaluator and statement executor** (`Interpreter.java`), which evaluates
  expressions over the values `nil`, booleans, numbers and strings, and runs statements
  in order until the first runtime error.

The `Stmt` hierarchy (`Stmt.java`) is modelled as the datatype `Ast.Stmt`. It has four
variants: `Block`, `Expression`, `Var` and `Print`. The visitor double dispatch becomes an
exhaustive `match`. The fields are `final` in Java, so the nodes are immutable values, and
a `Block` holds exactly the list it was built from.

Modules, one file each:

- `Results`: `Option` and `Result`.
- `Values`: the closed `Value` type. It stands for Java's `null`, `Boolean`, `Double` and `String`.
- `Tokens`: `TokenType` and `Token`.
- `Ast`: `Expr` (Literal, Grouping, Unary, Binary) and `Stmt`.
- `Grammar`:
  - the operator sets of each precedence level;
  - one predicate per level for the shape of the trees that level builds;
  - `Flatten`, which writes a tree back out as tokens.
- `Parser`:
  - the productions, written as pure functions from `(tokens, cursor)` to `Result<(node, cursor), ParseError>`;
  - the cursor helpers (`match`, `consume`, `check`, `advance`, `peek`, `previous`);
  - `Synchronize`.
- `ParserRoundTrip`: parsing inverts `Flatten`, for every expression of the right shape and every statement list.
- `ParserFraming`: the converse. Every successful parse is framed by exactly the tokens it consumed, so `parse` succeeds with a statement list exactly when the tokens frame that list up to EOF.
- `ParserExamples`: the associativity, precedence, error and no-recovery behaviour on small token lists. They hold for any numbers and lexemes.
- `Interpreter`: truthiness, equality, operand checks, the operators, `stringify`, `Evaluate`, `Execute`, the reference semantics `Run`, and the loop `Interpret`.
- `InterpreterProperties`:
  - a conservative type inference `Infer` proved sound against `Evaluate`;
  - how runs compose;
  - that the first error ends a run;
  - the laws of `!!` and `--`.

Behaviour follows the code where the code and its own comments disagree:

- **Right-associative `+`/`-`.** `term` parses its right operand with `term()` itself, although
  the grammar comment above it says `factor`. So `+`/`-` chains are right-associative:
  `a - b - c` is `a - (b - c)`, which `Parser.TermLoopOnce` and
  `ParserExamples.MinusGroupsRight` state. All the other binary levels are left-associative.
- **No error recovery.** `parse` catches no `ParseError`, so the first syntax error is the result
  of the whole parse. `synchronize` is defined but never called.
- **Errors as values.** A syntax error is the `Err` side of the result and carries the token and
  message passed to `error`. A runtime error is returned by `Interpret` together with the lines
  printed before it.

Number formatting is a parameter `show: real -> string`, standing for Java's
`Double.toString`. Only the removal of a trailing `.0` in `stringify` is modelled.

## Model

| member | source | states |
|---|---|---|
| Grammar.LiteralToken | JLox/src/Parser.java:115-126 | the token built for a literal value is one `primary` turns back into exactly that value |
| Grammar.LevelsNest | JLox/src/Parser.java:60-111 | every level accepts the trees of the levels that bind tighter (each takes its operands from the next one) |
| Parser.Advance | JLox/src/Parser.java:159-164 | the cursor moves by one unless at EOF, never past the last token, and the token returned is the one before the new cursor |
| Parser.IsAtEnd | JLox/src/Parser.java:166-168 | the cursor is at the end when it stands on EOF, which on a scanner's token sequence it does at the last position |
| Parser.Peek | JLox/src/Parser.java:170-172 | the current token is one of the input tokens, and EOF at the last position |
| Parser.Previous | JLox/src/Parser.java:174-176 | the token just consumed is an input token standing before the cursor |
| Parser.Check | JLox/src/Parser.java:152-157 | a request for kind EOF never matches, since `isAtEnd` is tested before the kind |
| Parser.CheckFalseAtEnd | JLox/src/Parser.java:152-157 | while the cursor is on EOF, `check` is false for every kind |
| Parser.Match | JLox/src/Parser.java:135-143 | one token is consumed exactly when the current token is not EOF and has one of the kinds, otherwise none |
| Parser.Consume | JLox/src/Parser.java:145-150 | succeeds, one token further, exactly when `check` holds; otherwise fails at the current token with the given message |
| Parser.ParseExpression | JLox/src/Parser.java:35-38 | a parsed expression consumes at least one token, starts with a token that can start an expression, is an equality-shaped tree and stops before any binary operator; a failure carries an expression error message |
| Parser.ParseEquality | JLox/src/Parser.java:59-68 | the result is an equality-shaped tree and the cursor stays in bounds |
| Parser.EqualityLoop | JLox/src/Parser.java:62-66 | the loop keeps the tree equality-shaped and stops only before a token that is no binary operator |
| Parser.EqualityLoopStops | JLox/src/Parser.java:62-66 | at a token other than `!=`/`==` the loop returns the tree so far, cursor unchanged |
| Parser.EqualityLoopStep | JLox/src/Parser.java:62-66 | each `!=`/`==` makes the tree so far the LEFT operand of a new node (left associativity) |
| Parser.EqualityLoopOperand | JLox/src/Parser.java:62-66 | a loop that succeeds at a `!=`/`==` has parsed the comparison after it, and the node it builds is equality-shaped |
| Parser.EqualitySplits | JLox/src/Parser.java:59-68 | a successful `equality` began with a successful `comparison` and continued in its loop |
| Parser.ParseComparison | JLox/src/Parser.java:70-79 | the result is comparison-shaped and stops before every comparison, term and factor operator |
| Parser.ComparisonLoop | JLox/src/Parser.java:73-77 | the loop keeps the tree comparison-shaped and stops only before a token that is no comparison, term or factor operator |
| Parser.ComparisonLoopStops | JLox/src/Parser.java:73-77 | at a token that is no comparison operator the loop returns the tree so far |
| Parser.ComparisonLoopStep | JLox/src/Parser.java:73-77 | each comparison operator makes the tree so far the left operand of a new node |
| Parser.ComparisonLoopOperand | JLox/src/Parser.java:73-77 | a loop that succeeds at a comparison operator has parsed the term after it, and the node it builds is comparison-shaped |
| Parser.ComparisonSplits | JLox/src/Parser.java:70-79 | a successful `comparison` began with a successful `term` and continued in its loop |
| Parser.ParseTerm | JLox/src/Parser.java:81-90 | the result is term-shaped, with a factor on the left of each `+`/`-` and a term on the right, and stops before every `+ - / *` |
| Parser.TermLoop | JLox/src/Parser.java:84-88 | the loop keeps the tree term-shaped and leaves no `+`/`-` behind |
| Parser.TermLoopOnce | JLox/src/Parser.java:84-88 | a `-`/`+` takes the whole term after it as its right operand and the loop ends there, so `a - b - c` is `a - (b - c)` |
| Parser.TermLoopStops | JLox/src/Parser.java:84-88 | at a token that is no `+ - / *` the loop returns the tree so far |
| Parser.TermLoopOperand | JLox/src/Parser.java:84-88 | a loop that succeeds at a `-`/`+` has parsed the whole term after it, and that term is the node's right operand |
| Parser.TermSplits | JLox/src/Parser.java:81-90 | a successful `term` began with a successful `factor` and continued in its loop |
| Parser.ParseFactor | JLox/src/Parser.java:92-101 | the result is factor-shaped and stops before `/` and `*` |
| Parser.FactorLoop | JLox/src/Parser.java:95-99 | the loop keeps the tree factor-shaped and stops only before a token other than `/` and `*` |
| Parser.FactorLoopStops | JLox/src/Parser.java:95-99 | at a token other than `/`/`*` the loop returns the tree so far |
| Parser.FactorLoopStep | JLox/src/Parser.java:95-99 | each `/`/`*` makes the tree so far the left operand of a new node |
| Parser.FactorLoopOperand | JLox/src/Parser.java:95-99 | a loop that succeeds at a `/`/`*` has parsed the unary expression after it, and the node it builds is factor-shaped |
| Parser.FactorSplits | JLox/src/Parser.java:92-101 | a successful `factor` began with a successful `unary` and continued in its loop |
| Parser.ParseUnary | JLox/src/Parser.java:103-111 | the result is a chain of `!`/`-` over a primary |
| Parser.UnaryNests | JLox/src/Parser.java:105-109 | a prefix operator applies to the whole unary expression after it: `!!x` is `Unary(!, Unary(!, x))` |
| Parser.UnaryFallsThrough | JLox/src/Parser.java:105-110 | a token other than `!`/`-` leaves `unary` to `primary` |
| Parser.UnaryOperand | JLox/src/Parser.java:105-109 | a successful `unary` at `!`/`-` has parsed the unary expression after it, which becomes the operand |
| Parser.ParsePrimary | JLox/src/Parser.java:113-133 | a parsed primary is a literal or a grouping and starts with a literal token or `(` |
| Parser.PrimaryLiteral | JLox/src/Parser.java:115-126 | `false`/`true`/`nil` become those literals, and NUMBER/STRING become `Literal(token.literal)`, each consuming one token |
| Parser.PrimaryGroups | JLox/src/Parser.java:127-131 | `( e )` becomes `Grouping(e)`, ending after the `)` |
| Parser.PrimaryUnclosed | JLox/src/Parser.java:127-131 | an expression after `(` not followed by `)` fails with "Expect ')' after expression." at the token found instead |
| Parser.GroupingOperand | JLox/src/Parser.java:127-131 | a successful `primary` at `(` has parsed an expression followed by `)` and returns its grouping |
| Parser.PrimaryOpensGrouping | JLox/src/Parser.java:115-131 | at `(` none of the literal branches applies, so `primary` takes the grouping branch |
| Parser.PrimaryRejects | JLox/src/Parser.java:132 | a token that starts no primary, EOF included, fails with "Expect expression." at that token |
| Parser.PrimaryErrorPropagates | JLox/src/Parser.java:36-38 | when an expression not opened by `!`/`-` fails in its first primary, that failure is the failure of the whole expression |
| Parser.ExpressionRejects | JLox/src/Parser.java:132 | a token that starts no expression fails the whole expression with "Expect expression." at that token |
| Parser.ParseGrouping | JLox/src/Parser.java:128-130 | a parsed grouping ends right after a `)` |
| Parser.GroupingSplits | JLox/src/Parser.java:128-130 | a successful grouping has parsed an expression, then a `)` |
| Parser.ParseStatement | JLox/src/Parser.java:40-45 | a statement ends right after a `;`, and it is a `Print` exactly when it begins with `print` |
| Parser.StatementDispatch | JLox/src/Parser.java:40-45 | a leading `print` is consumed and selects `printStatement`; anything else selects `expressionStatement` |
| Parser.ParsePrintStatement | JLox/src/Parser.java:47-51 | a parsed print statement is a `Print` ending after its `;` |
| Parser.PrintStatementEnds | JLox/src/Parser.java:47-51 | after `print e` a `;` completes `Print(e)`; any other token fails with "Expect ';' after value." at that token |
| Parser.ParseExpressionStatement | JLox/src/Parser.java:53-57 | a parsed expression statement is an `Expression` ending after its `;` |
| Parser.ExpressionStatementEnds | JLox/src/Parser.java:53-57 | after `e` a `;` completes `Expression(e)`; any other token fails with "Expect ';' after value." at that token |
| Parser.ExpressionStatementParsed | JLox/src/Parser.java:40-57 | an expression followed by `;` is an expression statement, since no expression starts with `print` or EOF |
| Parser.StatementOperand | JLox/src/Parser.java:40-57 | a successful statement has parsed an expression, after the `print` if there is one, and then a `;` |
| Parser.ParseFrom | JLox/src/Parser.java:27-33 | at EOF no statements remain; every statement produced is a `print` or expression statement |
| Parser.ParseFromStep | JLox/src/Parser.java:29-31 | a parsed statement comes first, followed by the statements parsed after it or by their error |
| Parser.ParseFromSplits | JLox/src/Parser.java:27-33 | a successful loop that is not at EOF has parsed a first statement and then the rest |
| Parser.ParseFromAborts | JLox/src/Parser.java:27-33 | the first statement that fails to parse makes its error the result of the whole loop |
| Parser.ExpressionErrorAborts | JLox/src/Parser.java:27-57 | an expression statement whose expression fails ends the parse with that error |
| Parser.UnclosedGroupingAborts | JLox/src/Parser.java:127-131 | a statement opened by an unclosed `(` ends the parse with "Expect ')' after expression." at the token found |
| Parser.Parse | JLox/src/Parser.java:27-33 | a token list holding only EOF parses to no statements; only `print`/expression statements are produced; errors carry a statement error message |
| Parser.Synchronize | JLox/src/Parser.java:183-202 | steps over at least one token unless at EOF, then stops at the first point after a `;`, before a statement keyword, or at EOF, having passed no earlier such point |
| ParserRoundTrip.LiteralRoundTrip | JLox/src/Parser.java:115-126 | a literal's token parses back to the literal |
| ParserRoundTrip.GroupingRoundTrip | JLox/src/Parser.java:127-131 | the tokens of a grouping parse back to the grouping |
| ParserRoundTrip.PrimaryRoundTrip | JLox/src/Parser.java:113-133 | the tokens of any primary-shaped tree parse back to it with `primary` |
| ParserRoundTrip.UnaryRoundTrip | JLox/src/Parser.java:103-111 | the tokens of any unary-shaped tree parse back to it with `unary` |
| ParserRoundTrip.FactorRoundTrip | JLox/src/Parser.java:92-101 | the tokens of any factor-shaped tree, followed by no `/`/`*`, parse back to it with `factor` |
| ParserRoundTrip.TermRoundTrip | JLox/src/Parser.java:81-90 | the tokens of any term-shaped (right-nested) tree, followed by no `+ - / *`, parse back to it with `term` |
| ParserRoundTrip.TermNodeRoundTrip | JLox/src/Parser.java:84-88 | a `+`/`-` node with a factor on the left and a term on the right parses back to itself |
| ParserRoundTrip.ComparisonRoundTrip | JLox/src/Parser.java:70-79 | the tokens of any comparison-shaped tree, followed by no comparison, term or factor operator, parse back to it with `comparison` |
| ParserRoundTrip.ExpressionRoundTrip | JLox/src/Parser.java:35-68 | the tokens of any equality-shaped tree followed by a non-operator token parse back to exactly that tree, ending after its last token |
| ParserRoundTrip.StatementRoundTrip | JLox/src/Parser.java:40-57 | the tokens of a `print` or expression statement parse back to it, ending after its `;` |
| ParserRoundTrip.PrintRoundTrip | JLox/src/Parser.java:47-51 | `print`, the tokens of `e`, then `;` parse back to `Print(e)` |
| ParserRoundTrip.ExpressionStmtRoundTrip | JLox/src/Parser.java:53-57 | the tokens of `e`, then `;`, parse back to `Expression(e)` |
| ParserRoundTrip.ProgramRoundTrip | JLox/src/Parser.java:27-33 | the tokens of a statement list followed by EOF parse back to the same list, in source order |
| ParserRoundTrip.ProgramCons | JLox/src/Parser.java:29-31 | one statement followed by a parsed rest yields that statement before the rest |
| ParserRoundTrip.SingleStatementProgram | JLox/src/Parser.java:27-33 | the tokens of one statement followed by EOF parse to that one statement |
| ParserRoundTrip.TwoStatementProgram | JLox/src/Parser.java:27-33 | the tokens of two statements followed by EOF parse to the two, in order |
| ParserRoundTrip.FlattenAt | JLox/src/Parser.java:35-133 | the tokens `Flatten` writes for a tree are exactly the tokens the parser reads for it, and as many as `Size` counts |
| ParserRoundTrip.FlattenStmtsAt | JLox/src/Parser.java:27-57 | the tokens `FlattenStmts` writes frame each statement in turn |
| ParserRoundTrip.ParseInvertsFlatten | JLox/src/Parser.java:27-33 | parsing the flattened tokens of any list of well-shaped `print`/expression statements, plus EOF, returns that list |
| ParserFraming.PrimaryAt | JLox/src/Parser.java:113-133 | whatever `primary` returns is framed by exactly the tokens it consumed |
| ParserFraming.UnaryAt | JLox/src/Parser.java:103-111 | whatever `unary` returns is framed by exactly the tokens it consumed |
| ParserFraming.FactorAt | JLox/src/Parser.java:92-101 | whatever `factor` returns is framed by exactly the tokens it consumed |
| ParserFraming.FactorLoopAt | JLox/src/Parser.java:95-99 | the loop of `factor` extends the framing of the tree so far by each operator and operand it consumes |
| ParserFraming.FactorOperandAt | JLox/src/Parser.java:95-99 | one `/`/`*` and the unary expression after it extend the framing of the tree so far |
| ParserFraming.TermAt | JLox/src/Parser.java:81-90 | whatever `term` returns is framed by exactly the tokens it consumed |
| ParserFraming.TermLoopAt | JLox/src/Parser.java:84-88 | the loop of `term` extends the framing of the factor so far by at most one operator and the whole term after it |
| ParserFraming.ComparisonAt | JLox/src/Parser.java:70-79 | whatever `comparison` returns is framed by exactly the tokens it consumed |
| ParserFraming.ComparisonLoopAt | JLox/src/Parser.java:73-77 | the loop of `comparison` extends the framing of the tree so far by each operator and operand it consumes |
| ParserFraming.ComparisonOperandAt | JLox/src/Parser.java:73-77 | one comparison operator and the term after it extend the framing of the tree so far |
| ParserFraming.EqualityAt | JLox/src/Parser.java:59-68 | whatever `equality` returns is framed by exactly the tokens it consumed |
| ParserFraming.EqualityLoopAt | JLox/src/Parser.java:62-66 | the loop of `equality` extends the framing of the tree so far by each operator and operand it consumes |
| ParserFraming.EqualityOperandAt | JLox/src/Parser.java:62-66 | one `!=`/`==` and the comparison after it extend the framing of the tree so far |
| ParserFraming.ExpressionAt | JLox/src/Parser.java:35-38 | a parsed expression is framed by the tokens it consumed, and the cursor ends right after the tree's last token |
| ParserFraming.StatementAt | JLox/src/Parser.java:40-57 | a parsed statement is framed by its tokens up to and including its `;` |
| ParserFraming.PrintStmtAt | JLox/src/Parser.java:47-51 | `print`, a parsed expression and `;` frame the `Print` statement |
| ParserFraming.ExpressionStmtAt | JLox/src/Parser.java:53-57 | a parsed expression and `;` frame the `Expression` statement |
| ParserFraming.ProgramAt | JLox/src/Parser.java:27-33 | the statements the loop of `parse` yields are framed one after another by the tokens, in source order, with EOF right after the last |
| ParserFraming.FramedCons | JLox/src/Parser.java:29-31 | a framed statement before a framed rest frames the whole list |
| ParserFraming.ParseExactly | JLox/src/Parser.java:27-33 | `parse` succeeds with a statement list exactly when the tokens frame that list, in order, up to EOF |
| ParserExamples.EmptyProgram | JLox/src/Parser.java:27-33 | EOF alone parses to no statements |
| ParserExamples.MinusGroupsRight | JLox/src/Parser.java:82-90 | `x - y - z;` parses as `x - (y - z)` |
| ParserExamples.ParenthesesGroupLeft | JLox/src/Parser.java:127-131 | `(x - y) - z;` parses as a grouping on the left of `-` |
| ParserExamples.EqualityGroupsLeft | JLox/src/Parser.java:60-68 | `x == y == z;` parses as `(x == y) == z` |
| ParserExamples.StarBindsTighter | JLox/src/Parser.java:82-101 | `x + y * z;` parses as `x + (y * z)` |
| ParserExamples.StarBindsTighterAfter | JLox/src/Parser.java:82-101 | `x * y + z;` parses as `(x * y) + z` |
| ParserExamples.ComparisonBindsTighter | JLox/src/Parser.java:60-79 | `x < y == true;` parses as `(x < y) == true` |
| ParserExamples.StatementsInOrder | JLox/src/Parser.java:27-51 | `print !!true; y;` parses to the nested-`!` print statement, then the expression statement |
| ParserExamples.PrintNotNotAt | JLox/src/Parser.java:104-109 | the tokens of `print !!true;` frame `Print(Unary(!, Unary(!, true)))` |
| ParserExamples.MissingSemicolon | JLox/src/Parser.java:47-51 | `print x` without `;` fails with "Expect ';' after value." at EOF |
| ParserExamples.UnclosedGrouping | JLox/src/Parser.java:127-131 | `(x;` fails with "Expect ')' after expression." at the `;` |
| ParserExamples.NoRecovery | JLox/src/Parser.java:27-33 | a stray `;` fails with "Expect expression." even when a well-formed statement follows |
| Interpreter.IsTruthy | JLox/src/Interpreter.java:48-56 | a value is falsey exactly when it is `nil` or `false`; `0` and `""` are truthy |
| Interpreter.IsEqual | JLox/src/Interpreter.java:58-66 | `nil` equals only `nil`, and otherwise values are equal exactly when they are the same value |
| Interpreter.JavaEquals | JLox/src/Interpreter.java:65 | `equals` on a non-null value holds exactly for the same value |
| Interpreter.CheckNumberOperand | JLox/src/Interpreter.java:33-38 | succeeds with the number exactly when the operand is one; otherwise "Operand must be a number." at the operator |
| Interpreter.CheckNumberOperands | JLox/src/Interpreter.java:40-45 | succeeds with both numbers exactly when both operands are numbers; otherwise "Operands must be numbers." at the operator |
| Interpreter.EndsWithPointZero | JLox/src/Interpreter.java:74 | `endsWith(".0")` holds exactly when the last two characters are `.` and `0`, and then removing them leaves the rest of the text |
| Interpreter.Stringify | JLox/src/Interpreter.java:68-80 | `nil` is "nil", booleans and strings give their own text, and a number's text loses a trailing ".0" and is otherwise unchanged |
| Interpreter.ApplyUnary | JLox/src/Interpreter.java:21-31 | `!` gives the negated truthiness of any value; `-` negates a number and fails with "Operand must be a number." on anything else |
| Interpreter.Compare | JLox/src/Interpreter.java:113-124 | the comparisons succeed exactly on two numbers, giving the boolean of the matching relation |
| Interpreter.Add | JLox/src/Interpreter.java:133-144 | numbers add, strings concatenate, a string with a number concatenates both printed texts in operand order, and any other pair fails with "Operands must be two numbers or two strings." |
| Interpreter.Divide | JLox/src/Interpreter.java:145-150 | the type check comes before the zero check: non-numbers fail with "Operands must be numbers.", a zero divisor with "Cannot divide by zero.", otherwise the quotient |
| Interpreter.Arithmetic | JLox/src/Interpreter.java:125-127 | `-` and `*` succeed exactly on two numbers, giving the difference or the product |
| Interpreter.ApplyBinary | JLox/src/Interpreter.java:112-155 | `==`/`!=` never fail and are complements; each other operator behaves as its helper; unlisted operators give `nil`; every error is reported at the operator |
| Interpreter.Evaluate | JLox/src/Interpreter.java:15-156 | operands are evaluated left then right, so an error on the left wins; a literal is its value; every runtime error is reported at one of the expression's operators |
| Interpreter.Execute | JLox/src/Interpreter.java:95-106 | a statement succeeds exactly when its expression evaluates; `print` yields the single line `stringify(value)`, an expression statement yields none |
| Interpreter.Run | JLox/src/Interpreter.java:5-13 | a run ends without an error exactly when every statement executes, and it then prints one line per `print` |
| Interpreter.RunFrom | JLox/src/Interpreter.java:7-9 | running from a statement is executing it, then running the rest, unless it fails |
| Interpreter.Interpret | JLox/src/Interpreter.java:5-13 | the loop produces exactly the reference outcome `Run`: the lines printed, in order, and the first runtime error |
| InterpreterProperties.ApplyBinaryTyped | JLox/src/Interpreter.java:112-155 | on operand types `BinaryType` accepts, every binary operator succeeds with a value of the type it names |
| InterpreterProperties.InferSound | JLox/src/Interpreter.java:16-156 | an expression `Infer` accepts evaluates without a runtime error, to a value of the inferred type |
| InterpreterProperties.BinarySound | JLox/src/Interpreter.java:109-156 | the operator-node case of `InferSound` |
| InterpreterProperties.DoubleNot | JLox/src/Interpreter.java:24-25 | `!!e` is the truthiness of `e`, whichever two `!` tokens are used |
| InterpreterProperties.DoubleNegation | JLox/src/Interpreter.java:26-28 | `--e` is `e` on numbers and otherwise fails with "Operand must be a number." at the inner `-`, which is applied first |
| InterpreterProperties.RunAppend | JLox/src/Interpreter.java:5-13 | running `a + b` is running `a` and, if no error occurred, then `b`, with `a`'s output first |
| InterpreterProperties.FirstErrorStops | JLox/src/Interpreter.java:6-12 | the first failing statement's error is the run's error, and the output is exactly what the statements before it printed |

## Left out

- The scanner is left out. The parser takes a token sequence ending in EOF as its precondition.
- `TokenType.java` and `RuntimeError.java` are not in the source tree. `Tokens.TokenType` and `Interpreter.RuntimeError` (a token and a message) are rebuilt from the names that `Parser.java` and `Interpreter.java` use.
- `Lox.java` is the driver: file and prompt I/O, stderr messages and their `[line N]` formatting, the `hadError`/`hadRuntimeError` flags and the exit codes. It is left out. Its `run` assigns the statement list from `parse()` to an `Expr`, which does not type-check against this parser.
- `GenerateAst.java` is a build-time generator of Java source and is left out. The `Expr` datatype has the four variants the parser builds, since `Expr.java` in this tree declares only `Binary`.
- Execution of `Block` and `Var`, and any environment, are left out. `Interpreter.java` has no visitor for them and the parser never builds them, so `Interpret` requires `print` and expression statements only.
- Numbers are mathematical reals. IEEE-754 rounding, NaN, infinities and signed zero are left out, including their effect on `Double.equals` and the zero test in `/`.
- `Double.toString` is the parameter `show`: its digits are not modelled.
- Printing to standard output becomes the returned list of lines. Reporting a runtime error through `Lox.runtimeError` becomes the returned `error`.
- Parser.ParseExpression: says only that an error carries a message from the expression error set and a token of the input. The exact token and message for each failure are stated by `PrimaryRejects`, `PrimaryUnclosed`, `PrintStatementEnds` and `ExpressionStatementEnds`.
- Parser.ParseFrom: weaker on errors in the same way as `ParseExpression`. `ParseFromAborts` states which error is the result.
- Parser.Parse: weaker on errors in the same way as `ParseExpression`. `ParseFromAborts` states which error is the result.
- Parser.Synchronize: modelled as the standalone operation it is. No production calls it, because `parse` never recovers. It requires a cursor past the first token or not on EOF. At cursor 0 on a sequence whose first token is EOF, Java's `advance()` calls `previous()`, which reads `tokens.get(-1)` and throws `IndexOutOfBoundsException`; that crash is not modelled.
- Parser.Advance: requires a cursor past the first token or not on EOF, for the same reason: otherwise `previous()` reads `tokens.get(-1)` and throws `IndexOutOfBoundsException`, a crash that is not modelled. `match` and `consume` call it only on a token that is not EOF, so `parse` never reaches that case.
- InterpreterProperties.InferSound: `Infer` is conservative. It rejects divisions by anything but a non-zero number literal, and it rejects some expressions that would evaluate without error.
