# PHP if-chain rewriters, modelled in Dafny

The project models the two PHP-to-PHP rewriters of phptools. Both take a parsed
PHP program and rewrite an `if` / `elseif` / `else` chain:

- `convertIfToSwitch` (`lua/phptools/convert.php`) walks the whole tree and
  replaces every `If_` node with a `Switch_`. The switch subject is taken from
  the first condition. Each case key comes from `processCondition`, and the
  else becomes the `default:` case.
- `convertIfToMatch` (`lua/phptools/convertMatch.php`) takes the first `If_`
  found and builds a `match ($x)` expression. There is one guarded arm per
  if/elseif branch and a wildcard arm for the else.

Files:

- `wrappers.dfy`: `Option` (PHP's nullable values, with `GetOr` for `??`) and
  `Result`, the parser's outcome.
- `php_ast.dfy`: the syntax-tree values that are read or built. These are
  expressions, statements, `If_`, `ElseIf_`, `Else_`, `Case_`, `Switch_`,
  `MatchArm` and `Match_`. Only `IfNode`, `ElseIf`, `Else`, `Case` and
  `SwitchNode` carry comments. The module also has the predicate `IfFree` ("no `If_` at any depth").
- `convert.dfy`: the switch rewriter. It holds `ProcessCondition` and the
  subject-free reference definition `CaseKey`, and `SwitchFor`, the
  specification of the Switch_ built from an If_. `ConvertToSwitch` is the
  do-while loop of `convertToSwitch`, proved equal to `SwitchFor`. The file also
  has `LeaveNode`, the children-first tree rebuild with its lemmas, and
  `ConvertIfToSwitch`.
- `convert_match.dfy`: the match rewriter. It holds `CreateMatchArm`,
  `MatchFor` (the specification of the Match_) and `ConvertIfToMatch`, the
  method that appends the arms one by one.

External collaborators become parameters:

- The pretty printer used by `conditionToString` (print, then trim) is the
  parameter `render: Expr -> string`, and nothing is assumed about it.
- The NodeFinder is the parameter `find`, which returns the `If_` nodes of a
  tree.
- The parser's result is an input `Result`.

## Behaviour of the code worth noting

- The switch rewriter does not follow the whole chain. The else check
  (`convert.php:56`) runs before the move to `elseifs[0]` (`convert.php:63`).
  So an `if` with an `else` gives exactly two cases, and none of its elseifs is
  visited. Without an `else`, only `elseifs[0]` is visited: an `ElseIf_` has no
  `else` or `elseifs` of its own, so the loop stops there. An if with two or
  more elseifs therefore loses the later branches. `SwitchFor` states the
  count of cases.
- For `$x == 1 && $y > 0`, each side is replaced by its own key before
  printing. The key of the comparison `$x == 1` is its right operand `1`.
  The key of `$y > 0` is a string literal that already holds the printed
  `$y > 0` (`convert.php:88`), and `conditionToString` prints that literal
  again (`convert.php:85`). So the key joins the printed `1` and the printed
  string literal; the `$x ==` part does not appear in it. `CaseKey` states
  this: the right side is `render(StringLit(render(...)))`.
- The if's comments are attached twice: to the new `Switch_`
  (`convert.php:71`) and to its first case (`convert.php:53`). `SwitchFor`
  states both.
- The match arms carry no comments. `createMatchArm` does not copy them.
- The match rewriter never checks the shape of a branch body. It reads
  `$stmts[0]->exprs` directly (`convertMatch.php:46-48`, `convertMatch.php:66-69`).
  The model makes "the body starts with an echo" a precondition (`Convertible`).

## Model

| member | source | states |
|---|---|---|
| `Convert.ProcessCondition` | lua/phptools/convert.php:75-90 | Neither the returned subject nor the key is ever null. A subject that is already set comes back unchanged. With none set, the subject becomes the left operand of an `==`/`===`, otherwise the literal `'true'`. The key equals `CaseKey(cond)` whatever subject comes in. That key is the right operand of a comparison, even when its left operand differs from the subject. For a boolean and (or) it is the string literal of `(`, the printed key of the left side, `) and (` (`) or (`), the printed key of the right side and `)`, built from the two sides' keys. Otherwise it is the printed condition. |
| `Convert.SwitchFor` | lua/phptools/convert.php:40-73 | The switch built from an if has this shape. There are `1 + (else present or elseifs non-empty ? 1 : 0)` cases. The first case has the if's key, the if's body and the if's comments. With an else, the second case is the default, with the else's body and comments, and no elseif is used. Without an else, the second case comes from `elseifs[0]` alone. Only the last case can have a null key, and it has one exactly when there is an else. The subject is determined by the first condition alone. The switch carries the if's comments, the same list as its first case. |
| `Convert.ConvertToSwitch` | lua/phptools/convert.php:40-73 | The do-while loop, which threads `$currentNode` and `$switchExpr`, yields exactly `SwitchFor(ifNode)`. Its `decreases` clause bounds the loop to two passes. An assertion after the loop shows that the `?? 'true'` fallback at line 70 is never taken. |
| `Convert.LeaveNode` | lua/phptools/convert.php:33-38 | An `If_` is replaced by a `Switch_` equal to `SwitchFor` of it, carrying the if's comments. Every other node is returned unchanged. |
| `Convert.RewriteStmt` | lua/phptools/convert.php:31-38 | The traversal of one statement rewrites its children first and then applies leaveNode. An echo is unchanged. An `If_` becomes exactly `SwitchFor` of the if rebuilt from its rewritten body, elseifs and else. Its subject and comments are the if's, and it has the case count of `SwitchFor`. Its first case has the if's key and the rewritten if body. With an else, the second case is the default, with the rewritten else body and the else's comments. Without an else, the second case has the key of `elseifs[0]`, its rewritten body and its comments. An existing switch keeps its subject and comments and gets its cases rewritten. Any other statement keeps its kind and gets its body rewritten. |
| `Convert.RewriteStmts` | lua/phptools/convert.php:99-100 | Traversing a statement list rewrites each statement on its own. The list keeps its length and order. Its field-by-field contract mirrors its body. What the traversal as a whole promises is stated by `RewriteStmtIsIfFree`, `RewriteStmtsAreIfFree` and `IfFreeStmtUnchanged`. |
| `Convert.RewriteElseIfs` | lua/phptools/convert.php:99-100 | Traversing the elseif clauses keeps their number, conditions and comments, and rewrites only their bodies. Its field-by-field contract mirrors its body. What the traversal as a whole promises is stated by `RewriteStmtIsIfFree`, `RewriteStmtsAreIfFree` and `IfFreeStmtUnchanged`. |
| `Convert.RewriteElse` | lua/phptools/convert.php:99-100 | Traversing keeps an else present or absent and keeps its comments; only its body is rewritten. Its field-by-field contract mirrors its body. What the traversal as a whole promises is stated by `RewriteStmtIsIfFree`, `RewriteStmtsAreIfFree` and `IfFreeStmtUnchanged`. |
| `Convert.RewriteCases` | lua/phptools/convert.php:99-100 | Traversing the cases of an existing switch keeps their number, keys and comments, and rewrites only their bodies. Its field-by-field contract mirrors its body. What the traversal as a whole promises is stated by `RewriteStmtIsIfFree`, `RewriteStmtsAreIfFree` and `IfFreeStmtUnchanged`. |
| `Convert.RewriteStmtIsIfFree` | lua/phptools/convert.php:31-38 | Inner nodes are visited before their parent, so no `If_` is left at any depth of a rewritten statement. This includes the bodies moved into the new cases. |
| `Convert.RewriteStmtsAreIfFree` | lua/phptools/convert.php:99-100 | No `If_` is left anywhere in a traversed statement list. |
| `Convert.IfFreeStmtUnchanged` | lua/phptools/convert.php:35-37 | A statement with no `If_` at any depth comes out of the traversal equal to itself. |
| `Convert.IfFreeStmtsUnchanged` | lua/phptools/convert.php:99-100 | A statement list with no `If_` comes out of the traversal unchanged. |
| `Convert.ConvertIfToSwitch` | lua/phptools/convert.php:20-104 | A parse error yields the message `"Parse error: " + message + "\n"` and no tree. Otherwise the result is the traversal `RewriteStmts` of the whole tree: it has as many top-level statements as the input and no `If_` left. A tree that had no `If_` is returned unchanged. |
| `ConvertMatch.EchoCall` | lua/phptools/convertMatch.php:66-69 | The arm body is a call named `echo` whose arguments are exactly the `exprs` of the first statement of the body. |
| `ConvertMatch.CreateMatchArm` | lua/phptools/convertMatch.php:62-71 | The arm is guarded. Its condition list is exactly the branch's condition, unmodified. Its body is the `echo` call, and it depends on the first statement of the branch only. |
| `ConvertMatch.WildcardArm` | lua/phptools/convertMatch.php:43-51 | The arm built from the else has null conditions, which makes it the wildcard. Its body is the `echo` call on the `exprs` of the else's first statement, and it depends on that statement only. |
| `ConvertMatch.MatchFor` | lua/phptools/convertMatch.php:31-56 | The match built from an if has one arm more than it has elseifs, plus one for an else. They come in this order: the if arm, then one arm per elseif in source order, each from `createMatchArm` on that branch, then the wildcard arm from the else. Only the last arm can have null conditions, and it has them exactly when there is an else. The subject is `$x` whatever the input. |
| `ConvertMatch.ConvertIfToMatch` | lua/phptools/convertMatch.php:12-60 | A parse error yields its message. When the finder returns no `If_`, the result is the "no if statement" outcome. Otherwise the arms appended one by one (the if arm, the `foreach` over elseifs, the else) give exactly `MatchFor` of the first `If_` found. The other `If_` nodes are ignored. |

## Left out

- Parsing: the parser is external, and its outcome is an input `Result`. The model does not go from source text to the error message.
- Printing: `prettyPrint`, `trim` and `prettyPrintFile` are not modelled (`convert.php:92-96`, `convert.php:102-103`, `convertMatch.php:58-59`). `conditionToString` is the uninterpreted parameter `render`, so the exact output text is not modelled. For example, the model does not say whether a string-literal key is printed with quotes. Both rewriters return the tree, not the printed text.
- Echoed messages: "Parse error: ..." and "No if statement found" are written to standard output, and the PHP functions then return null. The model returns the message or a distinct outcome instead of writing it.
- Traversal internals: `NodeTraverser` is modelled as a functional children-first rebuild of statements. Expressions contain no statements in this model, so an `If_` nested inside a closure expression is not modelled.
- NodeFinder: its search order is not modelled. `find` is a parameter, and only its first result is used.
- PHP runtime warnings: the undefined `else`/`elseifs` reads on an `ElseIf_` are modelled as "absent". Reading `$stmts[0]->exprs` on an empty body or a non-echo statement is excluded by the precondition `Convertible`.
- `ConvertMatch.ConvertIfToMatch`: its precondition requires each branch body of the first `If_` to start with an `echo`. In PHP, reading `$stmts[0]->exprs` on an empty body or a statement other than an echo gives null with a warning. That null is then passed as the arguments of the new `FuncCall`, which PhpParser declares as an `array`, so PHP throws a `TypeError` and the run stops. This failure path is not modelled.
- Node attributes other than comments, such as positions, are not modelled.
- Comments on expressions and on statements other than `if`, `elseif`, `else`, `case` and `switch` are not modelled. Neither rewriter reads or writes them.
- The hard-coded example program and the top-level `echo` of the result (`convert.php:108-125`, `convertMatch.php:75-91`) are not modelled.
