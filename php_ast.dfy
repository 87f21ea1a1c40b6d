/**
 * The part of the PHP syntax tree that the two rewriters read or build.
 * The parser and the printer are external; these values are what lies between them.
 */
module PhpAst {
  import opened Wrappers

  /** A comment attached to a node (its 'comments' attribute). */
  datatype Comment = Comment(text: string)

  /**
   * Expressions. The rewriters decompose only comparisons and the two boolean
   * combinators; string literals, variables and calls are what they build;
   * every other expression is opaque to them.
   */
  datatype Expr =
    | Equal(left: Expr, right: Expr)          // $a == $b
    | Identical(left: Expr, right: Expr)      // $a === $b
    | BooleanAnd(left: Expr, right: Expr)     // $a && $b
    | BooleanOr(left: Expr, right: Expr)      // $a || $b
    | StringLit(value: string)                // Scalar\String_
    | Variable(name: string)                  // $name
    | FuncCall(name: string, args: seq<Expr>) // name(args...)
    | OtherExpr(kind: string, operands: seq<Expr>)

  /**
   * Statements. Any statement other than echo, if and switch is OtherStmt,
   * with the statements nested in it (empty for a simple statement).
   */
  datatype Stmt =
    | Echo(exprs: seq<Expr>)
    | If(ifNode: IfNode)
    | Switch(switchNode: SwitchNode)
    | OtherStmt(kind: string, body: seq<Stmt>)

  /** Stmt\If_: condition, body, elseif clauses in source order, optional else. */
  datatype IfNode = IfNode(cond: Expr, stmts: seq<Stmt>, elseifs: seq<ElseIf>,
                           els: Option<Else>, comments: seq<Comment>)

  /** Stmt\ElseIf_: it has a condition and a body, but no else or elseifs of its own. */
  datatype ElseIf = ElseIf(cond: Expr, stmts: seq<Stmt>, comments: seq<Comment>)

  /** Stmt\Else_. */
  datatype Else = Else(stmts: seq<Stmt>, comments: seq<Comment>)

  /** Stmt\Case_: a null key is the `default:` case. */
  datatype Case = Case(key: Option<Expr>, stmts: seq<Stmt>, comments: seq<Comment>)

  /** Stmt\Switch_. */
  datatype SwitchNode = SwitchNode(subject: Expr, cases: seq<Case>, comments: seq<Comment>)

  /** MatchArm: null conditions make the arm the wildcard `default =>`. */
  datatype MatchArm = MatchArm(conds: Option<seq<Expr>>, body: Expr)

  /** Expr\Match_. */
  datatype MatchNode = MatchNode(subject: Expr, arms: seq<MatchArm>)

  /** The statement contains no If_ node at any depth. */
  predicate IfFree(s: Stmt)
    decreases s
  {
    match s
    case Echo(_) => true
    case If(_) => false
    case Switch(sw) => forall i | 0 <= i < |sw.cases| :: AllIfFree(sw.cases[i].stmts)
    case OtherStmt(_, body) => AllIfFree(body)
  }

  /** No statement of the list contains an If_ node. */
  predicate AllIfFree(ss: seq<Stmt>)
    decreases ss
  {
    forall i | 0 <= i < |ss| :: IfFree(ss[i])
  }
}
