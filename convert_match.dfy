/**
 * The if -> match rewriter: the first If_ of the program becomes a Match_
 * expression on $x with one guarded arm per if/elseif branch and a
 * wildcard arm for the else.
 */
module ConvertMatch {
  import opened Wrappers
  import opened PhpAst

  /**
   * NodeFinder::findInstanceOf(ast, If_::class): every If_ of the tree, in
   * the finder's order. External; the rewriter only takes the first.
   */
  type IfFinder = seq<Stmt> -> seq<IfNode>

  /** A body the rewriter can read: its first statement is an echo, whose exprs it takes. */
  predicate EchoFirst(stmts: seq<Stmt>)
  {
    |stmts| > 0 && stmts[0].Echo?
  }

  /** Every branch of the if, the else included, has a body of that shape. */
  predicate Convertible(n: IfNode)
  {
    && EchoFirst(n.stmts)
    && (forall j | 0 <= j < |n.elseifs| :: EchoFirst(n.elseifs[j].stmts))
    && (n.els.Some? ==> EchoFirst(n.els.value.stmts))
  }

  /** The arm body: a call named echo on the operands of the first statement. */
  function EchoCall(stmts: seq<Stmt>): (e: Expr)
    requires EchoFirst(stmts)
    ensures e.FuncCall? && e.name == "echo" && e.args == stmts[0].exprs
  {
    FuncCall("echo", stmts[0].exprs)
  }

  /**
   * createMatchArm: a guarded arm whose only condition is the branch's
   * condition, unmodified; statements after the first are not read.
   */
  function CreateMatchArm(cond: Expr, stmts: seq<Stmt>): (arm: MatchArm)
    requires EchoFirst(stmts)
    ensures arm.conds == Some([cond])
    ensures arm.body == EchoCall(stmts[..1])
  {
    MatchArm(Some([cond]), EchoCall(stmts))
  }

  /** The wildcard arm built from the else. */
  function WildcardArm(els: Else): (arm: MatchArm)
    requires EchoFirst(els.stmts)
    ensures arm.conds.None?
    ensures arm.body == EchoCall(els.stmts[..1])
  {
    MatchArm(None, EchoCall(els.stmts))
  }

  /**
   * The Match_ built from an If_: the if arm, one arm per elseif in source
   * order, then the wildcard arm for the else; the subject is always $x.
   */
  function MatchFor(n: IfNode): (m: MatchNode)
    requires Convertible(n)
    ensures |m.arms| == 1 + |n.elseifs| + (if n.els.Some? then 1 else 0)
    ensures m.arms[0] == CreateMatchArm(n.cond, n.stmts)
    ensures forall j :: 0 <= j < |n.elseifs| ==>
      m.arms[1 + j] == CreateMatchArm(n.elseifs[j].cond, n.elseifs[j].stmts)
    ensures n.els.Some? ==> m.arms[|m.arms| - 1] == WildcardArm(n.els.value)
    ensures forall i :: 0 <= i < |m.arms| ==>
      (m.arms[i].conds.None? <==> n.els.Some? && i == |m.arms| - 1)
    ensures m.subject == Variable("x")
  {
    var guarded := [CreateMatchArm(n.cond, n.stmts)]
      + seq(|n.elseifs|, j requires 0 <= j < |n.elseifs| => CreateMatchArm(n.elseifs[j].cond, n.elseifs[j].stmts));
    var wildcard := if n.els.Some? then [WildcardArm(n.els.value)] else [];
    MatchNode(Variable("x"), guarded + wildcard)
  }

  /** What convertIfToMatch produces. */
  datatype MatchOutcome =
    | MatchParseError(message: string)  // "Parse error: ..." is echoed, nothing is returned
    | NoIfStatement                     // "No if statement found" is echoed, nothing is returned
    | Matched(matchNode: MatchNode)

  /**
   * convertIfToMatch on an already-parsed program: a parse error or a tree
   * without If_ ends the call; otherwise the first If_ the finder returns is
   * turned into a Match_, arm by arm.
   */
  method ConvertIfToMatch(parsed: Result<seq<Stmt>>, find: IfFinder) returns (r: MatchOutcome)
    requires parsed.Ok? && |find(parsed.value)| > 0 ==> Convertible(find(parsed.value)[0])
    ensures parsed.Err? ==> r == MatchParseError("Parse error: " + parsed.message + "\n")
    ensures parsed.Ok? && |find(parsed.value)| == 0 ==> r == NoIfStatement
    ensures parsed.Ok? && |find(parsed.value)| > 0 ==> r == Matched(MatchFor(find(parsed.value)[0]))
  {
    if parsed.Err? {
      return MatchParseError("Parse error: " + parsed.message + "\n");
    }
    var ifNodes := find(parsed.value);
    if |ifNodes| == 0 {
      return NoIfStatement;
    }

    var ifNode := ifNodes[0];
    ghost var spec := MatchFor(ifNode);
    var arms: seq<MatchArm> := [];

    arms := arms + [CreateMatchArm(ifNode.cond, ifNode.stmts)];

    for j := 0 to |ifNode.elseifs|
      invariant arms == spec.arms[..1 + j]
    {
      var elseif := ifNode.elseifs[j];
      arms := arms + [CreateMatchArm(elseif.cond, elseif.stmts)];
    }

    if ifNode.els.Some? {
      arms := arms + [MatchArm(None, EchoCall(ifNode.els.value.stmts))];
    }

    r := Matched(MatchNode(Variable("x"), arms));
  }
}
