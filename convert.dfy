/**
 * The if -> switch rewriter: every If_ node of the tree becomes a Switch_
 * whose cases are built from the if, its first elseif and its else.
 */
module Convert {
  import opened Wrappers
  import opened PhpAst

  /**
   * conditionToString: the external pretty printer applied to one expression,
   * with surrounding whitespace trimmed. Its output is left uninterpreted.
   */
  type Printer = Expr -> string

  /**
   * The switch subject a condition establishes when none is set yet: the
   * left operand of a comparison, otherwise the string literal 'true'.
   */
  function AdoptedSubject(cond: Expr): Expr
  {
    match cond
    case Equal(l, _) => l
    case Identical(l, _) => l
    case _ => StringLit("true")
  }

  /**
   * The case key of a condition, defined without any running subject:
   * the right operand of a comparison; for && and || a string literal
   * joining the keys of both sides; otherwise the printed condition.
   */
  function CaseKey(cond: Expr, render: Printer): Expr
  {
    match cond
    case Equal(_, r) => r
    case Identical(_, r) => r
    case BooleanAnd(l, r) => StringLit("(" + render(CaseKey(l, render)) + ") and (" + render(CaseKey(r, render)) + ")")
    case BooleanOr(l, r) => StringLit("(" + render(CaseKey(l, render)) + ") or (" + render(CaseKey(r, render)) + ")")
    case _ => StringLit(render(cond))
  }

  /**
   * processCondition: returns the pair (subject, key). The subject is
   * sticky (a subject already set is returned unchanged) and never null;
   * the key is never null and does not depend on the incoming subject.
   */
  function ProcessCondition(cond: Expr, current: Option<Expr>, render: Printer): (r: (Option<Expr>, Option<Expr>))
    ensures r.0.Some? && r.1.Some?
    ensures current.Some? ==> r.0 == current
    ensures current.None? ==> r.0 == Some(AdoptedSubject(cond))
    ensures r.1 == Some(CaseKey(cond, render))
  {
    match cond
    case Equal(l, rt) => (Some(current.GetOr(l)), Some(rt))
    case Identical(l, rt) => (Some(current.GetOr(l)), Some(rt))
    case BooleanAnd(l, rt) =>
      var leftKey := ProcessCondition(l, current, render).1;
      var rightKey := ProcessCondition(rt, current, render).1;
      (Some(current.GetOr(StringLit("true"))),
       Some(StringLit("(" + render(leftKey.value) + ") and (" + render(rightKey.value) + ")")))
    case BooleanOr(l, rt) =>
      var leftKey := ProcessCondition(l, current, render).1;
      var rightKey := ProcessCondition(rt, current, render).1;
      (Some(current.GetOr(StringLit("true"))),
       Some(StringLit("(" + render(leftKey.value) + ") or (" + render(rightKey.value) + ")")))
    case _ => (Some(current.GetOr(StringLit("true"))), Some(StringLit(render(cond))))
  }

  /** A branch that becomes a keyed case: its condition, body and comments. */
  datatype Branch = Branch(cond: Expr, stmts: seq<Stmt>, comments: seq<Comment>)

  /**
   * The branches the rewriter turns into keyed cases: the if itself, then
   * the first elseif, and that one only when the if has no else.
   */
  function SwitchBranches(n: IfNode): seq<Branch>
  {
    [Branch(n.cond, n.stmts, n.comments)]
      + (if n.els.None? && |n.elseifs| > 0
         then [Branch(n.elseifs[0].cond, n.elseifs[0].stmts, n.elseifs[0].comments)]
         else [])
  }

  /**
   * The Switch_ that replaces an If_: one keyed case per branch of
   * SwitchBranches, then a default case for the else if there is one;
   * the subject comes from the first condition alone.
   */
  function SwitchFor(n: IfNode, render: Printer): (sw: SwitchNode)
    ensures |sw.cases| == 1 + (if n.els.Some? || |n.elseifs| > 0 then 1 else 0)
    ensures sw.cases[0] == Case(Some(CaseKey(n.cond, render)), n.stmts, n.comments)
    ensures n.els.Some? ==> sw.cases[1] == Case(None, n.els.value.stmts, n.els.value.comments)
    ensures n.els.None? && |n.elseifs| > 0 ==>
      sw.cases[1] == Case(Some(CaseKey(n.elseifs[0].cond, render)), n.elseifs[0].stmts, n.elseifs[0].comments)
    ensures forall i :: 0 <= i < |sw.cases| ==>
      (sw.cases[i].key.None? <==> n.els.Some? && i == |sw.cases| - 1)
    ensures sw.subject == AdoptedSubject(n.cond)
    ensures sw.comments == n.comments == sw.cases[0].comments
  {
    var branches := SwitchBranches(n);
    var keyed := seq(|branches|, i requires 0 <= i < |branches| =>
      Case(Some(CaseKey(branches[i].cond, render)), branches[i].stmts, branches[i].comments));
    var default := if n.els.Some? then [Case(None, n.els.value.stmts, n.els.value.comments)] else [];
    SwitchNode(AdoptedSubject(n.cond), keyed + default, n.comments)
  }

  /**
   * The node convertToSwitch is looking at: the outer If_, or the ElseIf_
   * it moved to. An ElseIf_ has no else or elseifs property: reading them
   * gives null, so the cursor reports neither.
   */
  datatype Cursor = AtIf(node: IfNode) | AtElseIf(clause: ElseIf) {
    function Cond(): Expr { if AtIf? then node.cond else clause.cond }
    function Stmts(): seq<Stmt> { if AtIf? then node.stmts else clause.stmts }
    function Comments(): seq<Comment> { if AtIf? then node.comments else clause.comments }
    function ElseClause(): Option<Else> { if AtIf? then node.els else None }
    function ElseIfs(): seq<ElseIf> { if AtIf? then node.elseifs else [] }
  }

  /** convertToSwitch: the do-while loop that collects the cases. */
  method ConvertToSwitch(ifNode: IfNode, render: Printer) returns (sw: SwitchNode)
    ensures sw == SwitchFor(ifNode, render)
  {
    ghost var spec := SwitchFor(ifNode, render);
    var switchCases: seq<Case> := [];
    var current := AtIf(ifNode);
    var switchExpr: Option<Expr> := None;
    while true
      invariant current.AtIf? ==> current == AtIf(ifNode) && switchCases == [] && switchExpr == None
      invariant current.AtElseIf? ==>
        && ifNode.els.None? && |ifNode.elseifs| > 0
        && current.clause == ifNode.elseifs[0]
        && switchCases == spec.cases[..1]
        && switchExpr == Some(spec.subject)
      decreases if current.AtIf? then 1 else 0
    {
      var caseStmts := current.Stmts();
      var processed := ProcessCondition(current.Cond(), switchExpr, render);
      switchExpr := processed.0;
      var caseValue := processed.1;
      switchCases := switchCases + [Case(caseValue, caseStmts, current.Comments())];

      if current.ElseClause().Some? {
        var els := current.ElseClause().value;
        switchCases := switchCases + [Case(None, els.stmts, els.comments)];
        break;
      }

      if |current.ElseIfs()| > 0 {
        current := AtElseIf(current.ElseIfs()[0]);
      } else {
        break;
      }
    }
    // processCondition never returns a null subject, so the 'true' fallback is never taken
    assert switchExpr.Some?;
    sw := SwitchNode(switchExpr.GetOr(StringLit("true")), switchCases, ifNode.comments);
  }

  /**
   * leaveNode: an If_ is replaced by its Switch_; for any other node it
   * returns nothing, so the node stays as it is.
   */
  function LeaveNode(node: Stmt, render: Printer): (r: Stmt)
    ensures !node.If? ==> r == node
    ensures node.If? ==> r.Switch? && r.switchNode == SwitchFor(node.ifNode, render)
    ensures node.If? ==> r.switchNode.comments == node.ifNode.comments
  {
    if node.If? then Switch(SwitchFor(node.ifNode, render)) else node
  }

  /**
   * The traversal: the children of a node are rewritten first, then
   * leaveNode is applied to the node rebuilt from them.
   */
  function RewriteStmt(s: Stmt, render: Printer): (r: Stmt)
    ensures s.Echo? ==> r == s
    ensures s.If? ==> r.Switch? && r.switchNode.subject == AdoptedSubject(s.ifNode.cond)
                      && r.switchNode.comments == s.ifNode.comments
                      && |r.switchNode.cases| == 1 + (if s.ifNode.els.Some? || |s.ifNode.elseifs| > 0 then 1 else 0)
                      && r.switchNode.cases[0].stmts == RewriteStmts(s.ifNode.stmts, render)
    ensures s.If? ==>
      r == Switch(SwitchFor(IfNode(s.ifNode.cond, RewriteStmts(s.ifNode.stmts, render),
                                   RewriteElseIfs(s.ifNode.elseifs, render),
                                   RewriteElse(s.ifNode.els, render), s.ifNode.comments), render))
    ensures s.If? ==> r.switchNode.cases[0].key == Some(CaseKey(s.ifNode.cond, render))
    ensures s.If? && s.ifNode.els.Some? ==>
      r.switchNode.cases[1] == Case(None, RewriteStmts(s.ifNode.els.value.stmts, render), s.ifNode.els.value.comments)
    ensures s.If? && s.ifNode.els.None? && |s.ifNode.elseifs| > 0 ==>
      r.switchNode.cases[1] == Case(Some(CaseKey(s.ifNode.elseifs[0].cond, render)),
                                    RewriteStmts(s.ifNode.elseifs[0].stmts, render), s.ifNode.elseifs[0].comments)
    ensures s.Switch? ==> r.Switch? && r.switchNode.subject == s.switchNode.subject
                          && r.switchNode.comments == s.switchNode.comments
                          && r.switchNode.cases == RewriteCases(s.switchNode.cases, render)
    ensures s.OtherStmt? ==> r == OtherStmt(s.kind, RewriteStmts(s.body, render))
    decreases s
  {
    var rebuilt :=
      match s
      case Echo(_) => s
      case If(n) =>
        If(IfNode(n.cond, RewriteStmts(n.stmts, render), RewriteElseIfs(n.elseifs, render),
                  RewriteElse(n.els, render), n.comments))
      case Switch(sw) => Switch(SwitchNode(sw.subject, RewriteCases(sw.cases, render), sw.comments))
      case OtherStmt(kind, body) => OtherStmt(kind, RewriteStmts(body, render));
    LeaveNode(rebuilt, render)
  }

  /** Every statement of the list is rewritten on its own; the list keeps its length and order. */
  function RewriteStmts(ss: seq<Stmt>, render: Printer): (r: seq<Stmt>)
    ensures |r| == |ss|
    ensures forall i :: 0 <= i < |ss| ==> r[i] == RewriteStmt(ss[i], render)
    decreases ss
  {
    seq(|ss|, i requires 0 <= i < |ss| => RewriteStmt(ss[i], render))
  }

  /** The elseif clauses keep their conditions and comments; only their bodies are rewritten. */
  function RewriteElseIfs(es: seq<ElseIf>, render: Printer): (r: seq<ElseIf>)
    ensures |r| == |es|
    ensures forall j :: 0 <= j < |es| ==>
      r[j].cond == es[j].cond && r[j].comments == es[j].comments
      && r[j].stmts == RewriteStmts(es[j].stmts, render)
    decreases es
  {
    seq(|es|, j requires 0 <= j < |es| =>
      ElseIf(es[j].cond, RewriteStmts(es[j].stmts, render), es[j].comments))
  }

  /** An else stays present or absent; its comments are kept and its body is rewritten. */
  function RewriteElse(e: Option<Else>, render: Printer): (r: Option<Else>)
    ensures r.Some? <==> e.Some?
    ensures e.Some? ==> r.value.comments == e.value.comments
                        && r.value.stmts == RewriteStmts(e.value.stmts, render)
    decreases e
  {
    match e
    case None => None
    case Some(els) => Some(Else(RewriteStmts(els.stmts, render), els.comments))
  }

  /** The cases of an existing switch keep their keys and comments; only their bodies are rewritten. */
  function RewriteCases(cs: seq<Case>, render: Printer): (r: seq<Case>)
    ensures |r| == |cs|
    ensures forall i :: 0 <= i < |cs| ==>
      r[i].key == cs[i].key && r[i].comments == cs[i].comments
      && r[i].stmts == RewriteStmts(cs[i].stmts, render)
    decreases cs
  {
    seq(|cs|, i requires 0 <= i < |cs| => Case(cs[i].key, RewriteStmts(cs[i].stmts, render), cs[i].comments))
  }

  /** After the traversal no If_ node is left anywhere in a statement. */
  lemma {:induction false} RewriteStmtIsIfFree(s: Stmt, render: Printer)
    ensures IfFree(RewriteStmt(s, render))
    decreases s
  {
    match s
    case Echo(_) =>
    case If(n) =>
      RewriteStmtsAreIfFree(n.stmts, render);
      RewriteElseIfsAreIfFree(n.elseifs, render);
      if n.els.Some? {
        RewriteStmtsAreIfFree(n.els.value.stmts, render);
      }
    case Switch(sw) =>
      forall i | 0 <= i < |sw.cases|
        ensures AllIfFree(RewriteCases(sw.cases, render)[i].stmts)
      {
        RewriteStmtsAreIfFree(sw.cases[i].stmts, render);
      }
    case OtherStmt(_, body) =>
      RewriteStmtsAreIfFree(body, render);
  }

  lemma {:induction false} RewriteStmtsAreIfFree(ss: seq<Stmt>, render: Printer)
    ensures AllIfFree(RewriteStmts(ss, render))
    decreases ss
  {
    forall i | 0 <= i < |ss|
      ensures IfFree(RewriteStmts(ss, render)[i])
    {
      RewriteStmtIsIfFree(ss[i], render);
    }
  }

  lemma {:induction false} RewriteElseIfsAreIfFree(es: seq<ElseIf>, render: Printer)
    ensures forall j :: 0 <= j < |es| ==> AllIfFree(RewriteElseIfs(es, render)[j].stmts)
    decreases es
  {
    forall j | 0 <= j < |es|
      ensures AllIfFree(RewriteElseIfs(es, render)[j].stmts)
    {
      RewriteStmtsAreIfFree(es[j].stmts, render);
    }
  }

  /** A statement without any If_ node comes out of the traversal unchanged. */
  lemma {:induction false} IfFreeStmtUnchanged(s: Stmt, render: Printer)
    requires IfFree(s)
    ensures RewriteStmt(s, render) == s
    decreases s
  {
    match s
    case Echo(_) =>
    case Switch(sw) =>
      forall i | 0 <= i < |sw.cases|
        ensures RewriteCases(sw.cases, render)[i] == sw.cases[i]
      {
        IfFreeStmtsUnchanged(sw.cases[i].stmts, render);
      }
      assert RewriteCases(sw.cases, render) == sw.cases;
    case OtherStmt(_, body) =>
      IfFreeStmtsUnchanged(body, render);
  }

  lemma {:induction false} IfFreeStmtsUnchanged(ss: seq<Stmt>, render: Printer)
    ensures AllIfFree(ss) ==> RewriteStmts(ss, render) == ss
    decreases ss
  {
    if AllIfFree(ss) {
      forall i | 0 <= i < |ss|
        ensures RewriteStmts(ss, render)[i] == ss[i]
      {
        IfFreeStmtUnchanged(ss[i], render);
      }
    }
  }

  /** What convertIfToSwitch produces: the parse error message, or the rewritten tree. */
  datatype SwitchOutcome = SwitchParseError(message: string) | Rewritten(ast: seq<Stmt>)

  /**
   * convertIfToSwitch on an already-parsed program: a parse error stops
   * everything; otherwise the whole tree is traversed once. Printing the
   * result is the printer's business.
   */
  function ConvertIfToSwitch(parsed: Result<seq<Stmt>>, render: Printer): (r: SwitchOutcome)
    ensures parsed.Err? ==> r == SwitchParseError("Parse error: " + parsed.message + "\n")
    ensures parsed.Ok? ==> r == Rewritten(RewriteStmts(parsed.value, render))
    ensures parsed.Ok? ==> r.Rewritten? && |r.ast| == |parsed.value| && AllIfFree(r.ast)
    ensures parsed.Ok? && AllIfFree(parsed.value) ==> r == Rewritten(parsed.value)
  {
    match parsed
    case Err(message) => SwitchParseError("Parse error: " + message + "\n")
    case Ok(ast) =>
      RewriteStmtsAreIfFree(ast, render);
      IfFreeStmtsUnchanged(ast, render);
      Rewritten(RewriteStmts(ast, render))
  }
}
