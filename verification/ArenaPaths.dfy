// Trees by their paths: what the backend reads of a node is, along every path of edges it follows, the node
// the tree has there. Rows by what they determine: one row holds one tree.
module ArenaPaths {
  import opened Wrappers
  import opened Arena
  import opened ArenaReader

  datatype Node = E(e: Expr) | S(s: Stmt) | A(arm: Arm) | P(param: Param) | F(f: Function) | C(v: Constant)

  datatype Edge =
    | Left | Right | Operand | Base | Receiver | Callee
    | Arg(i: nat) | Item(i: nat) | Key(i: nat) | Val(i: nat)
    | Init | OfExpr | Target | Assigned | Cond | Iter | Result | Scrutinee
    | Then(i: nat) | Else(i: nat) | Body(i: nat) | ArmAt(i: nat)
    | ParamAt(i: nat) | Default
    | Fn | Folded | Inner | Element(i: nat)

  function OneE(e: Option<Expr>): Option<Node> { if e.Some? then Some(E(e.value)) else None }

  function AtE(es: seq<Expr>, i: nat): Option<Node> { if i < |es| then Some(E(es[i])) else None }

  function AtS(ss: seq<Stmt>, i: nat): Option<Node> { if i < |ss| then Some(S(ss[i])) else None }

  function OneC(v: Option<Constant>): Option<Node> { if v.Some? then Some(C(v.value)) else None }

  // The child along an edge.
  function Child(n: Node, edge: Edge): Option<Node> {
    match n
    case E(e) => ExprChild(e, edge)
    case S(s) => StmtChild(s, edge)
    case A(arm) => (match edge case Body(i) => AtS(arm.body, i) case _ => None)
    case P(p) => (match edge case Default => OneE(p.default) case _ => None)
    case F(f) =>
      (match edge
       case ParamAt(i) => if i < |f.params| then Some(P(f.params[i])) else None
       case Body(i) => AtS(f.body, i)
       case _ => None)
    case C(v) =>
      match edge
      case Inner => OneC(v.inner)
      case Element(i) => if i < |v.items| then Some(C(v.items[i])) else None
      case _ => None
  }

  function ExprChild(e: Expr, edge: Edge): Option<Node> {
    match edge
    case Left => OneE(e.left)
    case Right => OneE(e.right)
    case Operand => OneE(e.operand)
    case Base => OneE(e.base)
    case Receiver => OneE(e.receiver)
    case Callee => OneE(e.callee)
    case Arg(i) => AtE(e.args, i)
    case Item(i) => AtE(e.items, i)
    case Key(i) => AtE(e.keys, i)
    case Val(i) => AtE(e.values, i)
    case Fn => if e.kind.Lambda? then Some(F(e.kind.fn)) else None
    case Folded => OneC(e.folded)
    case _ => None
  }

  function StmtChild(s: Stmt, edge: Edge): Option<Node> {
    match edge
    case Init => OneE(s.init)
    case OfExpr => OneE(s.expr)
    case Target => OneE(s.target)
    case Assigned => OneE(s.value)
    case Cond => OneE(s.cond)
    case Iter => OneE(s.iter)
    case Result => OneE(s.result)
    case Scrutinee => OneE(s.scrutinee)
    case Then(i) => AtS(s.thenBody, i)
    case Else(i) => AtS(s.elseBody, i)
    case Body(i) => AtS(s.body, i)
    case ArmAt(i) => if i < |s.arms| then Some(A(s.arms[i])) else None
    case _ => None
  }

  // Every edge is stored, but the callee's only of a call that is resolved to no function and has no
  // receiver.
  predicate Stored(n: Node, edge: Edge) {
    edge.Callee? && n.E? ==> n.e.kind.Call? && !n.e.resolved && n.e.receiver.None?
  }

  // The reader follows what is stored, but no lambda and no folded value.
  predicate Follows(n: Node, edge: Edge) { Stored(n, edge) && !edge.Fn? && !edge.Folded? }

  function At(n: Node, path: seq<Edge>): Option<Node>
    decreases |path|
  {
    if path == [] then Some(n)
    else
      var c := Child(n, path[0]);
      if c.Some? then At(c.value, path[1..]) else None
  }

  predicate FollowsAll(n: Node, path: seq<Edge>)
    decreases |path|
  {
    path == [] || (Follows(n, path[0]) && var c := Child(n, path[0]); c.Some? ==> FollowsAll(c.value, path[1..]))
  }

  // The node a path of stored edges leads to.
  function StoredAt(n: Node, path: seq<Edge>): Option<Node>
    decreases |path|
  {
    if path == [] then Some(n)
    else
      var c := Child(n, path[0]);
      if c.Some? && Stored(n, path[0]) then StoredAt(c.value, path[1..]) else None
  }

  // The scalars of a node, and the lexical binding it leads to: of a name, the one it is resolved to, unless
  // it names a declared function or a builtin.
  datatype Label = Label(info: Info, binding: Option<Info>)

  function LabelOf(n: Node): Label {
    match n
    case E(e) => Label(e.info, if e.kind.Var? && !e.resolved then e.definition else None)
    case S(s) => Label(s.info, s.binding)
    case A(arm) => Label(arm.pattern, arm.patternBinding)
    case P(p) => Label(p.info, Some(p.binding))
    case F(f) => Label(f.info, None)
    case C(v) => Label(v.info, None)
  }

  // The same of a node read back, whose name bindings stand where the reader put them.
  function ShownLabel(n: Node): Label {
    match n
    case E(e) => Label(e.info, e.definition)
    case _ => LabelOf(n)
  }

  function ViewOf(n: Node): Node {
    match n
    case E(e) => E(View(e))
    case S(s) => S(ViewStmt(s))
    case A(arm) => A(ViewArm(arm))
    case P(p) => P(ViewParam(p))
    case F(f) => F(ViewFunction(f))
    case C(v) => n
  }

  // `shown` is what is read of `n`: the same paths lead to nodes, with the same labels.
  ghost predicate Shows(shown: Node, n: Node) {
    forall path: seq<Edge> ::
      && (At(shown, path).Some? <==> At(n, path).Some? && FollowsAll(n, path))
      && (At(shown, path).Some? ==> ShownLabel(At(shown, path).value) == LabelOf(At(n, path).value))
  }

  // What is read of a child is the child of what is read.
  predicate Commutes(shown: Option<Node>, child: Option<Node>) {
    if child.Some? then shown == Some(ViewOf(child.value)) else shown == None
  }

  lemma OneCommutes(e: Option<Expr>)
    ensures Commutes(OneE(ViewOption(e)), OneE(e))
  {
    hide View;
  }

  lemma ListCommutes(es: seq<Expr>, i: nat)
    ensures Commutes(AtE(ViewList(es), i), AtE(es, i))
  {
    hide View;
  }

  lemma BodyCommutes(ss: seq<Stmt>, i: nat)
    ensures Commutes(AtS(ViewBody(ss), i), AtS(ss, i))
  {
    hide ViewStmt;
  }

  lemma ViewExprChild(e: Expr, edge: Edge)
    ensures if Follows(E(e), edge) then Commutes(ExprChild(View(e), edge), ExprChild(e, edge)) else ExprChild(View(e), edge) == None
  {
    hide Commutes, ViewOption, ViewList;
    match edge
    case Left => OneCommutes(e.left);
    case Right => OneCommutes(e.right);
    case Operand => OneCommutes(e.operand);
    case Base => OneCommutes(e.base);
    case Receiver => OneCommutes(e.receiver);
    case Callee =>
      OneCommutes(e.callee);
      OneCommutes(None);
      NoChild();
    case Arg(i) => ListCommutes(e.args, i);
    case Item(i) => ListCommutes(e.items, i);
    case Key(i) => ListCommutes(e.keys, i);
    case Val(i) => ListCommutes(e.values, i);
    case _ => NoChild();
  }

  lemma NoChild()
    ensures Commutes(None, None)
  {}

  lemma ViewStmtChild(s: Stmt, edge: Edge)
    ensures Commutes(StmtChild(ViewStmt(s), edge), StmtChild(s, edge))
    ensures edge.Callee? || edge.Fn? || edge.Folded? ==> StmtChild(ViewStmt(s), edge) == None
  {
    hide Commutes, ViewOption, ViewBody, ViewArms;
    match edge
    case Init => OneCommutes(s.init);
    case OfExpr => OneCommutes(s.expr);
    case Target => OneCommutes(s.target);
    case Assigned => OneCommutes(s.value);
    case Cond => OneCommutes(s.cond);
    case Iter => OneCommutes(s.iter);
    case Result => OneCommutes(s.result);
    case Scrutinee => OneCommutes(s.scrutinee);
    case Then(i) => BodyCommutes(s.thenBody, i);
    case Else(i) => BodyCommutes(s.elseBody, i);
    case Body(i) => BodyCommutes(s.body, i);
    case ArmAt(i) => ArmCommutes(s, i);
    case _ => NoChild();
  }

  lemma ArmCommutes(s: Stmt, i: nat)
    ensures Commutes(StmtChild(ViewStmt(s), ArmAt(i)), StmtChild(s, ArmAt(i)))
  {
    hide ViewArm, ViewOption, ViewBody;
  }

  lemma ViewChild(n: Node, edge: Edge)
    ensures if Follows(n, edge) then Commutes(Child(ViewOf(n), edge), Child(n, edge)) else Child(ViewOf(n), edge) == None
  {
    hide View, ViewStmt, ExprChild, StmtChild;
    match n
    case E(e) => ViewExprChild(e, edge);
    case S(s) => ViewStmtChild(s, edge);
    case A(arm) => if edge.Body? { BodyCommutes(arm.body, edge.i); }
    case P(p) => OneCommutes(p.default);
    case F(f) => if edge.Body? { BodyCommutes(f.body, edge.i); }
    case C(v) =>
  }

  lemma {:induction false} ViewAlong(n: Node, path: seq<Edge>)
    ensures At(ViewOf(n), path).Some? <==> At(n, path).Some? && FollowsAll(n, path)
    ensures At(ViewOf(n), path).Some? ==> At(ViewOf(n), path).value == ViewOf(At(n, path).value)
    decreases |path|
  {
    if path != [] {
      ViewChild(n, path[0]);
      hide Child, ViewOf, Follows;
      var c := Child(n, path[0]);
      if c.Some? && Follows(n, path[0]) { ViewAlong(c.value, path[1..]); }
    }
  }

  // Whatever is read is read where it stands in the tree, and nothing that is followed is left out.
  lemma ViewShows(n: Node)
    ensures Shows(ViewOf(n), n)
  {
    forall path: seq<Edge>
      ensures At(ViewOf(n), path).Some? <==> At(n, path).Some? && FollowsAll(n, path)
      ensures At(ViewOf(n), path).Some? ==> ShownLabel(At(ViewOf(n), path).value) == LabelOf(At(n, path).value)
    {
      ViewAlong(n, path);
    }
  }

  // ---- one tree per row -------------------------------------------------------------------------------

  ghost predicate HoldsNode(a: Arena, lo: Marks, i: nat, n: Node) {
    match n
    case E(e) => HoldsExpr(a, lo, i, e)
    case S(s) => HoldsStmt(a, lo, i, s)
    case A(arm) => HoldsArm(a, lo, i, arm)
    case P(p) => HoldsParam(a, lo, i, p)
    case F(f) => HoldsFunction(a, lo, i, f)
    case C(v) => HoldsConstant(a, lo, i, v)
  }

  predicate SameTable(n1: Node, n2: Node) {
    (n1.E? && n2.E?) || (n1.S? && n2.S?) || (n1.A? && n2.A?) || (n1.P? && n2.P?) || (n1.F? && n2.F?) || (n1.C? && n2.C?)
  }

  // The scalars of a row, with the scalars of an arm and the bindings a function captures.
  function RowLabel(n: Node): (Label, seq<Info>) {
    (LabelOf(n), match n case A(arm) => [arm.info] case F(f) => f.captures case _ => [])
  }

  // Two nodes that one row holds.
  ghost predicate Share(a: Arena, n1: Node, n2: Node) {
    SameTable(n1, n2) && exists lo1, lo2, i: nat :: HoldsNode(a, lo1, i, n1) && HoldsNode(a, lo2, i, n2)
  }

  lemma Sharing(a: Arena, lo1: Marks, lo2: Marks, i: nat, n1: Node, n2: Node)
    requires SameTable(n1, n2) && HoldsNode(a, lo1, i, n1) && HoldsNode(a, lo2, i, n2)
    ensures Share(a, n1, n2)
  {}

  // The children of two nodes along one edge: neither, or two that one row holds.
  ghost predicate ShareChild(a: Arena, c1: Option<Node>, c2: Option<Node>) {
    (c1.None? && c2.None?) || (c1.Some? && c2.Some? && Share(a, c1.value, c2.value))
  }

  lemma ShareRef(a: Arena, lo1: Marks, lo2: Marks, ref: Ref, e1: Option<Expr>, e2: Option<Expr>)
    requires HoldsRef(a, lo1, ref, e1) && HoldsRef(a, lo2, ref, e2)
    ensures ShareChild(a, OneE(e1), OneE(e2))
  {
    hide HoldsExpr, Share;
    if e1.Some? && e2.Some? { Sharing(a, lo1, lo2, ref.index, E(e1.value), E(e2.value)); }
  }

  lemma ShareConstantRef(a: Arena, lo1: Marks, lo2: Marks, ref: Ref, v1: Option<Constant>, v2: Option<Constant>)
    requires HoldsConstantRef(a, lo1, ref, v1) && HoldsConstantRef(a, lo2, ref, v2)
    ensures ShareChild(a, OneC(v1), OneC(v2))
  {
    hide HoldsConstant, Share;
    if v1.Some? && v2.Some? { Sharing(a, lo1, lo2, ref.index, C(v1.value), C(v2.value)); }
  }

  lemma ShareList(a: Arena, lo1: Marks, lo2: Marks, r: Range, es1: seq<Expr>, es2: seq<Expr>, k: nat)
    requires HoldsExprs(a, lo1, r, es1) && HoldsExprs(a, lo2, r, es2)
    ensures ShareChild(a, AtE(es1, k), AtE(es2, k))
  {
    hide HoldsExpr, Share;
    if k < |es1| { Sharing(a, lo1, lo2, Slice(a.exprRefs, r)[k], E(es1[k]), E(es2[k])); }
  }

  lemma ShareBody(a: Arena, lo1: Marks, lo2: Marks, r: Range, ss1: seq<Stmt>, ss2: seq<Stmt>, k: nat)
    requires HoldsStmts(a, lo1, r, ss1) && HoldsStmts(a, lo2, r, ss2)
    ensures ShareChild(a, AtS(ss1, k), AtS(ss2, k))
  {
    hide HoldsStmt, Share;
    if k < |ss1| { Sharing(a, lo1, lo2, Slice(a.stmtRefs, r)[k], S(ss1[k]), S(ss2[k])); }
  }

  lemma ShareExprChild(a: Arena, lo1: Marks, lo2: Marks, i: nat, e1: Expr, e2: Expr, edge: Edge)
    requires HoldsExpr(a, lo1, i, e1) && HoldsExpr(a, lo2, i, e2)
    ensures Stored(E(e1), edge) && Stored(E(e2), edge) ==> ShareChild(a, ExprChild(e1, edge), ExprChild(e2, edge))
    ensures edge.Callee? ==> (StoredCallee(e1).Some? <==> StoredCallee(e2).Some?)
  {
    hide ShareChild, HoldsRef, HoldsExprs, HoldsFunction, HoldsConstantRef;
    var row, m1, m2 := a.exprs[i], lo1.(exprs := i + 1), lo2.(exprs := i + 1);
    match edge
    case Left => ShareRef(a, m1, m2, row.left, e1.left, e2.left);
    case Right => ShareRef(a, m1, m2, row.right, e1.right, e2.right);
    case Operand => ShareRef(a, m1, m2, row.operand, e1.operand, e2.operand);
    case Base => ShareRef(a, m1, m2, row.base, e1.base, e2.base);
    case Receiver => ShareRef(a, m1, m2, row.receiver, e1.receiver, e2.receiver);
    case Callee => ShareCallee(a, m1, m2, row, e1, e2);
    case Arg(k) => ShareList(a, m1, m2, row.args, e1.args, e2.args, k);
    case Item(k) => ShareList(a, m1, m2, row.items, e1.items, e2.items, k);
    case Key(k) => ShareList(a, m1, m2, row.keys, e1.keys, e2.keys, k);
    case Val(k) => ShareList(a, m1, m2, row.values, e1.values, e2.values, k);
    case Fn => ShareLambda(a, m1, m2, row, e1, e2);
    case Folded => ShareConstantRef(a, m1, m2, row.folded, e1.folded, e2.folded);
    case _ => NoneShared(a);
  }

  lemma NoneShared(a: Arena)
    ensures ShareChild(a, None, None)
  {}

  lemma ShareCallee(a: Arena, m1: Marks, m2: Marks, row: ExprRow, e1: Expr, e2: Expr)
    requires HoldsOperands(a, m1, row, e1) && HoldsOperands(a, m2, row, e2)
    ensures StoredCallee(e1).Some? <==> StoredCallee(e2).Some?
    ensures Stored(E(e1), Callee) && Stored(E(e2), Callee) ==> ShareChild(a, OneE(e1.callee), OneE(e2.callee))
  {
    Present(a, m1, row.callee, e1.callee);
    Present(a, m2, row.callee, e2.callee);
    if StoredCallee(e1).Some? && StoredCallee(e2).Some? { ShareRef(a, m1, m2, row.callee, e1.callee, e2.callee); }
    hide HoldsRef, Share;
  }

  lemma Present(a: Arena, m: Marks, ref: Ref, e: Option<Expr>)
    ensures HoldsRef(a, m, ref, e) && e.Some? ==> ref.present
  {}

  lemma ShareLambda(a: Arena, m1: Marks, m2: Marks, row: ExprRow, e1: Expr, e2: Expr)
    requires HoldsAttachments(a, m1, row, e1) && HoldsAttachments(a, m2, row, e2)
    ensures ShareChild(a, ExprChild(e1, Fn), ExprChild(e2, Fn))
  {
    hide HoldsFunction, HoldsConstantRef, Share;
    if e1.kind.Lambda? && e2.kind.Lambda? { Sharing(a, m1, m2, row.lambda.index, F(e1.kind.fn), F(e2.kind.fn)); }
  }

  lemma ShareStmtChild(a: Arena, lo1: Marks, lo2: Marks, i: nat, s1: Stmt, s2: Stmt, edge: Edge)
    requires HoldsStmt(a, lo1, i, s1) && HoldsStmt(a, lo2, i, s2)
    ensures ShareChild(a, StmtChild(s1, edge), StmtChild(s2, edge))
  {
    hide ShareChild, HoldsRef, HoldsStmts, HoldsArms;
    var row, m1, m2 := a.stmts[i], lo1.(stmts := i + 1), lo2.(stmts := i + 1);
    match edge
    case Init => ShareRef(a, m1, m2, row.init, s1.init, s2.init);
    case OfExpr => ShareRef(a, m1, m2, row.expr, s1.expr, s2.expr);
    case Target => ShareRef(a, m1, m2, row.target, s1.target, s2.target);
    case Assigned => ShareRef(a, m1, m2, row.value, s1.value, s2.value);
    case Cond => ShareRef(a, m1, m2, row.cond, s1.cond, s2.cond);
    case Iter => ShareRef(a, m1, m2, row.iter, s1.iter, s2.iter);
    case Result => ShareRef(a, m1, m2, row.result, s1.result, s2.result);
    case Scrutinee => ShareRef(a, m1, m2, row.scrutinee, s1.scrutinee, s2.scrutinee);
    case Then(k) => ShareBody(a, m1, m2, row.thenBody, s1.thenBody, s2.thenBody, k);
    case Else(k) => ShareBody(a, m1, m2, row.elseBody, s1.elseBody, s2.elseBody, k);
    case Body(k) => ShareBody(a, m1, m2, row.body, s1.body, s2.body, k);
    case ArmAt(k) => ShareArm(a, m1, m2, row.arms, s1, s2, k);
    case _ => NoneShared(a);
  }

  lemma ShareArm(a: Arena, m1: Marks, m2: Marks, r: Range, s1: Stmt, s2: Stmt, k: nat)
    requires HoldsArms(a, m1, r, s1.arms) && HoldsArms(a, m2, r, s2.arms)
    ensures ShareChild(a, StmtChild(s1, ArmAt(k)), StmtChild(s2, ArmAt(k)))
  {
    hide HoldsArm, Share;
    if k < |s1.arms| { Sharing(a, m1, m2, Slice(a.armRefs, r)[k], A(s1.arms[k]), A(s2.arms[k])); }
  }

  lemma ShareFunctionChild(a: Arena, lo1: Marks, lo2: Marks, i: nat, f1: Function, f2: Function, edge: Edge)
    requires HoldsFunction(a, lo1, i, f1) && HoldsFunction(a, lo2, i, f2)
    ensures ShareChild(a, Child(F(f1), edge), Child(F(f2), edge))
  {
    hide HoldsParam, HoldsStmts, Share;
    var row, m1, m2 := a.functions[i], lo1.(functions := i + 1), lo2.(functions := i + 1);
    match edge
    case Body(k) => ShareBody(a, m1, m2, row.body, f1.body, f2.body, k);
    case ParamAt(k) => if k < |f1.params| { Sharing(a, m1, m2, Slice(a.paramRefs, row.params)[k], P(f1.params[k]), P(f2.params[k])); }
    case _ =>
  }

  lemma ShareConstantChild(a: Arena, lo1: Marks, lo2: Marks, i: nat, v1: Constant, v2: Constant, edge: Edge)
    requires HoldsConstant(a, lo1, i, v1) && HoldsConstant(a, lo2, i, v2)
    ensures ShareChild(a, Child(C(v1), edge), Child(C(v2), edge))
  {
    var row, m1, m2 := a.constants[i], lo1.(constants := i + 1), lo2.(constants := i + 1);
    assert HoldsConstantList(a, m1, Slice(a.constantRefs, row.items), v1.items) && HoldsConstantList(a, m2, Slice(a.constantRefs, row.items), v2.items);
    assert HoldsConstantRef(a, m1, row.inner, v1.inner) && HoldsConstantRef(a, m2, row.inner, v2.inner);
    hide HoldsConstant, HoldsConstantRef, Share;
    match edge
    case Inner => ShareConstantRef(a, m1, m2, row.inner, v1.inner, v2.inner);
    case Element(k) => if k < |v1.items| { Sharing(a, m1, m2, Slice(a.constantRefs, row.items)[k], C(v1.items[k]), C(v2.items[k])); }
    case _ =>
  }

  lemma ShareNodeChild(a: Arena, n1: Node, n2: Node, edge: Edge)
    requires Share(a, n1, n2)
    ensures var c1, c2 := Child(n1, edge), Child(n2, edge);
      ShareChild(a, if Stored(n1, edge) then c1 else None, if Stored(n2, edge) then c2 else None)
  {
    hide HoldsExpr, HoldsStmt, HoldsFunction, HoldsConstant, ShareChild;
    var lo1, lo2, i: nat :| HoldsNode(a, lo1, i, n1) && HoldsNode(a, lo2, i, n2);
    NoneShared(a);
    match n1
    case E(e1) => ShareExprChild(a, lo1, lo2, i, e1, n2.e, edge);
    case S(s1) => ShareStmtChild(a, lo1, lo2, i, s1, n2.s, edge);
    case A(x1) =>
      var x2 := n2.arm;
      if edge.Body? { ShareBody(a, lo1.(arms := i + 1), lo2.(arms := i + 1), a.arms[i].body, x1.body, x2.body, edge.i); }
    case P(p1) => ShareRef(a, lo1, lo2, a.params[i].default, p1.default, n2.param.default);
    case F(f1) => ShareFunctionChild(a, lo1, lo2, i, f1, n2.f, edge);
    case C(v1) => ShareConstantChild(a, lo1, lo2, i, v1, n2.v, edge);
  }

  lemma ShareLabel(a: Arena, n1: Node, n2: Node)
    requires Share(a, n1, n2)
    ensures RowLabel(n1) == RowLabel(n2)
  {
    hide HoldsOperands, HoldsLists, HoldsEdges, HoldsBodies, HoldsStmts, HoldsRef, HoldsParamList, HoldsConstantList, HoldsConstantRef;
    var lo1, lo2, i: nat :| HoldsNode(a, lo1, i, n1) && HoldsNode(a, lo2, i, n2);
    match n1
    case F(f1) =>
      SameCaptures(a, Slice(a.captureRefs, a.functions[i].captures), f1.captures, n2.f.captures);
    case E(e1) =>
      var row := a.exprs[i];
      assert HoldsAttachments(a, lo1.(exprs := i + 1), row, e1) && HoldsAttachments(a, lo2.(exprs := i + 1), row, n2.e);
      assert StoredBinding(e1) == StoredBinding(n2.e);
    case _ =>
  }

  lemma SameCaptures(a: Arena, ix: seq<nat>, cs1: seq<Info>, cs2: seq<Info>)
    requires HoldsCaptureList(a, ix, cs1) && HoldsCaptureList(a, ix, cs2)
    ensures cs1 == cs2
  {
    forall k | 0 <= k < |ix| ensures cs1[k] == cs2[k] {
      assert HoldsBinding(a, a.captures[ix[k]], Some(cs1[k])) && HoldsBinding(a, a.captures[ix[k]], Some(cs2[k]));
    }
  }

  // A row determines what hangs from it: two nodes that one row holds agree along every path of stored
  // edges, through lambdas and folded values too, on what is there and on its scalars and bindings.
  lemma {:induction false} OneNodePerRow(a: Arena, n1: Node, n2: Node, path: seq<Edge>)
    requires Share(a, n1, n2)
    ensures StoredAt(n1, path).Some? <==> StoredAt(n2, path).Some?
    ensures StoredAt(n1, path).Some? ==> RowLabel(StoredAt(n1, path).value) == RowLabel(StoredAt(n2, path).value)
    decreases |path|
  {
    hide Share, Child, Stored;
    if path == [] {
      ShareLabel(a, n1, n2);
    } else {
      ShareNodeChild(a, n1, n2, path[0]);
      var c1, c2 := Child(n1, path[0]), Child(n2, path[0]);
      if Stored(n1, path[0]) && Stored(n2, path[0]) && c1.Some? { OneNodePerRow(a, c1.value, c2.value, path[1..]); }
    }
  }
}
