// The checked tree and the flat arena it is lowered into: rows in typed tables, child edges as
// indexes, lists as contiguous ranges of shared reference tables.
module Arena {

  import opened Wrappers

  // Every scalar field of a row (kind, names, types, literals, spans).
  type Info = string

  // ---- the checked tree ----------------------------------------------------------------------

  datatype Kind = Call | Var | Lambda(fn: Function) | OtherExpr

  datatype Expr = Expr(
    info: Info, kind: Kind,
    // The call or name was resolved to a declared function or a builtin.
    resolved: bool,
    left: Option<Expr>, right: Option<Expr>, operand: Option<Expr>, base: Option<Expr>, receiver: Option<Expr>,
    callee: Option<Expr>,
    args: seq<Expr>, items: seq<Expr>, keys: seq<Expr>, values: seq<Expr>,
    folded: Option<Constant>,
    // The lexical binding a name resolves to.
    definition: Option<Info>)

  datatype Stmt = Stmt(
    info: Info, binding: Option<Info>,
    init: Option<Expr>, expr: Option<Expr>, target: Option<Expr>, value: Option<Expr>,
    cond: Option<Expr>, iter: Option<Expr>, result: Option<Expr>, scrutinee: Option<Expr>,
    thenBody: seq<Stmt>, elseBody: seq<Stmt>, body: seq<Stmt>, arms: seq<Arm>)

  datatype Arm = Arm(info: Info, pattern: Info, patternBinding: Option<Info>, body: seq<Stmt>)

  datatype Param = Param(info: Info, default: Option<Expr>, binding: Info)

  datatype Function = Function(info: Info, params: seq<Param>, body: seq<Stmt>, captures: seq<Info>)

  datatype Constant = Constant(info: Info, inner: Option<Constant>, items: seq<Constant>)

  // ---- the arena -----------------------------------------------------------------------------

  datatype Ref = Ref(index: nat, present: bool)
  const NO_REF: Ref := Ref(0, false)

  datatype Range = Range(start: nat, count: nat)
  const NO_RANGE: Range := Range(0, 0)

  datatype ExprRow = ExprRow(
    info: Info,
    left: Ref, right: Ref, operand: Ref, base: Ref, receiver: Ref, callee: Ref,
    lambda: Ref, binding: Ref, folded: Ref,
    args: Range, items: Range, keys: Range, values: Range)

  datatype StmtRow = StmtRow(
    info: Info, binding: Ref,
    init: Ref, expr: Ref, target: Ref, value: Ref, cond: Ref, iter: Ref, result: Ref, scrutinee: Ref,
    thenBody: Range, elseBody: Range, body: Range, arms: Range)

  datatype ArmRow = ArmRow(info: Info, pattern: Ref, body: Range)
  datatype PatternRow = PatternRow(info: Info, binding: Ref)
  datatype ParamRow = ParamRow(info: Info, default: Ref, binding: Ref)
  datatype FunctionRow = FunctionRow(info: Info, body: Range, params: Range, captures: Range)
  datatype ConstantRow = ConstantRow(info: Info, inner: Ref, items: Range)

  datatype Arena = Arena(
    exprs: seq<ExprRow>, stmts: seq<StmtRow>, functions: seq<FunctionRow>, params: seq<ParamRow>,
    captures: seq<Ref>, patterns: seq<PatternRow>, arms: seq<ArmRow>, bindings: seq<Info>, constants: seq<ConstantRow>,
    exprRefs: seq<nat>, stmtRefs: seq<nat>, paramRefs: seq<nat>, captureRefs: seq<nat>, armRefs: seq<nat>, constantRefs: seq<nat>,
    functionRefs: seq<nat>)

  const EMPTY_ARENA: Arena := Arena([], [], [], [], [], [], [], [], [], [], [], [], [], [], [], [])

  // Where each table that is written more than once may still be patched: rows below the mark
  // belong to enclosing nodes.
  datatype Marks = Marks(exprs: nat, stmts: nat, functions: nat, arms: nat, constants: nat)

  function MarksOf(a: Arena): Marks {
    Marks(|a.exprs|, |a.stmts|, |a.functions|, |a.arms|, |a.constants|)
  }

  predicate Below(lo: Marks, hi: Marks) {
    lo.exprs <= hi.exprs && lo.stmts <= hi.stmts && lo.functions <= hi.functions && lo.arms <= hi.arms && lo.constants <= hi.constants
  }

  // `b` keeps every row of `a` from the marks up, and every row of the tables written once.
  ghost predicate KeepsFrom(a: Arena, b: Arena, lo: Marks) {
    && |a.exprs| <= |b.exprs| && (forall i :: lo.exprs <= i < |a.exprs| ==> b.exprs[i] == a.exprs[i])
    && |a.stmts| <= |b.stmts| && (forall i :: lo.stmts <= i < |a.stmts| ==> b.stmts[i] == a.stmts[i])
    && |a.functions| <= |b.functions| && (forall i :: lo.functions <= i < |a.functions| ==> b.functions[i] == a.functions[i])
    && |a.arms| <= |b.arms| && (forall i :: lo.arms <= i < |a.arms| ==> b.arms[i] == a.arms[i])
    && |a.constants| <= |b.constants| && (forall i :: lo.constants <= i < |a.constants| ==> b.constants[i] == a.constants[i])
    && a.params <= b.params && a.captures <= b.captures && a.patterns <= b.patterns && a.bindings <= b.bindings
    && a.exprRefs <= b.exprRefs && a.stmtRefs <= b.stmtRefs && a.paramRefs <= b.paramRefs
    && a.captureRefs <= b.captureRefs && a.armRefs <= b.armRefs && a.constantRefs <= b.constantRefs && a.functionRefs <= b.functionRefs
  }

  // The one row a builder step may rewrite: the row of the node it is filling in.
  datatype Hole = NoHole | ExprHole(i: nat) | StmtHole(i: nat) | FunctionHole(i: nat) | ArmHole(i: nat) | ConstantHole(i: nat)

  ghost predicate KeepsBut(a: Arena, b: Arena, hole: Hole) {
    && |a.exprs| <= |b.exprs| && (forall i: nat :: i < |a.exprs| && hole != ExprHole(i) ==> b.exprs[i] == a.exprs[i])
    && |a.stmts| <= |b.stmts| && (forall i: nat :: i < |a.stmts| && hole != StmtHole(i) ==> b.stmts[i] == a.stmts[i])
    && |a.functions| <= |b.functions| && (forall i: nat :: i < |a.functions| && hole != FunctionHole(i) ==> b.functions[i] == a.functions[i])
    && |a.arms| <= |b.arms| && (forall i: nat :: i < |a.arms| && hole != ArmHole(i) ==> b.arms[i] == a.arms[i])
    && |a.constants| <= |b.constants| && (forall i: nat :: i < |a.constants| && hole != ConstantHole(i) ==> b.constants[i] == a.constants[i])
    && a.params <= b.params && a.captures <= b.captures && a.patterns <= b.patterns && a.bindings <= b.bindings
    && a.exprRefs <= b.exprRefs && a.stmtRefs <= b.stmtRefs && a.paramRefs <= b.paramRefs
    && a.captureRefs <= b.captureRefs && a.armRefs <= b.armRefs && a.constantRefs <= b.constantRefs && a.functionRefs <= b.functionRefs
  }

  // Building on top of `a`: nothing already there has changed.
  ghost predicate Extends(a: Arena, b: Arena) { KeepsBut(a, b, NoHole) }

  predicate Under(hole: Hole, m: Marks) {
    match hole
    case NoHole => true
    case ExprHole(i) => i < m.exprs
    case StmtHole(i) => i < m.stmts
    case FunctionHole(i) => i < m.functions
    case ArmHole(i) => i < m.arms
    case ConstantHole(i) => i < m.constants
  }

  lemma KeepsTrans(a: Arena, b: Arena, c: Arena, hole: Hole)
    requires KeepsBut(a, b, hole) || Extends(a, b)
    requires KeepsBut(b, c, hole) || Extends(b, c)
    ensures KeepsBut(a, c, hole)
  {
  }

  lemma KeepsToMarks(a: Arena, b: Arena, hole: Hole, m: Marks)
    requires KeepsBut(a, b, hole) && Under(hole, m)
    ensures KeepsFrom(a, b, m) && Below(MarksOf(a), MarksOf(b))
  {
  }

  lemma Sizes(a: Arena, b: Arena, hole: Hole)
    requires KeepsBut(a, b, hole)
    ensures Below(MarksOf(a), MarksOf(b)) && |a.params| <= |b.params|
  {
  }

  lemma ExprKept(a: Arena, b: Arena, hole: Hole, i: nat)
    requires KeepsBut(a, b, hole) && i < |a.exprs| && hole != ExprHole(i)
    ensures i < |b.exprs| && b.exprs[i] == a.exprs[i]
  {
  }

  lemma StmtKept(a: Arena, b: Arena, hole: Hole, i: nat)
    requires KeepsBut(a, b, hole) && i < |a.stmts| && hole != StmtHole(i)
    ensures i < |b.stmts| && b.stmts[i] == a.stmts[i]
  {
  }

  lemma ConstantKept(a: Arena, b: Arena, hole: Hole, i: nat)
    requires KeepsBut(a, b, hole) && i < |a.constants| && hole != ConstantHole(i)
    ensures i < |b.constants| && b.constants[i] == a.constants[i]
  {
  }

  lemma ArmKept(a: Arena, b: Arena, hole: Hole, i: nat)
    requires KeepsBut(a, b, hole) && i < |a.arms| && hole != ArmHole(i)
    ensures i < |b.arms| && b.arms[i] == a.arms[i]
  {
  }

  lemma FunctionKept(a: Arena, b: Arena, hole: Hole, i: nat)
    requires KeepsBut(a, b, hole) && i < |a.functions| && hole != FunctionHole(i)
    ensures i < |b.functions| && b.functions[i] == a.functions[i]
  {
  }

  // A row that did not exist at the start is no exception at the end.
  lemma KeepsFresh(a: Arena, b: Arena, c: Arena, hole: Hole)
    requires Extends(a, b) && KeepsBut(b, c, hole) && !Under(hole, MarksOf(a))
    ensures Extends(a, c)
  {
  }

  // ---- what it means for the arena to hold a tree ---------------------------------------------

  predicate Fits(refs: seq<nat>, r: Range) { r.start + r.count <= |refs| }

  function Slice(refs: seq<nat>, r: Range): (s: seq<nat>)
    requires Fits(refs, r)
    ensures |s| == r.count
  {
    refs[r.start..r.start + r.count]
  }

  ghost predicate HoldsBinding(a: Arena, ref: Ref, b: Option<Info>) {
    match b
    case None => ref == NO_REF
    case Some(info) => ref.present && ref.index < |a.bindings| && a.bindings[ref.index] == info
  }

  // The callee edge is kept for indirect calls only.
  function StoredCallee(e: Expr): (c: Option<Expr>)
    ensures c == None || c == e.callee
  {
    if e.kind.Call? && !e.resolved && e.receiver.None? then e.callee else None
  }

  function StoredBinding(e: Expr): Option<Info> {
    if e.kind.Var? && !e.resolved then e.definition else None
  }

  ghost predicate HoldsRef(a: Arena, lo: Marks, ref: Ref, e: Option<Expr>)
    decreases e, 1
  {
    match e
    case None => ref == NO_REF
    case Some(x) => ref.present && HoldsExpr(a, lo, ref.index, x)
  }

  // Row `i` and the rows its edges lead to spell out `e`; every edge is in bounds, and an edge
  // into the same table leads to a larger index.
  ghost predicate HoldsExpr(a: Arena, lo: Marks, i: nat, e: Expr)
    decreases e, 0, 1
  {
    && lo.exprs <= i < |a.exprs|
    && a.exprs[i].info == e.info
    && HoldsOperands(a, lo.(exprs := i + 1), a.exprs[i], e)
    && HoldsLists(a, lo.(exprs := i + 1), a.exprs[i], e)
    && HoldsAttachments(a, lo.(exprs := i + 1), a.exprs[i], e)
  }

  ghost predicate HoldsOperands(a: Arena, m: Marks, row: ExprRow, e: Expr)
    decreases e, 0, 0
  {
    && HoldsRef(a, m, row.left, e.left) && HoldsRef(a, m, row.right, e.right) && HoldsRef(a, m, row.operand, e.operand)
    && HoldsRef(a, m, row.base, e.base) && HoldsRef(a, m, row.receiver, e.receiver)
    && (if StoredCallee(e).None? then row.callee == NO_REF else HoldsRef(a, m, row.callee, e.callee))
  }

  ghost predicate HoldsLists(a: Arena, m: Marks, row: ExprRow, e: Expr)
    decreases e, 0, 0
  {
    && HoldsExprs(a, m, row.args, e.args) && HoldsExprs(a, m, row.items, e.items)
    && HoldsExprs(a, m, row.keys, e.keys) && HoldsExprs(a, m, row.values, e.values)
  }

  ghost predicate HoldsAttachments(a: Arena, m: Marks, row: ExprRow, e: Expr)
    decreases e, 0, 0
  {
    && (match e.kind case Lambda(f) => row.lambda.present && HoldsFunction(a, m, row.lambda.index, f) case _ => row.lambda == NO_REF)
    && HoldsConstantRef(a, m, row.folded, e.folded)
    && HoldsBinding(a, row.binding, StoredBinding(e))
  }

  ghost predicate HoldsRefs(a: Arena, m: Marks, refs: seq<Ref>, es: seq<Option<Expr>>)
  {
    |refs| == |es| && forall k :: 0 <= k < |es| ==> HoldsRef(a, m, refs[k], es[k])
  }

  ghost predicate HoldsExprListList(a: Arena, m: Marks, ixs: seq<seq<nat>>, ess: seq<seq<Expr>>)
  {
    |ixs| == |ess| && forall k :: 0 <= k < |ess| ==> HoldsExprList(a, m, ixs[k], ess[k])
  }

  ghost predicate HoldsExprList(a: Arena, lo: Marks, ix: seq<nat>, es: seq<Expr>)
    decreases es, 1
  {
    |ix| == |es| && forall k :: 0 <= k < |es| ==> HoldsExpr(a, lo, ix[k], es[k])
  }

  ghost predicate HoldsExprs(a: Arena, lo: Marks, r: Range, es: seq<Expr>)
    decreases es, 2
  {
    Fits(a.exprRefs, r) && HoldsExprList(a, lo, Slice(a.exprRefs, r), es)
  }

  ghost predicate HoldsStmt(a: Arena, lo: Marks, i: nat, s: Stmt)
    decreases s, 0, 1
  {
    && lo.stmts <= i < |a.stmts|
    && a.stmts[i].info == s.info && HoldsBinding(a, a.stmts[i].binding, s.binding)
    && HoldsEdges(a, lo.(stmts := i + 1), a.stmts[i], s)
    && HoldsBodies(a, lo.(stmts := i + 1), a.stmts[i], s)
  }

  ghost predicate HoldsEdges(a: Arena, m: Marks, row: StmtRow, s: Stmt)
    decreases s, 0, 0
  {
    && HoldsRef(a, m, row.init, s.init) && HoldsRef(a, m, row.expr, s.expr) && HoldsRef(a, m, row.target, s.target)
    && HoldsRef(a, m, row.value, s.value) && HoldsRef(a, m, row.cond, s.cond) && HoldsRef(a, m, row.iter, s.iter)
    && HoldsRef(a, m, row.result, s.result) && HoldsRef(a, m, row.scrutinee, s.scrutinee)
  }

  ghost predicate HoldsBodies(a: Arena, m: Marks, row: StmtRow, s: Stmt)
    decreases s, 0, 0
  {
    && HoldsStmts(a, m, row.thenBody, s.thenBody) && HoldsStmts(a, m, row.elseBody, s.elseBody) && HoldsStmts(a, m, row.body, s.body)
    && HoldsArms(a, m, row.arms, s.arms)
  }

  ghost predicate HoldsStmtList(a: Arena, lo: Marks, ix: seq<nat>, ss: seq<Stmt>)
    decreases ss, 1
  {
    |ix| == |ss| && forall k :: 0 <= k < |ss| ==> HoldsStmt(a, lo, ix[k], ss[k])
  }

  ghost predicate HoldsStmts(a: Arena, lo: Marks, r: Range, ss: seq<Stmt>)
    decreases ss, 2
  {
    Fits(a.stmtRefs, r) && HoldsStmtList(a, lo, Slice(a.stmtRefs, r), ss)
  }

  ghost predicate HoldsStmtRanges(a: Arena, m: Marks, rs: seq<Range>, bodies: seq<seq<Stmt>>)
  {
    |rs| == |bodies| && forall k :: 0 <= k < |bodies| ==> HoldsStmts(a, m, rs[k], bodies[k])
  }

  ghost predicate HoldsArm(a: Arena, lo: Marks, i: nat, arm: Arm)
    decreases arm, 0
  {
    && lo.arms <= i < |a.arms|
    && var row, m := a.arms[i], lo.(arms := i + 1);
    && row.info == arm.info
    && row.pattern.present && row.pattern.index < |a.patterns|
    && a.patterns[row.pattern.index].info == arm.pattern
    && HoldsBinding(a, a.patterns[row.pattern.index].binding, arm.patternBinding)
    && HoldsStmts(a, m, row.body, arm.body)
  }

  ghost predicate HoldsArmList(a: Arena, lo: Marks, ix: seq<nat>, arms: seq<Arm>)
    decreases arms, 1
  {
    |ix| == |arms| && forall k :: 0 <= k < |arms| ==> HoldsArm(a, lo, ix[k], arms[k])
  }

  ghost predicate HoldsArms(a: Arena, lo: Marks, r: Range, arms: seq<Arm>)
    decreases arms, 2
  {
    Fits(a.armRefs, r) && HoldsArmList(a, lo, Slice(a.armRefs, r), arms)
  }

  ghost predicate HoldsParam(a: Arena, lo: Marks, i: nat, p: Param)
    decreases p, 0
  {
    && i < |a.params|
    && a.params[i].info == p.info && HoldsBinding(a, a.params[i].binding, Some(p.binding))
    && HoldsRef(a, lo, a.params[i].default, p.default)
  }

  ghost predicate HoldsParamList(a: Arena, lo: Marks, ix: seq<nat>, ps: seq<Param>)
    decreases ps, 1
  {
    |ix| == |ps| && forall k :: 0 <= k < |ps| ==> HoldsParam(a, lo, ix[k], ps[k])
  }

  ghost predicate HoldsCaptureList(a: Arena, ix: seq<nat>, cs: seq<Info>) {
    |ix| == |cs| && forall k :: 0 <= k < |cs| ==> ix[k] < |a.captures| && HoldsBinding(a, a.captures[ix[k]], Some(cs[k]))
  }

  ghost predicate HoldsFunction(a: Arena, lo: Marks, i: nat, f: Function)
    decreases f, 0
  {
    && lo.functions <= i < |a.functions|
    && var row, m := a.functions[i], lo.(functions := i + 1);
    && row.info == f.info
    && Fits(a.paramRefs, row.params) && HoldsParamList(a, m, Slice(a.paramRefs, row.params), f.params)
    && HoldsStmts(a, m, row.body, f.body)
    && Fits(a.captureRefs, row.captures) && HoldsCaptureList(a, Slice(a.captureRefs, row.captures), f.captures)
  }

  ghost predicate HoldsFunctionList(a: Arena, lo: Marks, ix: seq<nat>, fs: seq<Function>)
  {
    |ix| == |fs| && forall k :: 0 <= k < |fs| ==> HoldsFunction(a, lo, ix[k], fs[k])
  }

  // The whole program: the top-level functions and statements.
  ghost predicate HoldsProgram(a: Arena, topFunctions: Range, topStatements: Range, fs: seq<Function>, ss: seq<Stmt>) {
    var m := MarksOf(EMPTY_ARENA);
    && Fits(a.functionRefs, topFunctions) && HoldsFunctionList(a, m, Slice(a.functionRefs, topFunctions), fs)
    && HoldsStmts(a, m, topStatements, ss)
  }

  ghost predicate HoldsConstantRef(a: Arena, lo: Marks, ref: Ref, v: Option<Constant>)
    decreases v, 1
  {
    match v
    case None => ref == NO_REF
    case Some(x) => ref.present && HoldsConstant(a, lo, ref.index, x)
  }

  ghost predicate HoldsConstant(a: Arena, lo: Marks, i: nat, v: Constant)
    decreases v, 0
  {
    && lo.constants <= i < |a.constants|
    && var row, m := a.constants[i], lo.(constants := i + 1);
    && row.info == v.info
    && HoldsConstantRef(a, m, row.inner, v.inner)
    && Fits(a.constantRefs, row.items) && HoldsConstantList(a, m, Slice(a.constantRefs, row.items), v.items)
  }

  ghost predicate HoldsConstantList(a: Arena, lo: Marks, ix: seq<nat>, vs: seq<Constant>)
    decreases vs, 1
  {
    |ix| == |vs| && forall k :: 0 <= k < |vs| ==> HoldsConstant(a, lo, ix[k], vs[k])
  }

  // ---- later building never changes what an earlier row reads as ------------------------------

  lemma {:induction false} KeptRef(a: Arena, hi: Marks, b: Arena, lo: Marks, ref: Ref, e: Option<Expr>)
    requires HoldsRef(a, hi, ref, e) && Below(lo, hi) && KeepsFrom(a, b, lo)
    ensures HoldsRef(b, lo, ref, e)
    decreases e, 1
  {
    if e.Some? { KeptExpr(a, hi, b, lo, ref.index, e.value); }
  }

  lemma {:induction false} KeptExpr(a: Arena, hi: Marks, b: Arena, lo: Marks, i: nat, e: Expr)
    requires HoldsExpr(a, hi, i, e) && Below(lo, hi) && KeepsFrom(a, b, lo)
    ensures HoldsExpr(b, lo, i, e)
    decreases e, 0, 1
  {
    var row, h, m := a.exprs[i], hi.(exprs := i + 1), lo.(exprs := i + 1);
    KeptOperands(a, h, b, m, row, e);
    KeptLists(a, h, b, m, row, e);
    KeptAttachments(a, h, b, m, row, e);
  }

  lemma {:induction false} KeptOperands(a: Arena, h: Marks, b: Arena, m: Marks, row: ExprRow, e: Expr)
    requires HoldsOperands(a, h, row, e) && Below(m, h) && KeepsFrom(a, b, m)
    ensures HoldsOperands(b, m, row, e)
    decreases e, 0, 0
  {
    KeptRef(a, h, b, m, row.left, e.left);
    KeptRef(a, h, b, m, row.right, e.right);
    KeptRef(a, h, b, m, row.operand, e.operand);
    KeptRef(a, h, b, m, row.base, e.base);
    KeptRef(a, h, b, m, row.receiver, e.receiver);
    if StoredCallee(e).Some? { KeptRef(a, h, b, m, row.callee, e.callee); }
  }

  lemma {:induction false} KeptLists(a: Arena, h: Marks, b: Arena, m: Marks, row: ExprRow, e: Expr)
    requires HoldsLists(a, h, row, e) && Below(m, h) && KeepsFrom(a, b, m)
    ensures HoldsLists(b, m, row, e)
    decreases e, 0, 0
  {
    KeptExprs(a, h, b, m, row.args, e.args);
    KeptExprs(a, h, b, m, row.items, e.items);
    KeptExprs(a, h, b, m, row.keys, e.keys);
    KeptExprs(a, h, b, m, row.values, e.values);
  }

  lemma {:induction false} KeptAttachments(a: Arena, h: Marks, b: Arena, m: Marks, row: ExprRow, e: Expr)
    requires HoldsAttachments(a, h, row, e) && Below(m, h) && KeepsFrom(a, b, m)
    ensures HoldsAttachments(b, m, row, e)
    decreases e, 0, 0
  {
    if e.kind.Lambda? { KeptFunction(a, h, b, m, row.lambda.index, e.kind.fn); }
    KeptConstantRef(a, h, b, m, row.folded, e.folded);
  }

  lemma {:induction false} KeptExprList(a: Arena, hi: Marks, b: Arena, lo: Marks, ix: seq<nat>, es: seq<Expr>)
    requires HoldsExprList(a, hi, ix, es) && Below(lo, hi) && KeepsFrom(a, b, lo)
    ensures HoldsExprList(b, lo, ix, es)
    decreases es, 1
  {
    forall k | 0 <= k < |es| ensures HoldsExpr(b, lo, ix[k], es[k]) { KeptExpr(a, hi, b, lo, ix[k], es[k]); }
  }

  lemma KeptRefs(a: Arena, hi: Marks, b: Arena, lo: Marks, refs: seq<Ref>, es: seq<Option<Expr>>)
    requires HoldsRefs(a, hi, refs, es) && Below(lo, hi) && KeepsFrom(a, b, lo)
    ensures HoldsRefs(b, lo, refs, es)
  {
    forall k | 0 <= k < |es| ensures HoldsRef(b, lo, refs[k], es[k]) { KeptRef(a, hi, b, lo, refs[k], es[k]); }
  }

  lemma KeptExprListList(a: Arena, hi: Marks, b: Arena, lo: Marks, ixs: seq<seq<nat>>, ess: seq<seq<Expr>>)
    requires HoldsExprListList(a, hi, ixs, ess) && Below(lo, hi) && KeepsFrom(a, b, lo)
    ensures HoldsExprListList(b, lo, ixs, ess)
  {
    forall k | 0 <= k < |ess| ensures HoldsExprList(b, lo, ixs[k], ess[k]) { KeptExprList(a, hi, b, lo, ixs[k], ess[k]); }
  }

  lemma {:induction false} KeptExprs(a: Arena, hi: Marks, b: Arena, lo: Marks, r: Range, es: seq<Expr>)
    requires HoldsExprs(a, hi, r, es) && Below(lo, hi) && KeepsFrom(a, b, lo)
    ensures HoldsExprs(b, lo, r, es)
    decreases es, 2
  {
    assert Slice(b.exprRefs, r) == Slice(a.exprRefs, r);
    KeptExprList(a, hi, b, lo, Slice(a.exprRefs, r), es);
  }

  lemma {:induction false} KeptStmt(a: Arena, hi: Marks, b: Arena, lo: Marks, i: nat, s: Stmt)
    requires HoldsStmt(a, hi, i, s) && Below(lo, hi) && KeepsFrom(a, b, lo)
    ensures HoldsStmt(b, lo, i, s)
    decreases s, 0, 1
  {
    var row, h, m := a.stmts[i], hi.(stmts := i + 1), lo.(stmts := i + 1);
    KeptEdges(a, h, b, m, row, s);
    KeptBodies(a, h, b, m, row, s);
  }

  lemma {:induction false} KeptEdges(a: Arena, h: Marks, b: Arena, m: Marks, row: StmtRow, s: Stmt)
    requires HoldsEdges(a, h, row, s) && Below(m, h) && KeepsFrom(a, b, m)
    ensures HoldsEdges(b, m, row, s)
    decreases s, 0, 0
  {
    KeptRef(a, h, b, m, row.init, s.init);
    KeptRef(a, h, b, m, row.expr, s.expr);
    KeptRef(a, h, b, m, row.target, s.target);
    KeptRef(a, h, b, m, row.value, s.value);
    KeptRef(a, h, b, m, row.cond, s.cond);
    KeptRef(a, h, b, m, row.iter, s.iter);
    KeptRef(a, h, b, m, row.result, s.result);
    KeptRef(a, h, b, m, row.scrutinee, s.scrutinee);
  }

  lemma {:induction false} KeptBodies(a: Arena, h: Marks, b: Arena, m: Marks, row: StmtRow, s: Stmt)
    requires HoldsBodies(a, h, row, s) && Below(m, h) && KeepsFrom(a, b, m)
    ensures HoldsBodies(b, m, row, s)
    decreases s, 0, 0
  {
    KeptStmts(a, h, b, m, row.thenBody, s.thenBody);
    KeptStmts(a, h, b, m, row.elseBody, s.elseBody);
    KeptStmts(a, h, b, m, row.body, s.body);
    KeptArms(a, h, b, m, row.arms, s.arms);
  }

  lemma {:induction false} KeptStmtList(a: Arena, hi: Marks, b: Arena, lo: Marks, ix: seq<nat>, ss: seq<Stmt>)
    requires HoldsStmtList(a, hi, ix, ss) && Below(lo, hi) && KeepsFrom(a, b, lo)
    ensures HoldsStmtList(b, lo, ix, ss)
    decreases ss, 1
  {
    forall k | 0 <= k < |ss| ensures HoldsStmt(b, lo, ix[k], ss[k]) { KeptStmt(a, hi, b, lo, ix[k], ss[k]); }
  }

  lemma {:induction false} KeptStmts(a: Arena, hi: Marks, b: Arena, lo: Marks, r: Range, ss: seq<Stmt>)
    requires HoldsStmts(a, hi, r, ss) && Below(lo, hi) && KeepsFrom(a, b, lo)
    ensures HoldsStmts(b, lo, r, ss)
    decreases ss, 2
  {
    assert Slice(b.stmtRefs, r) == Slice(a.stmtRefs, r);
    KeptStmtList(a, hi, b, lo, Slice(a.stmtRefs, r), ss);
  }

  lemma KeptStmtRanges(a: Arena, hi: Marks, b: Arena, lo: Marks, rs: seq<Range>, bodies: seq<seq<Stmt>>)
    requires HoldsStmtRanges(a, hi, rs, bodies) && Below(lo, hi) && KeepsFrom(a, b, lo)
    ensures HoldsStmtRanges(b, lo, rs, bodies)
  {
    forall k | 0 <= k < |bodies| ensures HoldsStmts(b, lo, rs[k], bodies[k]) { KeptStmts(a, hi, b, lo, rs[k], bodies[k]); }
  }

  lemma {:induction false} KeptArm(a: Arena, hi: Marks, b: Arena, lo: Marks, i: nat, arm: Arm)
    requires HoldsArm(a, hi, i, arm) && Below(lo, hi) && KeepsFrom(a, b, lo)
    ensures HoldsArm(b, lo, i, arm)
    decreases arm, 0
  {
    KeptStmts(a, hi.(arms := i + 1), b, lo.(arms := i + 1), a.arms[i].body, arm.body);
  }

  lemma {:induction false} KeptArmList(a: Arena, hi: Marks, b: Arena, lo: Marks, ix: seq<nat>, arms: seq<Arm>)
    requires HoldsArmList(a, hi, ix, arms) && Below(lo, hi) && KeepsFrom(a, b, lo)
    ensures HoldsArmList(b, lo, ix, arms)
    decreases arms, 1
  {
    forall k | 0 <= k < |arms| ensures HoldsArm(b, lo, ix[k], arms[k]) { KeptArm(a, hi, b, lo, ix[k], arms[k]); }
  }

  lemma {:induction false} KeptArms(a: Arena, hi: Marks, b: Arena, lo: Marks, r: Range, arms: seq<Arm>)
    requires HoldsArms(a, hi, r, arms) && Below(lo, hi) && KeepsFrom(a, b, lo)
    ensures HoldsArms(b, lo, r, arms)
    decreases arms, 2
  {
    assert Slice(b.armRefs, r) == Slice(a.armRefs, r);
    KeptArmList(a, hi, b, lo, Slice(a.armRefs, r), arms);
  }

  lemma {:induction false} KeptParamList(a: Arena, hi: Marks, b: Arena, lo: Marks, ix: seq<nat>, ps: seq<Param>)
    requires HoldsParamList(a, hi, ix, ps) && Below(lo, hi) && KeepsFrom(a, b, lo)
    ensures HoldsParamList(b, lo, ix, ps)
    decreases ps, 1
  {
    forall k | 0 <= k < |ps| ensures HoldsParam(b, lo, ix[k], ps[k]) {
      KeptRef(a, hi, b, lo, a.params[ix[k]].default, ps[k].default);
    }
  }

  lemma {:induction false} KeptFunction(a: Arena, hi: Marks, b: Arena, lo: Marks, i: nat, f: Function)
    requires HoldsFunction(a, hi, i, f) && Below(lo, hi) && KeepsFrom(a, b, lo)
    ensures HoldsFunction(b, lo, i, f)
    decreases f, 0
  {
    var row, h, m := a.functions[i], hi.(functions := i + 1), lo.(functions := i + 1);
    assert Slice(b.paramRefs, row.params) == Slice(a.paramRefs, row.params);
    assert Slice(b.captureRefs, row.captures) == Slice(a.captureRefs, row.captures);
    KeptParamList(a, h, b, m, Slice(a.paramRefs, row.params), f.params);
    KeptStmts(a, h, b, m, row.body, f.body);
  }

  lemma KeptFunctionList(a: Arena, hi: Marks, b: Arena, lo: Marks, ix: seq<nat>, fs: seq<Function>)
    requires HoldsFunctionList(a, hi, ix, fs) && Below(lo, hi) && KeepsFrom(a, b, lo)
    ensures HoldsFunctionList(b, lo, ix, fs)
  {
    forall k | 0 <= k < |fs| ensures HoldsFunction(b, lo, ix[k], fs[k]) { KeptFunction(a, hi, b, lo, ix[k], fs[k]); }
  }

  lemma {:induction false} KeptConstantRef(a: Arena, hi: Marks, b: Arena, lo: Marks, ref: Ref, v: Option<Constant>)
    requires HoldsConstantRef(a, hi, ref, v) && Below(lo, hi) && KeepsFrom(a, b, lo)
    ensures HoldsConstantRef(b, lo, ref, v)
    decreases v, 1
  {
    if v.Some? { KeptConstant(a, hi, b, lo, ref.index, v.value); }
  }

  lemma {:induction false} KeptConstantList(a: Arena, hi: Marks, b: Arena, lo: Marks, ix: seq<nat>, vs: seq<Constant>)
    requires HoldsConstantList(a, hi, ix, vs) && Below(lo, hi) && KeepsFrom(a, b, lo)
    ensures HoldsConstantList(b, lo, ix, vs)
    decreases vs, 1
  {
    forall k | 0 <= k < |vs| ensures HoldsConstant(b, lo, ix[k], vs[k]) {
      KeptConstant(a, hi, b, lo, ix[k], vs[k]);
    }
  }

  lemma {:induction false} KeptConstant(a: Arena, hi: Marks, b: Arena, lo: Marks, i: nat, v: Constant)
    requires HoldsConstant(a, hi, i, v) && Below(lo, hi) && KeepsFrom(a, b, lo)
    ensures HoldsConstant(b, lo, i, v)
    decreases v, 0
  {
    var row, h, m := a.constants[i], hi.(constants := i + 1), lo.(constants := i + 1);
    KeptConstantRef(a, h, b, m, row.inner, v.inner);
    assert Slice(b.constantRefs, row.items) == Slice(a.constantRefs, row.items);
    KeptConstantList(a, h, b, m, Slice(a.constantRefs, row.items), v.items);
  }
}
