// The backend's side of the arena: nodes are short-lived views of single rows, made on first use
// and memoised; every edge is followed through the row index of a view.
module ArenaReader {
  import opened Wrappers
  import opened Arena

  // What the backend can see of a tree: folded values, lambdas and the scalars of a match arm are
  // not followed.
  function View(e: Expr): Expr
    decreases e, 0
  {
    Expr(e.info, OtherExpr, true,
         ViewOption(e.left), ViewOption(e.right), ViewOption(e.operand), ViewOption(e.base), ViewOption(e.receiver),
         if StoredCallee(e).Some? then ViewOption(e.callee) else None,
         ViewList(e.args), ViewList(e.items), ViewList(e.keys), ViewList(e.values),
         None, StoredBinding(e))
  }

  function ViewOption(e: Option<Expr>): Option<Expr>
    decreases e, 1
  {
    if e.Some? then Some(View(e.value)) else None
  }

  function ViewList(es: seq<Expr>): (r: seq<Expr>)
    ensures |r| == |es| && forall i :: 0 <= i < |es| ==> r[i] == View(es[i])
    decreases es, 1
  {
    if es == [] then [] else [View(es[0])] + ViewList(es[1..])
  }

  function ViewStmt(s: Stmt): Stmt
    decreases s, 0
  {
    Stmt(s.info, s.binding,
         ViewOption(s.init), ViewOption(s.expr), ViewOption(s.target), ViewOption(s.value),
         ViewOption(s.cond), ViewOption(s.iter), ViewOption(s.result), ViewOption(s.scrutinee),
         ViewBody(s.thenBody), ViewBody(s.elseBody), ViewBody(s.body), ViewArms(s.arms))
  }

  function ViewBody(ss: seq<Stmt>): (r: seq<Stmt>)
    ensures |r| == |ss| && forall i :: 0 <= i < |ss| ==> r[i] == ViewStmt(ss[i])
    decreases ss, 1
  {
    if ss == [] then [] else [ViewStmt(ss[0])] + ViewBody(ss[1..])
  }

  function ViewArms(arms: seq<Arm>): (r: seq<Arm>)
    ensures |r| == |arms| && forall i :: 0 <= i < |arms| ==> r[i] == ViewArm(arms[i])
    decreases arms, 1
  {
    if arms == [] then [] else [ViewArm(arms[0])] + ViewArms(arms[1..])
  }

  function ViewArm(arm: Arm): Arm
    decreases arm, 0
  {
    Arm("", arm.pattern, arm.patternBinding, ViewBody(arm.body))
  }

  // A function's captures are not followed.
  function ViewFunction(f: Function): Function { Function(f.info, ViewParams(f.params), ViewBody(f.body), []) }

  function ViewParams(ps: seq<Param>): (r: seq<Param>)
    ensures |r| == |ps| && forall i :: 0 <= i < |ps| ==> r[i] == ViewParam(ps[i])
  {
    if ps == [] then [] else [ViewParam(ps[0])] + ViewParams(ps[1..])
  }

  function ViewParam(p: Param): Param { Param(p.info, ViewOption(p.default), p.binding) }

  function ViewFunctions(fs: seq<Function>): (r: seq<Function>)
    ensures |r| == |fs| && forall i :: 0 <= i < |fs| ==> r[i] == ViewFunction(fs[i])
  {
    if fs == [] then [] else [ViewFunction(fs[0])] + ViewFunctions(fs[1..])
  }

  // One row reads as one tree: two trees that the arena holds at the same row look the same.
  lemma {:induction false} OneTreePerRow(a: Arena, lo1: Marks, lo2: Marks, i: nat, e1: Expr, e2: Expr)
    requires HoldsExpr(a, lo1, i, e1) && HoldsExpr(a, lo2, i, e2)
    ensures View(e1) == View(e2)
    decreases e1, 0
  {
    hide HoldsExpr, HoldsRef, HoldsExprs;
    ExprParts(a, lo1, i, e1);
    ExprParts(a, lo2, i, e2);
    var row, m1, m2 := a.exprs[i], lo1.(exprs := i + 1), lo2.(exprs := i + 1);
    OneTreePerRef(a, m1, m2, row.left, e1.left, e2.left);
    OneTreePerRef(a, m1, m2, row.right, e1.right, e2.right);
    OneTreePerRef(a, m1, m2, row.operand, e1.operand, e2.operand);
    OneTreePerRef(a, m1, m2, row.base, e1.base, e2.base);
    OneTreePerRef(a, m1, m2, row.receiver, e1.receiver, e2.receiver);
    if row.callee.present { OneTreePerRef(a, m1, m2, row.callee, e1.callee, e2.callee); }
    OneTreePerRange(a, m1, m2, row.args, e1.args, e2.args);
    OneTreePerRange(a, m1, m2, row.items, e1.items, e2.items);
    OneTreePerRange(a, m1, m2, row.keys, e1.keys, e2.keys);
    OneTreePerRange(a, m1, m2, row.values, e1.values, e2.values);
  }

  lemma {:induction false} OneTreePerRef(a: Arena, lo1: Marks, lo2: Marks, ref: Ref, e1: Option<Expr>, e2: Option<Expr>)
    requires HoldsRef(a, lo1, ref, e1) && HoldsRef(a, lo2, ref, e2)
    ensures ViewOption(e1) == ViewOption(e2)
    decreases e1, 1
  {
    if ref.present { OneTreePerRow(a, lo1, lo2, ref.index, e1.value, e2.value); }
  }

  lemma {:induction false} OneTreePerRange(a: Arena, lo1: Marks, lo2: Marks, r: Range, es1: seq<Expr>, es2: seq<Expr>)
    requires HoldsExprs(a, lo1, r, es1) && HoldsExprs(a, lo2, r, es2)
    ensures ViewList(es1) == ViewList(es2)
    decreases es1, 1
  {
    var v1, v2 := ViewList(es1), ViewList(es2);
    forall k | 0 <= k < r.count ensures v1[k] == v2[k] {
      OneTreePerRow(a, lo1, lo2, Slice(a.exprRefs, r)[k], es1[k], es2[k]);
    }
  }

  class ExprNode {
    const info: Info
    const binding: Option<Info>

    constructor (info: Info, binding: Option<Info>)
      ensures this.info == info && this.binding == binding
    {
      this.info, this.binding := info, binding;
    }
  }

  class StmtNode {
    const info: Info
    const binding: Option<Info>

    constructor (info: Info, binding: Option<Info>)
      ensures this.info == info && this.binding == binding
    {
      this.info, this.binding := info, binding;
    }
  }

  class ArmNode {
    const pattern: Info
    const binding: Option<Info>

    constructor (pattern: Info, binding: Option<Info>)
      ensures this.pattern == pattern && this.binding == binding
    {
      this.pattern, this.binding := pattern, binding;
    }
  }

  // A parameter of a function view, with the view of its default.
  datatype ParamNode = ParamNode(info: Info, default: ExprNode?, binding: Option<Info>)

  class FunctionNode {
    const info: Info
    const params: seq<ParamNode>

    constructor (info: Info, params: seq<ParamNode>)
      ensures this.info == info && this.params == params
    {
      this.info, this.params := info, params;
    }
  }

  function BindingAt(a: Arena, ref: Ref): Option<Info> {
    if ref.present && ref.index < |a.bindings| then Some(a.bindings[ref.index]) else None
  }

  class Cgen {
    const arena: Arena
    var expressionNodes: seq<ExprNode?>
    var statementNodes: seq<StmtNode?>
    var armNodes: seq<ArmNode?>
    var expressionIndex: map<ExprNode, nat>
    var statementIndex: map<StmtNode, nat>
    var armIndex: map<ArmNode, nat>
    var functionNodes: seq<FunctionNode?>
    var functionIndex: map<FunctionNode, nat>
    var unsupported: bool

    // A memoised view shows its own row, and the reverse index leads back to that row.
    ghost predicate Valid()
      reads this
    {
      ValidExprs() && ValidStmts() && ValidArms() && ValidFunctions()
    }

    ghost predicate ValidExprs()
      reads this`expressionNodes, this`expressionIndex
    {
      && |expressionNodes| == |arena.exprs|
      && (forall i :: 0 <= i < |expressionNodes| && expressionNodes[i] != null ==> ShowsExpr(i, expressionNodes[i]))
      && (forall n :: n in expressionIndex ==> expressionIndex[n] < |expressionNodes| && expressionNodes[expressionIndex[n]] == n)
    }

    ghost predicate ValidStmts()
      reads this`statementNodes, this`statementIndex
    {
      && |statementNodes| == |arena.stmts|
      && (forall i :: 0 <= i < |statementNodes| && statementNodes[i] != null ==> ShowsStmt(i, statementNodes[i]))
      && (forall n :: n in statementIndex ==> statementIndex[n] < |statementNodes| && statementNodes[statementIndex[n]] == n)
    }

    ghost predicate ValidArms()
      reads this`armNodes, this`armIndex
    {
      && |armNodes| == |arena.arms|
      && (forall i :: 0 <= i < |armNodes| && armNodes[i] != null ==> ShowsArm(i, armNodes[i]))
      && (forall n :: n in armIndex ==> armIndex[n] < |armNodes| && armNodes[armIndex[n]] == n)
    }

    ghost predicate ValidFunctions()
      reads this`functionNodes, this`functionIndex, this`expressionIndex
    {
      && |functionNodes| == |arena.functions|
      && (forall i :: 0 <= i < |functionNodes| && functionNodes[i] != null ==> ShowsFunction(i, functionNodes[i]))
      && (forall n :: n in functionIndex ==> functionIndex[n] < |functionNodes| && functionNodes[functionIndex[n]] == n)
    }

    ghost predicate ShowsFunction(i: nat, n: FunctionNode)
      reads this`functionIndex, this`expressionIndex
    {
      && i < |arena.functions| && n in functionIndex && functionIndex[n] == i
      && n.info == arena.functions[i].info && ShowsParams(arena.functions[i].params, n.params)
    }

    // A range that leads out of a table shows as nothing.
    ghost predicate ShowsParams(list: Range, ps: seq<ParamNode>)
      reads this`expressionIndex
    {
      if InTable(arena, list) then |ps| == list.count && forall k :: 0 <= k < |ps| ==> ShowsParam(Slice(arena.paramRefs, list)[k], ps[k]) else ps == []
    }

    ghost predicate ShowsParam(i: nat, p: ParamNode)
      reads this`expressionIndex
    {
      && i < |arena.params|
      && var row := arena.params[i];
      && p.info == row.info && p.binding == BindingAt(arena, row.binding)
      && (p.default != null <==> row.default.present && row.default.index < |arena.exprs|)
      && (p.default != null ==> p.default in expressionIndex && expressionIndex[p.default] == row.default.index)
    }

    ghost predicate ShowsExpr(i: nat, n: ExprNode)
      reads this`expressionIndex
    {
      && i < |arena.exprs| && n in expressionIndex && expressionIndex[n] == i
      && n.info == arena.exprs[i].info && n.binding == BindingAt(arena, arena.exprs[i].binding)
    }

    ghost predicate ShowsStmt(i: nat, n: StmtNode)
      reads this`statementIndex
    {
      && i < |arena.stmts| && n in statementIndex && statementIndex[n] == i
      && n.info == arena.stmts[i].info && n.binding == BindingAt(arena, arena.stmts[i].binding)
    }

    ghost predicate ShowsArm(i: nat, n: ArmNode)
      reads this`armIndex
    {
      && i < |arena.arms| && n in armIndex && armIndex[n] == i
      && var p := arena.arms[i].pattern;
      && (p.present && p.index < |arena.patterns| ==>
            n.pattern == arena.patterns[p.index].info && n.binding == BindingAt(arena, arena.patterns[p.index].binding))
    }

    // A second look at a row yields the same view.
    twostate predicate Memoised()
      reads this
    {
      && |old(expressionNodes)| == |expressionNodes| && |old(statementNodes)| == |statementNodes| && |old(armNodes)| == |armNodes|
      && (forall i :: 0 <= i < |expressionNodes| && old(expressionNodes)[i] != null ==> expressionNodes[i] == old(expressionNodes)[i])
      && (forall i :: 0 <= i < |statementNodes| && old(statementNodes)[i] != null ==> statementNodes[i] == old(statementNodes)[i])
      && (forall i :: 0 <= i < |armNodes| && old(armNodes)[i] != null ==> armNodes[i] == old(armNodes)[i])
      && |old(functionNodes)| == |functionNodes|
      && (forall i :: 0 <= i < |functionNodes| && old(functionNodes)[i] != null ==> functionNodes[i] == old(functionNodes)[i])
      && (forall n :: n in old(expressionIndex) ==> n in expressionIndex && expressionIndex[n] == old(expressionIndex)[n])
    }

    constructor (a: Arena)
      ensures arena == a && Valid() && !unsupported
    {
      arena := a;
      expressionNodes := seq(|a.exprs|, i => null);
      statementNodes := seq(|a.stmts|, i => null);
      armNodes := seq(|a.arms|, i => null);
      functionNodes, functionIndex := seq(|a.functions|, i => null), map[];
      expressionIndex, statementIndex, armIndex, unsupported := map[], map[], map[], false;
    }

    method Binding(ref: Ref) returns (b: Option<Info>)
      modifies this`unsupported
      ensures b == BindingAt(arena, ref)
      ensures !ref.present || ref.index < |arena.bindings| ==> unsupported == old(unsupported)
    {
      if !ref.present { return None; }
      if ref.index >= |arena.bindings| {
        unsupported := true;
        return None;
      }
      return Some(arena.bindings[ref.index]);
    }

    method Expression(ref: Ref) returns (node: ExprNode?)
      requires Valid()
      modifies this
      ensures Valid() && Memoised()
      ensures node != null <==> ref.present && ref.index < |arena.exprs|
      ensures functionNodes == old(functionNodes) && functionIndex == old(functionIndex)
      ensures node != null ==> ShowsExpr(ref.index, node) && expressionNodes[ref.index] == node
      ensures !ref.present || (ref.index < |arena.exprs| && var b := arena.exprs[ref.index].binding; b.present ==> b.index < |arena.bindings|)
        ==> unsupported == old(unsupported)
    {
      hide ValidStmts, ValidArms, ValidFunctions;
      if !ref.present { return null; }
      if ref.index >= |arena.exprs| {
        unsupported := true;
        return null;
      }
      if expressionNodes[ref.index] != null { return expressionNodes[ref.index]; }
      var row := arena.exprs[ref.index];
      var binding := Binding(row.binding);
      var fresh' := new ExprNode(row.info, binding);
      expressionNodes := expressionNodes[ref.index := fresh'];
      expressionIndex := expressionIndex[fresh' := ref.index];
      node := fresh';
      FunctionsStay();
    }

    // More expression views leave the function views as they are.
    twostate lemma FunctionsStay()
      requires old(ValidFunctions()) && functionNodes == old(functionNodes) && functionIndex == old(functionIndex)
      requires forall n :: n in old(expressionIndex) ==> n in expressionIndex && expressionIndex[n] == old(expressionIndex)[n]
      ensures ValidFunctions()
    {
      forall i | 0 <= i < |functionNodes| && functionNodes[i] != null ensures ShowsFunction(i, functionNodes[i]) {
        assert old(ShowsFunction(i, functionNodes[i]));
      }
    }

    method ExpressionRow(node: ExprNode) returns (row: Option<ExprRow>)
      requires Valid()
      modifies this`unsupported
      ensures node in expressionIndex ==> row == Some(arena.exprs[expressionIndex[node]]) && unsupported == old(unsupported)
      ensures node !in expressionIndex ==> row == None && unsupported
    {
      if node !in expressionIndex {
        unsupported := true;
        return None;
      }
      return Some(arena.exprs[expressionIndex[node]]);
    }

    method Statement(ref: Ref) returns (node: StmtNode?)
      requires Valid()
      modifies this
      ensures Valid() && Memoised()
      ensures node != null <==> ref.present && ref.index < |arena.stmts|
      ensures node != null ==> ShowsStmt(ref.index, node) && statementNodes[ref.index] == node
      ensures !ref.present || (ref.index < |arena.stmts| && var b := arena.stmts[ref.index].binding; b.present ==> b.index < |arena.bindings|)
        ==> unsupported == old(unsupported)
    {
      hide ValidExprs, ValidArms;
      if !ref.present { return null; }
      if ref.index >= |arena.stmts| {
        unsupported := true;
        return null;
      }
      if statementNodes[ref.index] != null { return statementNodes[ref.index]; }
      var row := arena.stmts[ref.index];
      var binding := Binding(row.binding);
      var fresh' := new StmtNode(row.info, binding);
      statementNodes := statementNodes[ref.index := fresh'];
      statementIndex := statementIndex[fresh' := ref.index];
      node := fresh';
    }

    method StatementRow(node: StmtNode) returns (row: Option<StmtRow>)
      requires Valid()
      modifies this`unsupported
      ensures node in statementIndex ==> row == Some(arena.stmts[statementIndex[node]]) && unsupported == old(unsupported)
      ensures node !in statementIndex ==> row == None && unsupported
    {
      if node !in statementIndex {
        unsupported := true;
        return None;
      }
      return Some(arena.stmts[statementIndex[node]]);
    }

    method MatchArm(i: nat) returns (node: ArmNode)
      requires Valid() && i < |arena.arms|
      requires var p := arena.arms[i].pattern; p.present && p.index < |arena.patterns|
      modifies this
      ensures Valid() && Memoised() && ShowsArm(i, node) && armNodes[i] == node
      ensures var b := arena.patterns[arena.arms[i].pattern.index].binding; (b.present ==> b.index < |arena.bindings|) ==> unsupported == old(unsupported)
    {
      hide ValidExprs, ValidStmts;
      if armNodes[i] != null { return armNodes[i]; }
      var row := arena.patterns[arena.arms[i].pattern.index];
      var binding := Binding(row.binding);
      node := new ArmNode(row.info, binding);
      armNodes := armNodes[i := node];
      armIndex := armIndex[node := i];
    }

    method FunctionAt(ref: Ref) returns (node: FunctionNode?)
      requires Valid()
      modifies this
      ensures Valid() && Memoised()
      ensures node != null <==> ref.present && ref.index < |arena.functions|
      ensures node != null ==> ShowsFunction(ref.index, node) && functionNodes[ref.index] == node
      ensures node != null && ParamsInBounds(arena, arena.functions[ref.index].params) ==> unsupported == old(unsupported)
    {
      hide ValidExprs, ValidStmts, ValidArms, ParamsInBounds;
      if !ref.present { return null; }
      if ref.index >= |arena.functions| {
        unsupported := true;
        return null;
      }
      if functionNodes[ref.index] != null { return functionNodes[ref.index]; }
      var row := arena.functions[ref.index];
      var params := ParameterList(row.params);
      var fresh' := new FunctionNode(row.info, params);
      functionNodes := functionNodes[ref.index := fresh'];
      functionIndex := functionIndex[fresh' := ref.index];
      node := fresh';
    }

    method ParameterList(list: Range) returns (params: seq<ParamNode>)
      requires Valid()
      modifies this
      ensures Valid() && Memoised() && functionNodes == old(functionNodes) && functionIndex == old(functionIndex)
      ensures ShowsParams(list, params)
      ensures ParamsInBounds(arena, list) ==> unsupported == old(unsupported)
    {
      hide ValidExprs, ValidStmts, ValidArms, ValidFunctions;
      if !Fits(arena.paramRefs, list) {
        unsupported := true;
        return [];
      }
      params := [];
      for k := 0 to list.count
        invariant Valid() && Memoised() && functionNodes == old(functionNodes) && functionIndex == old(functionIndex)
        invariant |params| == k && forall j :: 0 <= j < k ==> ShowsParam(Slice(arena.paramRefs, list)[j], params[j])
        invariant ParamsInBounds(arena, list) ==> unsupported == old(unsupported)
      {
        var i := arena.paramRefs[list.start + k];
        assert i == Slice(arena.paramRefs, list)[k];
        if i >= |arena.params| {
          unsupported := true;
          return [];
        }
        var default := Expression(arena.params[i].default);
        var binding := Binding(arena.params[i].binding);
        params := params + [ParamNode(arena.params[i].info, default, binding)];
      }
    }

    // ---- a whole walk ----

    // Walking from a reference that holds `e` rebuilds what the backend can see of `e`.
    method ReadExpression(ref: Ref, ghost lo: Marks, ghost e: Option<Expr>) returns (tree: Option<Expr>)
      requires Valid() && HoldsRef(arena, lo, ref, e)
      modifies this
      ensures Valid() && unsupported == old(unsupported)
      ensures tree == ViewOption(e)
      decreases e, 0
    {
      if !ref.present { return None; }
      var x := ReadNode(ref.index, lo, e.value);
      tree := Some(x);
    }

    method ReadNode(i: nat, ghost lo: Marks, ghost x: Expr) returns (tree: Expr)
      requires Valid() && HoldsExpr(arena, lo, i, x)
      modifies this
      ensures Valid() && unsupported == old(unsupported)
      ensures tree == View(x)
      decreases x, 2
    {
      hide HoldsExpr, HoldsRef, HoldsExprs, BindingAt, Valid, Memoised;
      ExprParts(arena, lo, i, x);
      var node := Expression(Ref(i, true));
      var found := ExpressionRow(node);
      var row := found.value;
      ghost var m := lo.(exprs := i + 1);
      var left := ReadExpression(row.left, m, x.left);
      var right := ReadExpression(row.right, m, x.right);
      var operand := ReadExpression(row.operand, m, x.operand);
      var base := ReadExpression(row.base, m, x.base);
      var receiver := ReadExpression(row.receiver, m, x.receiver);
      var callee: Option<Expr> := None;
      if row.callee.present { callee := ReadExpression(row.callee, m, x.callee); }
      var args := ReadExpressions(row.args, m, x.args);
      var items := ReadExpressions(row.items, m, x.items);
      var keys := ReadExpressions(row.keys, m, x.keys);
      var values := ReadExpressions(row.values, m, x.values);
      return Expr(node.info, OtherExpr, true, left, right, operand, base, receiver, callee, args, items, keys, values, None, node.binding);
    }

    method ReadExpressions(r: Range, ghost lo: Marks, ghost es: seq<Expr>) returns (trees: seq<Expr>)
      requires Valid() && HoldsExprs(arena, lo, r, es)
      modifies this
      ensures Valid() && unsupported == old(unsupported)
      ensures trees == ViewList(es)
      decreases es, 1
    {
      hide Valid, Memoised, HoldsExpr, HoldsStmt;
      trees := [];
      for k := 0 to r.count
        invariant Valid() && unsupported == old(unsupported)
        invariant |trees| == k && forall j :: 0 <= j < k ==> trees[j] == View(es[j])
      {
        assert HoldsExpr(arena, lo, Slice(arena.exprRefs, r)[k], es[k]);
        var tree := ReadNode(arena.exprRefs[r.start + k], lo, es[k]);
        trees := trees + [tree];
      }
    }

    method ReadStatement(i: nat, ghost lo: Marks, ghost s: Stmt) returns (tree: Stmt)
      requires Valid() && HoldsStmt(arena, lo, i, s)
      modifies this
      ensures Valid() && unsupported == old(unsupported)
      ensures tree == ViewStmt(s)
      decreases s, 2
    {
      hide HoldsStmt, HoldsEdges, HoldsStmts, HoldsArms, BindingAt, Valid, Memoised, ViewOption, ViewBody, ViewArms;
      StmtParts(arena, lo, i, s);
      var node := Statement(Ref(i, true));
      var found := StatementRow(node);
      var row := found.value;
      ghost var m := lo.(stmts := i + 1);
      var e := ReadEdges(row, m, s);
      var thenBody := ReadStatements(row.thenBody, m, s.thenBody);
      var elseBody := ReadStatements(row.elseBody, m, s.elseBody);
      var body := ReadStatements(row.body, m, s.body);
      var arms := ReadArms(row.arms, m, s.arms);
      return e.(info := node.info, binding := node.binding, thenBody := thenBody, elseBody := elseBody, body := body, arms := arms);
    }

    // The expression edges of a statement row.
    method ReadEdges(row: StmtRow, ghost m: Marks, ghost s: Stmt) returns (tree: Stmt)
      requires Valid() && HoldsEdges(arena, m, row, s)
      modifies this
      ensures Valid() && unsupported == old(unsupported)
      ensures tree == ViewStmt(s).(info := "", binding := None, thenBody := [], elseBody := [], body := [], arms := [])
      decreases s, 1
    {
      hide HoldsRef, Valid, Memoised, ViewOption, ViewBody, ViewArms;
      var init := ReadExpression(row.init, m, s.init);
      var expr := ReadExpression(row.expr, m, s.expr);
      var target := ReadExpression(row.target, m, s.target);
      var value := ReadExpression(row.value, m, s.value);
      var cond := ReadExpression(row.cond, m, s.cond);
      var iter := ReadExpression(row.iter, m, s.iter);
      var result := ReadExpression(row.result, m, s.result);
      var scrutinee := ReadExpression(row.scrutinee, m, s.scrutinee);
      return Stmt("", None, init, expr, target, value, cond, iter, result, scrutinee, [], [], [], []);
    }

    method ReadStatements(r: Range, ghost lo: Marks, ghost ss: seq<Stmt>) returns (trees: seq<Stmt>)
      requires Valid() && HoldsStmts(arena, lo, r, ss)
      modifies this
      ensures Valid() && unsupported == old(unsupported)
      ensures trees == ViewBody(ss)
      decreases ss, 1
    {
      hide Valid, Memoised, HoldsExpr, HoldsStmt;
      trees := [];
      for k := 0 to r.count
        invariant Valid() && unsupported == old(unsupported)
        invariant |trees| == k && forall j :: 0 <= j < k ==> trees[j] == ViewStmt(ss[j])
      {
        assert HoldsStmt(arena, lo, Slice(arena.stmtRefs, r)[k], ss[k]);
        var tree := ReadStatement(arena.stmtRefs[r.start + k], lo, ss[k]);
        trees := trees + [tree];
      }
    }

    method ReadArms(r: Range, ghost lo: Marks, ghost arms: seq<Arm>) returns (trees: seq<Arm>)
      requires Valid() && HoldsArms(arena, lo, r, arms)
      modifies this
      ensures Valid() && unsupported == old(unsupported)
      ensures trees == ViewArms(arms)
      decreases arms, 1
    {
      hide Valid, Memoised, HoldsArm, HoldsStmts, BindingAt;
      trees := [];
      for k := 0 to r.count
        invariant Valid() && unsupported == old(unsupported)
        invariant |trees| == k && forall j :: 0 <= j < k ==> trees[j] == ViewArm(arms[j])
      {
        hide ViewBody, ViewArms, HoldsArms;
        ArmOf(arena, lo, r, arms, k);
        var tree := ReadArm(arena.armRefs[r.start + k], lo, arms[k]);
        trees := trees + [tree];
      }
    }

    method ReadArm(i: nat, ghost lo: Marks, ghost arm: Arm) returns (tree: Arm)
      requires Valid() && HoldsArm(arena, lo, i, arm)
      modifies this
      ensures Valid() && unsupported == old(unsupported)
      ensures tree == ViewArm(arm)
      decreases arm, 1
    {
      hide Valid, Memoised, HoldsArm, HoldsStmts, BindingAt, ViewBody;
      ArmParts(arena, lo, i, arm);
      var node := MatchArm(i);
      var body := ReadStatements(arena.arms[i].body, lo.(arms := i + 1), arm.body);
      return Arm("", node.pattern, node.binding, body);
    }

    method ReadFunction(i: nat, ghost lo: Marks, ghost f: Function) returns (tree: Function)
      requires Valid() && HoldsFunction(arena, lo, i, f)
      modifies this
      ensures Valid() && unsupported == old(unsupported)
      ensures tree == ViewFunction(f)
    {
      hide Valid, Memoised, HoldsFunction, HoldsStmts, HoldsParam, ParamsInBounds, ViewOption, ViewBody;
      FunctionParts(arena, lo, i, f);
      ghost var m := lo.(functions := i + 1);
      var node := FunctionAt(Ref(i, true));
      var refs := DefaultRows(i, node, m, f);
      var params := ReadParams(node.params, refs, m, f.params);
      var body := ReadStatements(arena.functions[i].body, m, f.body);
      return Function(node.info, params, body, []);
    }

    // The row of every default's view, through the reverse index.
    method DefaultRows(i: nat, node: FunctionNode, ghost m: Marks, ghost f: Function) returns (refs: seq<Ref>)
      requires Valid() && ShowsFunction(i, node) && ParamsInBounds(arena, arena.functions[i].params) && arena.functions[i].params.count == |f.params|
      requires forall k :: 0 <= k < |f.params| ==> HoldsParam(arena, m, Slice(arena.paramRefs, arena.functions[i].params)[k], f.params[k])
      ensures |refs| == |node.params| == |f.params|
      ensures forall k :: 0 <= k < |refs| ==> HoldsRef(arena, m, refs[k], f.params[k].default)
      ensures forall k :: 0 <= k < |refs| ==> node.params[k].info == f.params[k].info && node.params[k].binding == Some(f.params[k].binding)
    {
      hide Valid, HoldsParam, HoldsRef, BindingAt;
      refs := [];
      for k := 0 to |node.params|
        invariant |refs| == k
        invariant forall j :: 0 <= j < k ==> HoldsRef(arena, m, refs[j], f.params[j].default)
        invariant forall j :: 0 <= j < k ==> node.params[j].info == f.params[j].info && node.params[j].binding == Some(f.params[j].binding)
      {
        ghost var row := Slice(arena.paramRefs, arena.functions[i].params)[k];
        assert ShowsParam(row, node.params[k]);
        ParamOf(arena, m, row, f.params[k]);
        RefOf(arena, m, arena.params[row].default, f.params[k].default);
        refs := refs + [if node.params[k].default != null then Ref(expressionIndex[node.params[k].default], true) else NO_REF];
      }
    }

    method ReadParams(nodes: seq<ParamNode>, refs: seq<Ref>, ghost m: Marks, ghost ps: seq<Param>) returns (params: seq<Param>)
      requires Valid() && |refs| == |nodes| == |ps|
      requires forall k :: 0 <= k < |ps| ==> HoldsRef(arena, m, refs[k], ps[k].default)
      requires forall k :: 0 <= k < |ps| ==> nodes[k].info == ps[k].info && nodes[k].binding == Some(ps[k].binding)
      modifies this
      ensures Valid() && unsupported == old(unsupported)
      ensures params == ViewParams(ps)
    {
      hide Valid, HoldsRef, ViewOption;
      params := [];
      for k := 0 to |nodes|
        invariant Valid() && unsupported == old(unsupported)
        invariant |params| == k && forall j :: 0 <= j < k ==> params[j] == ViewParam(ps[j])
      {
        var default := ReadExpression(refs[k], m, ps[k].default);
        params := params + [Param(nodes[k].info, default, nodes[k].binding.value)];
      }
    }

    method ReadFunctions(r: Range, ghost m: Marks, ghost fs: seq<Function>) returns (trees: seq<Function>)
      requires Valid() && Fits(arena.functionRefs, r) && HoldsFunctionList(arena, m, Slice(arena.functionRefs, r), fs)
      modifies this
      ensures Valid() && unsupported == old(unsupported)
      ensures trees == ViewFunctions(fs)
    {
      hide Valid, HoldsFunction, ViewFunction;
      trees := [];
      for k := 0 to r.count
        invariant Valid() && unsupported == old(unsupported)
        invariant |trees| == k && forall j :: 0 <= j < k ==> trees[j] == ViewFunction(fs[j])
      {
        assert HoldsFunction(arena, m, Slice(arena.functionRefs, r)[k], fs[k]);
        var tree := ReadFunction(arena.functionRefs[r.start + k], m, fs[k]);
        trees := trees + [tree];
      }
    }

    // Reading everything from the top ranges of a program the arena holds.
    method ReadProgram(topFunctions: Range, topStatements: Range, ghost fs: seq<Function>, ghost ss: seq<Stmt>)
      returns (functions: seq<Function>, statements: seq<Stmt>)
      requires Valid() && HoldsProgram(arena, topFunctions, topStatements, fs, ss)
      modifies this
      ensures Valid() && unsupported == old(unsupported)
      ensures functions == ViewFunctions(fs) && statements == ViewBody(ss)
    {
      hide Valid, HoldsFunctionList, HoldsStmts;
      functions := ReadFunctions(topFunctions, MarksOf(EMPTY_ARENA), fs);
      statements := ReadStatements(topStatements, MarksOf(EMPTY_ARENA), ss);
    }
  }

  lemma RefOf(a: Arena, m: Marks, ref: Ref, e: Option<Expr>)
    requires HoldsRef(a, m, ref, e)
    ensures if e.None? then ref == NO_REF else ref == Ref(ref.index, true) && ref.index < |a.exprs|
  {}

  lemma ParamOf(a: Arena, m: Marks, i: nat, p: Param)
    requires HoldsParam(a, m, i, p)
    ensures i < |a.params| && a.params[i].info == p.info && BindingAt(a, a.params[i].binding) == Some(p.binding)
    ensures ParamInBounds(a, a.params[i]) && HoldsRef(a, m, a.params[i].default, p.default)
  {
    if p.default.Some? { ExprParts(a, m, a.params[i].default.index, p.default.value); }
  }

  lemma FunctionParts(a: Arena, lo: Marks, i: nat, f: Function)
    requires HoldsFunction(a, lo, i, f)
    ensures i < |a.functions| && a.functions[i].info == f.info
    ensures var row, m := a.functions[i], lo.(functions := i + 1);
      && ParamsInBounds(a, row.params) && row.params.count == |f.params| && HoldsStmts(a, m, row.body, f.body)
      && forall k :: 0 <= k < |f.params| ==> HoldsParam(a, m, Slice(a.paramRefs, row.params)[k], f.params[k])
  {
    hide HoldsParam, HoldsStmts, ParamInBounds;
    var row, m := a.functions[i], lo.(functions := i + 1);
    var ix := Slice(a.paramRefs, row.params);
    forall k | 0 <= k < row.params.count ensures ix[k] < |a.params| && ParamInBounds(a, a.params[ix[k]]) { ParamOf(a, m, ix[k], f.params[k]); }
  }

  // Every parameter row of the range is there.
  predicate InTable(a: Arena, list: Range) {
    Fits(a.paramRefs, list) && forall k :: 0 <= k < list.count ==> Slice(a.paramRefs, list)[k] < |a.params|
  }

  // What the parameter rows of the range refer to is there as well.
  ghost predicate ParamsInBounds(a: Arena, list: Range) {
    InTable(a, list) && forall k :: 0 <= k < list.count ==> ParamInBounds(a, a.params[Slice(a.paramRefs, list)[k]])
  }

  ghost predicate ParamInBounds(a: Arena, row: ParamRow) {
    && (row.default.present ==> row.default.index < |a.exprs| && (a.exprs[row.default.index].binding.present ==> a.exprs[row.default.index].binding.index < |a.bindings|))
    && (row.binding.present ==> row.binding.index < |a.bindings|)
  }

  lemma ArmOf(a: Arena, lo: Marks, r: Range, arms: seq<Arm>, k: nat)
    requires HoldsArms(a, lo, r, arms) && k < r.count
    ensures k < |arms| && r.start + k < |a.armRefs| && HoldsArm(a, lo, a.armRefs[r.start + k], arms[k])
  {
    hide HoldsArm;
    assert HoldsArm(a, lo, Slice(a.armRefs, r)[k], arms[k]);
  }

  lemma ExprParts(a: Arena, lo: Marks, i: nat, e: Expr)
    requires HoldsExpr(a, lo, i, e)
    ensures i < |a.exprs| && a.exprs[i].info == e.info
    ensures var row, m := a.exprs[i], lo.(exprs := i + 1);
      && HoldsRef(a, m, row.left, e.left) && HoldsRef(a, m, row.right, e.right) && HoldsRef(a, m, row.operand, e.operand)
      && HoldsRef(a, m, row.base, e.base) && HoldsRef(a, m, row.receiver, e.receiver) && HoldsRef(a, m, row.callee, StoredCallee(e)) && (row.callee.present <==> StoredCallee(e).Some?)
      && HoldsExprs(a, m, row.args, e.args) && HoldsExprs(a, m, row.items, e.items)
      && HoldsExprs(a, m, row.keys, e.keys) && HoldsExprs(a, m, row.values, e.values)
      && BindingAt(a, row.binding) == StoredBinding(e) && (row.binding.present ==> row.binding.index < |a.bindings|)
  {
  }

  lemma ArmParts(a: Arena, lo: Marks, i: nat, arm: Arm)
    requires HoldsArm(a, lo, i, arm)
    ensures i < |a.arms|
    ensures var p := a.arms[i].pattern;
      && p.present && p.index < |a.patterns| && a.patterns[p.index].info == arm.pattern
      && var b := a.patterns[p.index].binding;
      && BindingAt(a, b) == arm.patternBinding && (b.present ==> b.index < |a.bindings|)
    ensures HoldsStmts(a, lo.(arms := i + 1), a.arms[i].body, arm.body)
  {
  }

  lemma StmtParts(a: Arena, lo: Marks, i: nat, s: Stmt)
    requires HoldsStmt(a, lo, i, s)
    ensures i < |a.stmts| && a.stmts[i].info == s.info
    ensures var row, m := a.stmts[i], lo.(stmts := i + 1);
      && HoldsEdges(a, m, row, s)
      && HoldsStmts(a, m, row.thenBody, s.thenBody) && HoldsStmts(a, m, row.elseBody, s.elseBody) && HoldsStmts(a, m, row.body, s.body)
      && HoldsArms(a, m, row.arms, s.arms)
      && BindingAt(a, row.binding) == s.binding && (row.binding.present ==> row.binding.index < |a.bindings|)
  {
  }
}
