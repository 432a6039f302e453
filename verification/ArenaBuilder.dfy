// Lowering the checked tree into the arena. A node's row is appended before its children's rows
// and its edges are patched in as the children return.
module ArenaBuilder {
  import opened Wrappers
  import opened Arena

  // ---- parameter rows -------------------------------------------------------------------------

  // Lowering `e` appends no parameter row: no lambda with parameters occurs in it.
  predicate Paramless(e: Expr)
    decreases e, 0
  {
    && (e.left.Some? ==> Paramless(e.left.value)) && (e.right.Some? ==> Paramless(e.right.value))
    && (e.operand.Some? ==> Paramless(e.operand.value)) && (e.base.Some? ==> Paramless(e.base.value))
    && (e.receiver.Some? ==> Paramless(e.receiver.value))
    && (StoredCallee(e).Some? ==> Paramless(e.callee.value))
    && AllParamless(e.args) && AllParamless(e.items) && AllParamless(e.keys) && AllParamless(e.values)
    && (e.kind.Lambda? ==> e.kind.fn.params == [] && ParamlessBody(e.kind.fn.body))
  }

  predicate AllParamless(es: seq<Expr>)
    decreases es, 1
  {
    forall x :: x in es ==> Paramless(x)
  }

  predicate ParamlessOption(e: Option<Expr>) { e.Some? ==> Paramless(e.value) }

  predicate ParamlessStmt(s: Stmt)
    decreases s, 0
  {
    && (s.init.Some? ==> Paramless(s.init.value)) && (s.expr.Some? ==> Paramless(s.expr.value))
    && (s.target.Some? ==> Paramless(s.target.value)) && (s.value.Some? ==> Paramless(s.value.value))
    && (s.cond.Some? ==> Paramless(s.cond.value)) && (s.iter.Some? ==> Paramless(s.iter.value))
    && (s.result.Some? ==> Paramless(s.result.value)) && (s.scrutinee.Some? ==> Paramless(s.scrutinee.value))
    && ParamlessBody(s.thenBody) && ParamlessBody(s.elseBody) && ParamlessBody(s.body)
    && forall arm :: arm in s.arms ==> ParamlessBody(arm.body)
  }

  predicate ParamlessBody(ss: seq<Stmt>)
    decreases ss, 1
  {
    forall s :: s in ss ==> ParamlessStmt(s)
  }

  // Every parameter default, at any depth, is free of lambdas with parameters.
  predicate Plain(e: Expr)
    decreases e, 0
  {
    && (e.left.Some? ==> Plain(e.left.value)) && (e.right.Some? ==> Plain(e.right.value))
    && (e.operand.Some? ==> Plain(e.operand.value)) && (e.base.Some? ==> Plain(e.base.value))
    && (e.receiver.Some? ==> Plain(e.receiver.value))
    && (StoredCallee(e).Some? ==> Plain(e.callee.value))
    && AllPlain(e.args) && AllPlain(e.items) && AllPlain(e.keys) && AllPlain(e.values)
    && (e.kind.Lambda? ==> PlainFunction(e.kind.fn))
  }

  predicate AllPlain(es: seq<Expr>)
    decreases es, 1
  {
    forall x :: x in es ==> Plain(x)
  }

  predicate PlainOption(e: Option<Expr>) { e.Some? ==> Plain(e.value) }

  predicate PlainStmt(s: Stmt)
    decreases s, 0
  {
    && (s.init.Some? ==> Plain(s.init.value)) && (s.expr.Some? ==> Plain(s.expr.value))
    && (s.target.Some? ==> Plain(s.target.value)) && (s.value.Some? ==> Plain(s.value.value))
    && (s.cond.Some? ==> Plain(s.cond.value)) && (s.iter.Some? ==> Plain(s.iter.value))
    && (s.result.Some? ==> Plain(s.result.value)) && (s.scrutinee.Some? ==> Plain(s.scrutinee.value))
    && PlainBody(s.thenBody) && PlainBody(s.elseBody) && PlainBody(s.body)
    && forall arm :: arm in s.arms ==> PlainBody(arm.body)
  }

  predicate PlainBody(ss: seq<Stmt>)
    decreases ss, 1
  {
    forall s :: s in ss ==> PlainStmt(s)
  }

  predicate PlainFunction(f: Function)
    decreases f, 0
  {
    && (forall p :: p in f.params && p.default.Some? ==> Paramless(p.default.value) && Plain(p.default.value))
    && PlainBody(f.body)
  }

  // ---- the builder ----------------------------------------------------------------------------

  class KirArenaBuilder {
    var arena: Arena
    var topFunctions: Range
    var topStatements: Range

    constructor ()
      ensures arena == EMPTY_ARENA
    {
      arena, topFunctions, topStatements := EMPTY_ARENA, NO_RANGE, NO_RANGE;
    }

    method AddExprRefs(indices: seq<nat>) returns (r: Range)
      modifies this`arena
      ensures Extends(old(arena), arena) && arena == old(arena).(exprRefs := old(arena).exprRefs + indices)
      ensures Fits(arena.exprRefs, r) && Slice(arena.exprRefs, r) == indices
    {
      r := Range(|arena.exprRefs|, |indices|);
      arena := arena.(exprRefs := arena.exprRefs + indices);
    }

    method AddStmtRefs(indices: seq<nat>) returns (r: Range)
      modifies this`arena
      ensures Extends(old(arena), arena) && arena == old(arena).(stmtRefs := old(arena).stmtRefs + indices)
      ensures Fits(arena.stmtRefs, r) && Slice(arena.stmtRefs, r) == indices
    {
      r := Range(|arena.stmtRefs|, |indices|);
      arena := arena.(stmtRefs := arena.stmtRefs + indices);
    }

    method AddParamRefs(indices: seq<nat>) returns (r: Range)
      modifies this`arena
      ensures Extends(old(arena), arena) && arena == old(arena).(paramRefs := old(arena).paramRefs + indices)
      ensures Fits(arena.paramRefs, r) && Slice(arena.paramRefs, r) == indices
    {
      r := Range(|arena.paramRefs|, |indices|);
      arena := arena.(paramRefs := arena.paramRefs + indices);
    }

    method AddCaptureRefs(indices: seq<nat>) returns (r: Range)
      modifies this`arena
      ensures Extends(old(arena), arena) && arena == old(arena).(captureRefs := old(arena).captureRefs + indices)
      ensures Fits(arena.captureRefs, r) && Slice(arena.captureRefs, r) == indices
    {
      r := Range(|arena.captureRefs|, |indices|);
      arena := arena.(captureRefs := arena.captureRefs + indices);
    }

    method AddArmRefs(indices: seq<nat>) returns (r: Range)
      modifies this`arena
      ensures Extends(old(arena), arena) && arena == old(arena).(armRefs := old(arena).armRefs + indices)
      ensures Fits(arena.armRefs, r) && Slice(arena.armRefs, r) == indices
    {
      r := Range(|arena.armRefs|, |indices|);
      arena := arena.(armRefs := arena.armRefs + indices);
    }

    method AddConstantRefs(indices: seq<nat>) returns (r: Range)
      modifies this`arena
      ensures Extends(old(arena), arena) && arena == old(arena).(constantRefs := old(arena).constantRefs + indices)
      ensures Fits(arena.constantRefs, r) && Slice(arena.constantRefs, r) == indices
    {
      r := Range(|arena.constantRefs|, |indices|);
      arena := arena.(constantRefs := arena.constantRefs + indices);
    }

    method Binding(b: Option<Info>) returns (ref: Ref)
      modifies this`arena
      ensures Extends(old(arena), arena) && arena == old(arena).(bindings := arena.bindings)
      ensures HoldsBinding(arena, ref, b)
    {
      match b
      case None => return NO_REF;
      case Some(info) =>
        ref := Ref(|arena.bindings|, true);
        arena := arena.(bindings := arena.bindings + [info]);
    }

    // ---- constants ----

    method NewConstant(row: ConstantRow) returns (i: nat)
      modifies this`arena
      ensures i == |old(arena).constants| && arena == old(arena).(constants := old(arena).constants + [row])
      ensures Extends(old(arena), arena)
    {
      i := |arena.constants|;
      arena := arena.(constants := arena.constants + [row]);
    }

    method PatchConstant(i: nat, row: ConstantRow)
      requires i < |arena.constants|
      modifies this`arena
      ensures arena == old(arena).(constants := old(arena).constants[i := row])
      ensures KeepsBut(old(arena), arena, ConstantHole(i))
    {
      arena := arena.(constants := arena.constants[i := row]);
    }

    method Value(v: Constant) returns (i: nat)
      modifies this`arena
      ensures Extends(old(arena), arena) && |arena.params| == |old(arena.params)|
      ensures HoldsConstant(arena, MarksOf(old(arena)), i, v)
      decreases v, 1
    {
      hide KeepsBut, KeepsFrom;
      ghost var a0 := arena;
      i := NewConstant(ConstantRow(v.info, NO_REF, NO_RANGE));
      ghost var a1, m := arena, MarksOf(arena);
      var inner := NO_REF;
      if v.inner.Some? {
        var index := Value(v.inner.value);
        inner := Ref(index, true);
      } else { ExtendsSelf(arena); }
      ghost var a2 := arena;
      var indices := Values(v.items);
      ghost var a3 := arena;
      var items := AddConstantRefs(indices);
      ghost var a4 := arena;
      KeepsTrans(a1, a2, a3, NoHole);
      KeepsTrans(a1, a3, a4, NoHole);
      ConstantKept(a1, a4, NoHole, i);
      Sizes(a1, a2, NoHole);
      PatchConstant(i, arena.constants[i].(inner := inner, items := items));
      KeepsTrans(a3, a4, arena, ConstantHole(i));
      KeepsTrans(a2, a3, arena, ConstantHole(i));
      KeepsTrans(a1, a4, arena, ConstantHole(i));
      KeepsFresh(a0, a1, arena, ConstantHole(i));
      KeepsToMarks(a2, arena, ConstantHole(i), m);
      KeepsToMarks(a3, arena, ConstantHole(i), m);
      KeptConstantRef(a2, m, arena, m, inner, v.inner);
      KeptConstantList(a3, MarksOf(a2), arena, m, indices, v.items);
    }

    method Values(vs: seq<Constant>) returns (ix: seq<nat>)
      modifies this`arena
      ensures Extends(old(arena), arena) && |arena.params| == |old(arena.params)|
      ensures HoldsConstantList(arena, MarksOf(old(arena)), ix, vs)
      decreases vs, 0
    {
      hide KeepsBut, KeepsFrom;
      ix := [];
      ghost var a0, lo := arena, MarksOf(arena);
      ExtendsSelf(arena);
      for k := 0 to |vs|
        invariant Extends(a0, arena) && |arena.params| == |a0.params|
        invariant HoldsConstantList(arena, lo, ix, vs[..k])
      {
        ghost var before := arena;
        var i := Value(vs[k]);
        KeepsToMarks(before, arena, NoHole, lo);
        KeepsToMarks(a0, before, NoHole, lo);
        KeptConstantList(before, lo, arena, lo, ix, vs[..k]);
        KeepsTrans(a0, before, arena, NoHole);
        KeptConstant(arena, MarksOf(before), arena, lo, i, vs[k]);
        ix := ix + [i];
      }
      assert vs[..|vs|] == vs;
    }

    // ---- expressions ----

    method NewExpr(row: ExprRow) returns (i: nat)
      modifies this`arena
      ensures i == |old(arena).exprs| && arena == old(arena).(exprs := old(arena).exprs + [row])
      ensures Extends(old(arena), arena)
    {
      i := |arena.exprs|;
      arena := arena.(exprs := arena.exprs + [row]);
    }

    method PatchExpr(i: nat, row: ExprRow)
      requires i < |arena.exprs|
      modifies this`arena
      ensures arena == old(arena).(exprs := old(arena).exprs[i := row])
      ensures KeepsBut(old(arena), arena, ExprHole(i)) && arena.exprs[i] == row
    {
      arena := arena.(exprs := arena.exprs[i := row]);
    }

    method Expression(e: Option<Expr>) returns (ref: Ref)
      modifies this`arena
      ensures Extends(old(arena), arena)
      ensures |arena.params| == |old(arena.params)| <==> ParamlessOption(e)
      ensures PlainOption(e) ==> HoldsRef(arena, MarksOf(old(arena)), ref, e)
      decreases e, 0
    {
      match e
      case None =>
        ExtendsSelf(arena);
        return NO_REF;
      case Some(x) =>
        var i := Node(x);
        return Ref(i, true);
    }

    // An edge of a node being filled in: whatever its earlier edges lead to is still there.
    method Edge(e: Option<Expr>, ghost from: Arena, ghost m: Marks, ghost plain: bool, ghost refs: seq<Ref>, ghost es: seq<Option<Expr>>) returns (ref: Ref)
      requires Extends(from, arena) && Below(m, MarksOf(arena))
      requires plain ==> PlainOption(e) && HoldsRefs(arena, m, refs, es)
      modifies this`arena
      ensures Extends(from, arena) && Extends(old(arena), arena) && Below(m, MarksOf(arena))
      ensures |old(arena.params)| <= |arena.params|
      ensures |arena.params| == |old(arena.params)| <==> ParamlessOption(e)
      ensures plain ==> HoldsRefs(arena, m, refs + [ref], es + [e])
      decreases e, 1
    {
      hide KeepsBut, KeepsFrom, HoldsRef;
      ghost var a0 := arena;
      ref := Expression(e);
      Sizes(a0, arena, NoHole);
      KeepsTrans(from, a0, arena, NoHole);
      if plain {
        KeepsToMarks(a0, arena, NoHole, m);
        KeptRefs(a0, m, arena, m, refs, es);
        ExtendsSelf(arena);
        KeepsToMarks(arena, arena, NoHole, m);
        KeptRef(arena, MarksOf(a0), arena, m, ref, e);
      }
    }

    method Node(x: Expr) returns (i: nat)
      modifies this`arena
      ensures Extends(old(arena), arena)
      ensures |arena.params| == |old(arena.params)| <==> Paramless(x)
      ensures Plain(x) ==> HoldsExpr(arena, MarksOf(old(arena)), i, x)
      decreases x, 3
    {
      hide KeepsBut, KeepsFrom, HoldsOperands, HoldsLists, HoldsAttachments;
      ghost var a0, plain := arena, Plain(x);
      i := NewExpr(ExprRow(x.info, NO_REF, NO_REF, NO_REF, NO_REF, NO_REF, NO_REF, NO_REF, NO_REF, NO_REF, NO_RANGE, NO_RANGE, NO_RANGE, NO_RANGE));
      ghost var a1, m := arena, MarksOf(arena);
      Operands(x, i, m, plain);
      ghost var a2 := arena;
      Sizes(a1, a2, ExprHole(i));
      Lists(x, i, m, plain);
      ghost var a3 := arena;
      Sizes(a2, a3, ExprHole(i));
      Attachments(x, i, m, plain);
      Sizes(a3, arena, ExprHole(i));
      KeepsTrans(a1, a2, a3, ExprHole(i));
      KeepsTrans(a1, a3, arena, ExprHole(i));
      KeepsTrans(a2, a3, arena, ExprHole(i));
      KeepsFresh(a0, a1, arena, ExprHole(i));
      if plain {
        KeepsToMarks(a2, arena, ExprHole(i), m);
        KeepsToMarks(a3, arena, ExprHole(i), m);
        KeptOperands(a2, m, arena, m, a2.exprs[i], x);
        KeptLists(a3, m, arena, m, a3.exprs[i], x);
        SameOperands(arena, m, a2.exprs[i], arena.exprs[i], x);
        SameLists(arena, m, a3.exprs[i], arena.exprs[i], x);
      }
    }

    method Operands(x: Expr, i: nat, ghost m: Marks, ghost plain: bool)
      requires i < |arena.exprs| && m.exprs == i + 1 && Below(m, MarksOf(arena))
      requires plain ==> Plain(x)
      modifies this`arena
      ensures KeepsBut(old(arena), arena, ExprHole(i)) && i < |arena.exprs|
      ensures var r := arena.exprs[i];
        old(arena.exprs[i]).(left := r.left, right := r.right, operand := r.operand, base := r.base, receiver := r.receiver, callee := r.callee) == r
      ensures |arena.params| == |old(arena.params)| <==>
        ParamlessOption(x.left) && ParamlessOption(x.right) && ParamlessOption(x.operand) && ParamlessOption(x.base)
        && ParamlessOption(x.receiver) && ParamlessOption(StoredCallee(x))
      ensures plain && old(arena.exprs[i].callee) == NO_REF ==> HoldsOperands(arena, m, arena.exprs[i], x)
      decreases x, 2
    {
      hide KeepsBut, KeepsFrom, HoldsRefs;
      ghost var a0 := arena;
      var left, right, operand, base, receiver := FiveEdges(x, m, plain);
      ghost var refs, es := [left, right, operand, base, receiver], [x.left, x.right, x.operand, x.base, x.receiver];
      ghost var a1 := arena;
      ExprKept(a0, a1, NoHole, i);
      PatchExpr(i, arena.exprs[i].(left := left, right := right, operand := operand, base := base, receiver := receiver));
      ghost var a2 := arena;
      KeepsTrans(a0, a1, a2, ExprHole(i));
      KeepsToMarks(a1, a2, ExprHole(i), m);
      if plain { KeptRefs(a1, m, a2, m, refs, es); }
      Callee(x, i, m, plain, refs, es);
      KeepsTrans(a0, a2, arena, ExprHole(i));
      Sizes(a2, arena, ExprHole(i));
    }

    method FiveEdges(x: Expr, ghost m: Marks, ghost plain: bool) returns (left: Ref, right: Ref, operand: Ref, base: Ref, receiver: Ref)
      requires Below(m, MarksOf(arena))
      requires plain ==> Plain(x)
      modifies this`arena
      ensures Extends(old(arena), arena) && Below(m, MarksOf(arena)) && |old(arena.params)| <= |arena.params|
      ensures |arena.params| == |old(arena.params)| <==>
        ParamlessOption(x.left) && ParamlessOption(x.right) && ParamlessOption(x.operand) && ParamlessOption(x.base) && ParamlessOption(x.receiver)
      ensures plain ==> HoldsRefs(arena, m, [left, right, operand, base, receiver], [x.left, x.right, x.operand, x.base, x.receiver])
      decreases x, 1
    {
      hide KeepsBut, KeepsFrom, HoldsRefs, ParamlessOption;
      ghost var a0 := arena;
      EmptyHolds(arena, m);
      ExtendsSelf(a0);
      ghost var refs: seq<Ref>, es: seq<Option<Expr>> := [], [];
      left := Edge(x.left, a0, m, plain, refs, es);
      refs, es := refs + [left], es + [x.left];
      right := Edge(x.right, a0, m, plain, refs, es);
      refs, es := refs + [right], es + [x.right];
      operand := Edge(x.operand, a0, m, plain, refs, es);
      refs, es := refs + [operand], es + [x.operand];
      base := Edge(x.base, a0, m, plain, refs, es);
      refs, es := refs + [base], es + [x.base];
      receiver := Edge(x.receiver, a0, m, plain, refs, es);
      assert refs + [receiver] == [left, right, operand, base, receiver];
      assert es + [x.receiver] == [x.left, x.right, x.operand, x.base, x.receiver];
    }

    // The callee edge, for an indirect call.
    method Callee(x: Expr, i: nat, ghost m: Marks, ghost plain: bool, ghost refs: seq<Ref>, ghost es: seq<Option<Expr>>)
      requires i < |arena.exprs| && m.exprs == i + 1 && Below(m, MarksOf(arena))
      requires plain ==> Plain(x) && HoldsRefs(arena, m, refs, es)
      requires var r := arena.exprs[i]; refs == [r.left, r.right, r.operand, r.base, r.receiver]
      requires es == [x.left, x.right, x.operand, x.base, x.receiver]
      modifies this`arena
      ensures KeepsBut(old(arena), arena, ExprHole(i)) && i < |arena.exprs|
      ensures arena.exprs[i] == old(arena.exprs[i]).(callee := arena.exprs[i].callee)
      ensures |arena.params| == |old(arena.params)| <==> ParamlessOption(StoredCallee(x))
      ensures plain && old(arena.exprs[i].callee) == NO_REF ==> HoldsOperands(arena, m, arena.exprs[i], x)
      decreases x, 1
    {
      hide KeepsBut, KeepsFrom, HoldsRefs;
      ghost var a0 := arena;
      if x.kind.Call? && !x.resolved && x.receiver.None? && x.callee.Some? {
        ExtendsSelf(a0);
        var callee := Edge(x.callee, a0, m, plain, refs, es);
        ghost var a1 := arena;
        ExprKept(a0, a1, NoHole, i);
        PatchExpr(i, arena.exprs[i].(callee := callee));
        KeepsTrans(a0, a1, arena, ExprHole(i));
        KeepsToMarks(a1, arena, ExprHole(i), m);
        if plain {
          KeptRefs(a1, m, arena, m, refs + [callee], es + [x.callee]);
          HeldOperands(arena, m, arena.exprs[i], x, refs + [callee], es + [x.callee]);
        }
      } else {
        ExtendsSelf(arena);
        KeepsTrans(a0, a0, a0, ExprHole(i));
        if plain && arena.exprs[i].callee == NO_REF { HeldOperands(arena, m, arena.exprs[i], x, refs, es); }
      }
    }

    method Lists(x: Expr, i: nat, ghost m: Marks, ghost plain: bool)
      requires i < |arena.exprs| && m.exprs == i + 1 && Below(m, MarksOf(arena))
      requires plain ==> Plain(x)
      modifies this`arena
      ensures KeepsBut(old(arena), arena, ExprHole(i)) && i < |arena.exprs|
      ensures var r := arena.exprs[i]; old(arena.exprs[i]).(args := r.args, items := r.items, keys := r.keys, values := r.values) == r
      ensures |arena.params| == |old(arena.params)| <==> AllParamless(x.args) && AllParamless(x.items) && AllParamless(x.keys) && AllParamless(x.values)
      ensures plain ==> HoldsLists(arena, m, arena.exprs[i], x)
      decreases x, 2
    {
      hide KeepsBut, KeepsFrom, HoldsExprListList, SlicesAre, HoldsLists, AllPlain, AllParamless;
      ghost var a0 := arena;
      EmptyHolds(arena, m);
      ghost var ixs: seq<seq<nat>>, ess: seq<seq<Expr>> := [], [];
      var args := EdgeList(x.args, m, plain, ixs, ess);
      ghost var a1 := arena;
      ixs, ess := ixs + [args], ess + [x.args];
      var items := EdgeList(x.items, m, plain, ixs, ess);
      ghost var a2 := arena;
      ixs, ess := ixs + [items], ess + [x.items];
      var keys := EdgeList(x.keys, m, plain, ixs, ess);
      ghost var a3 := arena;
      ixs, ess := ixs + [keys], ess + [x.keys];
      var values := EdgeList(x.values, m, plain, ixs, ess);
      ghost var a4 := arena;
      ixs, ess := ixs + [values], ess + [x.values];
      Sizes(a0, a1, NoHole); Sizes(a1, a2, NoHole); Sizes(a2, a3, NoHole); Sizes(a3, a4, NoHole);
      KeepsTrans(a0, a1, a2, NoHole);
      KeepsTrans(a0, a2, a3, NoHole);
      KeepsTrans(a0, a3, a4, NoHole);
      ExprKept(a0, a4, NoHole, i);
      FillLists(i, args, items, keys, values);
      KeepsTrans(a0, a4, arena, ExprHole(i));
      KeepsToMarks(a4, arena, ExprHole(i), m);
      Sizes(a4, arena, ExprHole(i));
      if plain {
        KeptExprListList(a4, m, arena, m, ixs, ess);
        assert ixs == [args, items, keys, values];
        HeldLists(arena, m, arena.exprs[i], x, ixs, ess);
      }
    }

    method FillLists(i: nat, args: seq<nat>, items: seq<nat>, keys: seq<nat>, values: seq<nat>)
      requires i < |arena.exprs|
      modifies this`arena
      ensures KeepsBut(old(arena), arena, ExprHole(i)) && i < |arena.exprs| && |arena.params| == |old(arena.params)|
      ensures var r := arena.exprs[i];
        && old(arena.exprs[i]).(args := r.args, items := r.items, keys := r.keys, values := r.values) == r
        && SlicesAre(arena, r, [args, items, keys, values])
    {
      hide KeepsBut, KeepsFrom, Fits, Slice;
      ghost var a0 := arena;
      var argsRange := AddExprRefs(args);
      var itemsRange := AddExprRefs(items);
      SliceStays(a0.exprRefs + args, items, argsRange);
      var keysRange := AddExprRefs(keys);
      ghost var two := a0.exprRefs + args + items;
      SliceStays(two, keys, argsRange);
      SliceStays(two, keys, itemsRange);
      var valuesRange := AddExprRefs(values);
      SliceStays(two + keys, values, argsRange);
      SliceStays(two + keys, values, itemsRange);
      SliceStays(two + keys, values, keysRange);
      ghost var a4 := arena;
      FourAppended(a0, a4, i);
      PatchExpr(i, arena.exprs[i].(args := argsRange, items := itemsRange, keys := keysRange, values := valuesRange));
      KeepsTrans(a0, a4, arena, ExprHole(i));
    }

    method EdgeList(es: seq<Expr>, ghost m: Marks, ghost plain: bool, ghost ixs: seq<seq<nat>>, ghost ess: seq<seq<Expr>>) returns (ix: seq<nat>)
      requires Below(m, MarksOf(arena))
      requires plain ==> AllPlain(es) && HoldsExprListList(arena, m, ixs, ess)
      modifies this`arena
      ensures Extends(old(arena), arena) && Below(m, MarksOf(arena))
      ensures |arena.params| == |old(arena.params)| <==> AllParamless(es)
      ensures plain ==> HoldsExprListList(arena, m, ixs + [ix], ess + [es])
      decreases es, 1
    {
      hide KeepsBut, KeepsFrom, HoldsExprList;
      ghost var a0 := arena;
      ix := Expressions(es);
      Sizes(a0, arena, NoHole);
      if plain {
        KeepsToMarks(a0, arena, NoHole, m);
        KeptExprListList(a0, m, arena, m, ixs, ess);
        ExtendsSelf(arena);
        KeepsToMarks(arena, arena, NoHole, m);
        KeptExprList(arena, MarksOf(a0), arena, m, ix, es);
      }
    }

    method Expressions(es: seq<Expr>) returns (ix: seq<nat>)
      modifies this`arena
      ensures Extends(old(arena), arena)
      ensures |arena.params| == |old(arena.params)| <==> AllParamless(es)
      ensures AllPlain(es) ==> HoldsExprList(arena, MarksOf(old(arena)), ix, es)
      decreases es, 0
    {
      hide KeepsBut, KeepsFrom, HoldsExpr, Paramless, Plain;
      ix := [];
      ghost var a0, lo := arena, MarksOf(arena);
      ExtendsSelf(arena);
      for k := 0 to |es|
        invariant Extends(a0, arena)
        invariant |arena.params| == |a0.params| <==> AllParamless(es[..k])
        invariant AllPlain(es[..k]) ==> HoldsExprList(arena, lo, ix, es[..k])
      {
        ghost var before := arena;
        var i := Node(es[k]);
        assert es[..k + 1] == es[..k] + [es[k]];
        Sizes(a0, before, NoHole); Sizes(before, arena, NoHole);
        KeepsTrans(a0, before, arena, NoHole);
        if AllPlain(es[..k + 1]) {
          KeepsToMarks(before, arena, NoHole, lo);
          KeptExprList(before, lo, arena, lo, ix, es[..k]);
          ExtendsSelf(arena);
          KeepsToMarks(arena, arena, NoHole, lo);
          KeptExpr(arena, MarksOf(before), arena, lo, i, es[k]);
        }
        ix := ix + [i];
      }
      assert es[..|es|] == es;
    }

    method Attachments(x: Expr, i: nat, ghost m: Marks, ghost plain: bool)
      requires i < |arena.exprs| && m.exprs == i + 1 && Below(m, MarksOf(arena))
      requires plain ==> Plain(x)
      modifies this`arena
      ensures KeepsBut(old(arena), arena, ExprHole(i)) && i < |arena.exprs|
      ensures var r := arena.exprs[i]; old(arena.exprs[i]).(lambda := r.lambda, folded := r.folded, binding := r.binding) == r
      ensures |arena.params| == |old(arena.params)| <==> (x.kind.Lambda? ==> x.kind.fn.params == [] && ParamlessBody(x.kind.fn.body))
      ensures var r := old(arena.exprs[i]); plain && r.lambda == r.folded == r.binding == NO_REF ==> HoldsAttachments(arena, m, arena.exprs[i], x)
      decreases x, 2
    {
      hide KeepsBut, KeepsFrom, HoldsFunction, HoldsConstant, ParamlessBody, PlainFunction;
      ghost var a0 := arena;
      ExtendsSelf(a0);
      KeepsTrans(a0, a0, a0, ExprHole(i));
      ghost var fn := a0;
      if x.kind.Lambda? {
        var index := Function(x.kind.fn);
        fn := arena;
        ExprKept(a0, fn, NoHole, i);
        PatchExpr(i, arena.exprs[i].(lambda := Ref(index, true)));
        KeepsTrans(a0, fn, arena, ExprHole(i));
        Sizes(a0, fn, NoHole);
        if plain {
          KeepsToMarks(fn, arena, ExprHole(i), m);
          KeptFunction(fn, MarksOf(a0), arena, m, index, x.kind.fn);
        }
      }
      ghost var a1 := arena;
      Sizes(a0, a1, ExprHole(i));
      AttachConstant(x, i, m);
      ghost var a2 := arena;
      KeepsTrans(a0, a1, a2, ExprHole(i));
      if x.kind.Var? && !x.resolved && x.definition.Some? {
        var ref := Binding(x.definition);
        ghost var a3 := arena;
        ExprKept(a2, a3, NoHole, i);
        PatchExpr(i, arena.exprs[i].(binding := ref));
        KeepsTrans(a2, a3, arena, ExprHole(i));
      } else {
        ExtendsSelf(arena);
        KeepsTrans(a2, a2, a2, ExprHole(i));
      }
      KeepsTrans(a0, a2, arena, ExprHole(i));
      KeepsTrans(a1, a2, arena, ExprHole(i));
      if plain && a0.exprs[i].folded == NO_REF {
        KeepsToMarks(a1, arena, ExprHole(i), m);
        KeepsToMarks(a2, arena, ExprHole(i), m);
        KeptConstantRef(a2, m, arena, m, a2.exprs[i].folded, x.folded);
        if x.kind.Lambda? { KeptFunction(a1, m, arena, m, a1.exprs[i].lambda.index, x.kind.fn); }
      }
    }

    method AttachConstant(x: Expr, i: nat, ghost m: Marks)
      requires i < |arena.exprs| && m.exprs == i + 1 && Below(m, MarksOf(arena))
      modifies this`arena
      ensures KeepsBut(old(arena), arena, ExprHole(i)) && i < |arena.exprs| && Below(m, MarksOf(arena))
      ensures arena.exprs[i] == old(arena.exprs[i]).(folded := arena.exprs[i].folded) && |arena.params| == |old(arena.params)|
      ensures old(arena.exprs[i].folded) == NO_REF ==> HoldsConstantRef(arena, m, arena.exprs[i].folded, x.folded)
    {
      hide KeepsBut, KeepsFrom, HoldsConstant;
      ghost var a0 := arena;
      ExtendsSelf(a0);
      KeepsTrans(a0, a0, a0, ExprHole(i));
      if x.folded.Some? {
        var index := Value(x.folded.value);
        ghost var a1 := arena;
        ExprKept(a0, a1, NoHole, i);
        Sizes(a0, a1, NoHole);
        PatchExpr(i, arena.exprs[i].(folded := Ref(index, true)));
        KeepsTrans(a0, a1, arena, ExprHole(i));
        KeepsToMarks(a1, arena, ExprHole(i), m);
        KeptConstant(a1, MarksOf(a0), arena, m, index, x.folded.value);
      }
    }

    // ---- functions ----

    method NewFunction(row: FunctionRow) returns (i: nat)
      modifies this`arena
      ensures i == |old(arena).functions| && arena == old(arena).(functions := old(arena).functions + [row])
      ensures Extends(old(arena), arena)
    {
      i := |arena.functions|;
      arena := arena.(functions := arena.functions + [row]);
    }

    method NewParam(row: ParamRow)
      modifies this`arena
      ensures arena == old(arena).(params := old(arena).params + [row])
      ensures Extends(old(arena), arena)
    {
      arena := arena.(params := arena.params + [row]);
    }

    method Function(f: Function) returns (i: nat)
      modifies this`arena
      ensures Extends(old(arena), arena)
      ensures |arena.params| == |old(arena.params)| <==> f.params == [] && ParamlessBody(f.body)
      ensures PlainFunction(f) ==> HoldsFunction(arena, MarksOf(old(arena)), i, f)
      decreases f, 1
    {
      hide KeepsBut, KeepsFrom, HoldsParamList, HoldsStmtList, HoldsCaptureList, PlainParams, PlainBody, ParamlessBody;
      ghost var a0 := arena;
      i := NewFunction(FunctionRow(f.info, NO_RANGE, NO_RANGE, NO_RANGE));
      ghost var a1, m := arena, MarksOf(arena);
      var params, _ := Params(f.params);
      ghost var a2 := arena;
      Sizes(a1, a2, NoHole);
      var body := Statements(f.body);
      ghost var a3 := arena;
      Sizes(a2, a3, NoHole);
      var captures := Captures(f.captures);
      ghost var a4 := arena;
      KeepsTrans(a1, a2, a3, NoHole);
      KeepsTrans(a1, a3, a4, NoHole);
      FunctionKept(a1, a4, NoHole, i);
      FillFunction(i, params, body, captures);
      KeepsTrans(a1, a4, arena, FunctionHole(i));
      KeepsFresh(a0, a1, arena, FunctionHole(i));
      KeepsTrans(a3, a4, arena, FunctionHole(i));
      KeepsTrans(a2, a3, arena, FunctionHole(i));
      if PlainFunction(f) {
        PlainFunctionParts(f);
        KeepsToMarks(a2, arena, FunctionHole(i), m);
        KeepsToMarks(a3, arena, FunctionHole(i), m);
        KeptParamList(a2, MarksOf(a1), arena, m, params, f.params);
        KeptStmtList(a3, MarksOf(a2), arena, m, body, f.body);
        KeepsToMarks(a4, arena, FunctionHole(i), m);
        KeptCaptures(a4, arena, m, captures, f.captures);
      }
    }

    method FillFunction(i: nat, params: seq<nat>, body: seq<nat>, captures: seq<nat>)
      requires i < |arena.functions|
      modifies this`arena
      ensures KeepsBut(old(arena), arena, FunctionHole(i)) && i < |arena.functions| && |arena.params| == |old(arena.params)|
      ensures var r := arena.functions[i];
        && r.info == old(arena.functions[i].info)
        && Fits(arena.stmtRefs, r.body) && Slice(arena.stmtRefs, r.body) == body
        && Fits(arena.paramRefs, r.params) && Slice(arena.paramRefs, r.params) == params
        && Fits(arena.captureRefs, r.captures) && Slice(arena.captureRefs, r.captures) == captures
    {
      var bodyRange := AddStmtRefs(body);
      var paramsRange := AddParamRefs(params);
      var capturesRange := AddCaptureRefs(captures);
      arena := arena.(functions := arena.functions[i := arena.functions[i].(body := bodyRange, params := paramsRange, captures := capturesRange)]);
    }

    // The recorded row index of a parameter is the length of the table before the default is
    // lowered, the row itself goes where the table ends afterwards (`rows`): the two agree
    // exactly for the parameters whose default appends no parameter row.
    method Params(ps: seq<Param>) returns (ix: seq<nat>, ghost rows: seq<nat>)
      modifies this`arena
      ensures Extends(old(arena), arena)
      ensures |arena.params| == |old(arena.params)| <==> ps == []
      ensures |ix| == |rows| == |ps|
      ensures forall k :: 0 <= k < |ps| ==> rows[k] < |arena.params| && arena.params[rows[k]].info == ps[k].info
      ensures forall k :: 0 <= k < |ps| ==> (ix[k] == rows[k] <==> ParamlessOption(ps[k].default))
      ensures PlainParams(ps) ==> HoldsParamList(arena, MarksOf(old(arena)), ix, ps)
      decreases ps, 0
    {
      hide KeepsBut, KeepsFrom, HoldsParam, HoldsParamList, PlainParams, ParamlessOption;
      ix, rows := [], [];
      ghost var a0, lo := arena, MarksOf(arena);
      ExtendsSelf(arena);
      NoParams(arena, lo);
      for k := 0 to |ps|
        invariant Extends(a0, arena) && |ix| == |rows| == k
        invariant |arena.params| == |a0.params| <==> k == 0
        invariant |arena.params| >= |a0.params|
        invariant forall j :: 0 <= j < k ==> rows[j] < |arena.params| && arena.params[rows[j]].info == ps[j].info
        invariant forall j :: 0 <= j < k ==> (ix[j] == rows[j] <==> ParamlessOption(ps[j].default))
        invariant PlainParams(ps) ==> HoldsParamList(arena, lo, ix, ps[..k])
      {
        ghost var before := arena;
        ghost var row;
        var index;
        assert ps[k] in ps;
        index, row := OneParam(ps[k]);
        ParamsKept(before, arena, NoHole);
        KeepsTrans(a0, before, arena, NoHole);
        if PlainParams(ps) {
          OnePlain(ps, k);
          KeepsToMarks(before, arena, NoHole, lo);
          Sizes(a0, before, NoHole);
          KeptParamList(before, lo, arena, lo, ix, ps[..k]);
          MoreParams(arena, MarksOf(before), lo, ix, ps[..k], index, ps[k]);
          assert ps[..k] + [ps[k]] == ps[..k + 1];
        }
        ix, rows := ix + [index], rows + [row];
      }
      assert ps[..|ps|] == ps;
    }

    // One parameter: its index is taken first, its default lowered, its row appended.
    method OneParam(p: Param) returns (index: nat, ghost row: nat)
      modifies this`arena
      ensures Extends(old(arena), arena) && |arena.params| > |old(arena.params)|
      ensures row < |arena.params| && arena.params[row].info == p.info
      ensures index == row <==> ParamlessOption(p.default)
      ensures PlainParams([p]) ==> HoldsParam(arena, MarksOf(old(arena)), index, p)
      decreases p, 0
    {
      hide KeepsBut, KeepsFrom, HoldsRef, Paramless, Plain;
      ghost var before := arena;
      index := |arena.params|;
      var default := Expression(p.default);
      ghost var a1 := arena;
      Sizes(before, a1, NoHole);
      ParamsKept(before, a1, NoHole);
      var binding := Binding(Some(p.binding));
      ghost var a2 := arena;
      NewParam(ParamRow(p.info, default, binding));
      row := |arena.params| - 1;
      KeepsTrans(a1, a2, arena, NoHole);
      KeepsTrans(before, a1, arena, NoHole);
      if PlainParams([p]) {
        assert p in [p];
        KeepsToMarks(a1, arena, NoHole, MarksOf(before));
        KeptRef(a1, MarksOf(before), arena, MarksOf(before), default, p.default);
      }
    }

    method Captures(cs: seq<Info>) returns (ix: seq<nat>)
      modifies this`arena
      ensures Extends(old(arena), arena) && |arena.params| == |old(arena.params)|
      ensures HoldsCaptureList(arena, ix, cs)
    {
      ix := [];
      ghost var a0 := arena;
      for k := 0 to |cs|
        invariant Extends(a0, arena) && |arena.params| == |a0.params|
        invariant HoldsCaptureList(arena, ix, cs[..k])
      {
        var binding := Binding(Some(cs[k]));
        ix := ix + [|arena.captures|];
        arena := arena.(captures := arena.captures + [binding]);
      }
      assert cs[..|cs|] == cs;
    }

    // ---- the program ----

    method AddFunctionRefs(indices: seq<nat>) returns (r: Range)
      modifies this`arena
      ensures Extends(old(arena), arena) && arena == old(arena).(functionRefs := old(arena).functionRefs + indices)
      ensures Fits(arena.functionRefs, r) && Slice(arena.functionRefs, r) == indices
    {
      r := Range(|arena.functionRefs|, |indices|);
      arena := arena.(functionRefs := arena.functionRefs + indices);
    }

    // Building a checked program from an empty arena stores exactly that program.
    method Program(fs: seq<Function>, ss: seq<Stmt>)
      requires arena == EMPTY_ARENA
      modifies this
      ensures (forall f :: f in fs ==> PlainFunction(f)) && PlainBody(ss) ==> HoldsProgram(arena, topFunctions, topStatements, fs, ss)
    {
      hide *;
      var ix := Functions(fs);
      ghost var a1 := arena;
      topFunctions := AddFunctionRefs(ix);
      ghost var a2 := arena;
      var body := Statements(ss);
      ghost var a3 := arena;
      topStatements := AddStmtRefs(body);
      if (forall f :: f in fs ==> PlainFunction(f)) && PlainBody(ss) {
        ProgramHeld(a1, a2, a3, arena, ix, body, topFunctions, topStatements, fs, ss);
      }
    }

    method Functions(fs: seq<Function>) returns (ix: seq<nat>)
      modifies this`arena
      ensures Extends(old(arena), arena)
      ensures (forall f :: f in fs ==> PlainFunction(f)) ==> HoldsFunctionList(arena, MarksOf(old(arena)), ix, fs)
    {
      hide KeepsBut, KeepsFrom, HoldsFunction, PlainFunction;
      ix := [];
      ghost var a0, lo := arena, MarksOf(arena);
      ghost var plain := forall f :: f in fs ==> PlainFunction(f);
      ExtendsSelf(arena);
      for k := 0 to |fs|
        invariant Extends(a0, arena)
        invariant plain ==> HoldsFunctionList(arena, lo, ix, fs[..k])
      {
        ghost var before := arena;
        var i := Function(fs[k]);
        Sizes(a0, before, NoHole);
        KeepsTrans(a0, before, arena, NoHole);
        if plain {
          assert fs[k] in fs;
          KeepsToMarks(before, arena, NoHole, lo);
          KeptFunctionList(before, lo, arena, lo, ix, fs[..k]);
          ExtendsSelf(arena);
          KeepsToMarks(arena, arena, NoHole, lo);
          KeptFunction(arena, MarksOf(before), arena, lo, i, fs[k]);
        }
        ix := ix + [i];
      }
      assert fs[..|fs|] == fs;
    }

    // ---- statements ----

    method NewStmt(row: StmtRow) returns (i: nat)
      modifies this`arena
      ensures i == |old(arena).stmts| && arena == old(arena).(stmts := old(arena).stmts + [row])
      ensures Extends(old(arena), arena)
    {
      i := |arena.stmts|;
      arena := arena.(stmts := arena.stmts + [row]);
    }

    method PatchStmt(i: nat, row: StmtRow)
      requires i < |arena.stmts|
      modifies this`arena
      ensures arena == old(arena).(stmts := old(arena).stmts[i := row])
      ensures KeepsBut(old(arena), arena, StmtHole(i)) && arena.stmts[i] == row
    {
      arena := arena.(stmts := arena.stmts[i := row]);
    }

    method Statements(ss: seq<Stmt>) returns (ix: seq<nat>)
      modifies this`arena
      ensures Extends(old(arena), arena)
      ensures |arena.params| == |old(arena.params)| <==> ParamlessBody(ss)
      ensures PlainBody(ss) ==> HoldsStmtList(arena, MarksOf(old(arena)), ix, ss)
      decreases ss, 0
    {
      hide KeepsBut, KeepsFrom, HoldsStmt;
      ix := [];
      ghost var a0, lo := arena, MarksOf(arena);
      ExtendsSelf(arena);
      for k := 0 to |ss|
        invariant Extends(a0, arena) && |a0.params| <= |arena.params|
        invariant |arena.params| == |a0.params| <==> ParamlessBody(ss[..k])
        invariant PlainBody(ss) ==> HoldsStmtList(arena, lo, ix, ss[..k])
      {
        ghost var before := arena;
        var i := Statement(ss[k]);
        assert ss[..k + 1] == ss[..k] + [ss[k]];
        Sizes(a0, before, NoHole); Sizes(before, arena, NoHole);
        KeepsTrans(a0, before, arena, NoHole);
        if PlainBody(ss) {
          assert ss[k] in ss;
          KeepsToMarks(before, arena, NoHole, lo);
          KeptStmtList(before, lo, arena, lo, ix, ss[..k]);
          ExtendsSelf(arena);
          KeepsToMarks(arena, arena, NoHole, lo);
          KeptStmt(arena, MarksOf(before), arena, lo, i, ss[k]);
        }
        ix := ix + [i];
      }
      assert ss[..|ss|] == ss;
    }

    method Statement(s: Stmt) returns (i: nat)
      modifies this`arena
      ensures Extends(old(arena), arena)
      ensures |arena.params| == |old(arena.params)| <==> ParamlessStmt(s)
      ensures PlainStmt(s) ==> HoldsStmt(arena, MarksOf(old(arena)), i, s)
      decreases s, 4
    {
      hide KeepsBut, KeepsFrom, HoldsRefs, HoldsBodies, HoldsEdges, ParamlessBody, PlainBody, HoldsArms, HoldsBinding, Paramless, Plain;
      ghost var a0, plain := arena, PlainStmt(s);
      i := NewStmt(StmtRow(s.info, NO_REF, NO_REF, NO_REF, NO_REF, NO_REF, NO_REF, NO_REF, NO_REF, NO_REF, NO_RANGE, NO_RANGE, NO_RANGE, NO_RANGE));
      ghost var a1, m := arena, MarksOf(arena);
      BindStmt(s, i);
      ghost var a2 := arena;
      Sizes(a1, a2, StmtHole(i));
      Edges(s, i, m, plain);
      ghost var a3 := arena;
      Sizes(a2, a3, StmtHole(i));
      Bodies(s, i, m, plain);
      Sizes(a3, arena, StmtHole(i));
      KeepsTrans(a1, a2, a3, StmtHole(i));
      KeepsTrans(a1, a3, arena, StmtHole(i));
      KeepsTrans(a2, a3, arena, StmtHole(i));
      KeepsFresh(a0, a1, arena, StmtHole(i));
      BindingKept(a2, arena, StmtHole(i), arena.stmts[i].binding, s.binding);
      if plain {
        KeepsToMarks(a3, arena, StmtHole(i), m);
        KeptEdges(a3, m, arena, m, a3.stmts[i], s);
        SameEdges(arena, m, a3.stmts[i], arena.stmts[i], s);
      }
    }

    method BindStmt(s: Stmt, i: nat)
      requires i < |arena.stmts|
      modifies this`arena
      ensures KeepsBut(old(arena), arena, StmtHole(i)) && i < |arena.stmts| && |arena.params| == |old(arena.params)|
      ensures arena.stmts[i] == old(arena.stmts[i]).(binding := arena.stmts[i].binding)
      ensures HoldsBinding(arena, arena.stmts[i].binding, s.binding)
    {
      var ref := Binding(s.binding);
      PatchStmt(i, arena.stmts[i].(binding := ref));
    }

    // One of the statement's expression edges: lower the child, then write the edge.
    method StmtEdge(e: Option<Expr>, edge: EdgeName, i: nat, ghost from: Arena, ghost m: Marks, ghost plain: bool, ghost refs: seq<Ref>, ghost es: seq<Option<Expr>>) returns (ref: Ref)
      requires i < |arena.stmts| && m.stmts == i + 1 && Below(m, MarksOf(arena)) && KeepsBut(from, arena, StmtHole(i))
      requires plain ==> PlainOption(e) && HoldsRefs(arena, m, refs, es)
      modifies this`arena
      ensures KeepsBut(from, arena, StmtHole(i)) && i < |arena.stmts| && Below(m, MarksOf(arena))
      ensures arena.stmts[i] == WithEdge(old(arena.stmts[i]), edge, ref)
      ensures |old(arena.params)| <= |arena.params|
      ensures |arena.params| == |old(arena.params)| <==> ParamlessOption(e)
      ensures plain ==> HoldsRefs(arena, m, refs + [ref], es + [e])
      decreases e, 2
    {
      hide KeepsBut, KeepsFrom, HoldsRefs, Paramless, Plain;
      ghost var a0 := arena;
      ExtendsSelf(a0);
      ref := Edge(e, a0, m, plain, refs, es);
      ghost var a1 := arena;
      StmtKept(a0, a1, NoHole, i);
      PatchStmt(i, WithEdge(arena.stmts[i], edge, ref));
      KeepsTrans(from, a0, a1, StmtHole(i));
      KeepsTrans(from, a1, arena, StmtHole(i));
      KeepsToMarks(a1, arena, StmtHole(i), m);
      if plain { KeptRefs(a1, m, arena, m, refs + [ref], es + [e]); }
    }

    method Edges(s: Stmt, i: nat, ghost m: Marks, ghost plain: bool)
      requires i < |arena.stmts| && m.stmts == i + 1 && Below(m, MarksOf(arena))
      requires plain ==> PlainStmt(s)
      modifies this`arena
      ensures KeepsBut(old(arena), arena, StmtHole(i)) && i < |arena.stmts| && Below(m, MarksOf(arena))
      ensures var r := arena.stmts[i];
        r == old(arena.stmts[i]).(init := r.init, expr := r.expr, target := r.target, value := r.value, cond := r.cond, iter := r.iter, result := r.result, scrutinee := r.scrutinee)
      ensures |arena.params| == |old(arena.params)| <==>
        ParamlessOption(s.init) && ParamlessOption(s.expr) && ParamlessOption(s.target) && ParamlessOption(s.value)
        && ParamlessOption(s.cond) && ParamlessOption(s.iter) && ParamlessOption(s.result) && ParamlessOption(s.scrutinee)
      ensures plain ==> HoldsEdges(arena, m, arena.stmts[i], s)
      decreases s, 3
    {
      hide KeepsBut, KeepsFrom, HoldsRefs, ParamlessOption, PlainOption, PlainStmt, HoldsEdges, Below;
      ghost var a0 := arena;
      if plain { PlainEdges(s); }
      EmptyHolds(arena, m);
      ExtendsSelf(a0);
      KeepsTrans(a0, a0, a0, StmtHole(i));
      var refs, es := FourEdges(s, [], [], s.init, s.expr, s.target, s.value, InitEdge, ExprEdge, TargetEdge, ValueEdge, i, a0, m, plain);
      refs, es := FourEdges(s, refs, es, s.cond, s.iter, s.result, s.scrutinee, CondEdge, IterEdge, ResultEdge, ScrutineeEdge, i, a0, m, plain);
      if plain { HeldEdges(arena, m, arena.stmts[i], s, refs, es); }
    }

    method FourEdges(ghost s: Stmt, ghost refs: seq<Ref>, ghost es: seq<Option<Expr>>, e0: Option<Expr>, e1: Option<Expr>, e2: Option<Expr>, e3: Option<Expr>,
        n0: EdgeName, n1: EdgeName, n2: EdgeName, n3: EdgeName, i: nat, ghost from: Arena, ghost m: Marks, ghost plain: bool)
      returns (ghost refs': seq<Ref>, ghost es': seq<Option<Expr>>)
      requires || (e0 == s.init && e1 == s.expr && e2 == s.target && e3 == s.value)
               || (e0 == s.cond && e1 == s.iter && e2 == s.result && e3 == s.scrutinee)
      requires i < |arena.stmts| && m.stmts == i + 1 && Below(m, MarksOf(arena)) && KeepsBut(from, arena, StmtHole(i))
      requires plain ==> PlainOption(e0) && PlainOption(e1) && PlainOption(e2) && PlainOption(e3) && HoldsRefs(arena, m, refs, es)
      modifies this`arena
      ensures KeepsBut(from, arena, StmtHole(i)) && i < |arena.stmts| && Below(m, MarksOf(arena))
      ensures |refs'| == |refs| + 4 && refs' == refs + [refs'[|refs|], refs'[|refs| + 1], refs'[|refs| + 2], refs'[|refs| + 3]]
      ensures es' == es + [e0, e1, e2, e3]
      ensures var k := |refs|;
        arena.stmts[i] == WithEdge(WithEdge(WithEdge(WithEdge(old(arena.stmts[i]), n0, refs'[k]), n1, refs'[k + 1]), n2, refs'[k + 2]), n3, refs'[k + 3])
      ensures |old(arena.params)| <= |arena.params|
      ensures |arena.params| == |old(arena.params)| <==> ParamlessOption(e0) && ParamlessOption(e1) && ParamlessOption(e2) && ParamlessOption(e3)
      ensures plain ==> HoldsRefs(arena, m, refs', es')
      decreases s, 2
    {
      hide KeepsBut, KeepsFrom, HoldsRefs, ParamlessOption, PlainOption, WithEdge;
      refs', es' := refs, es;
      var r0 := StmtEdge(e0, n0, i, from, m, plain, refs', es');
      refs', es' := refs' + [r0], es' + [e0];
      var r1 := StmtEdge(e1, n1, i, from, m, plain, refs', es');
      refs', es' := refs' + [r1], es' + [e1];
      var r2 := StmtEdge(e2, n2, i, from, m, plain, refs', es');
      refs', es' := refs' + [r2], es' + [e2];
      var r3 := StmtEdge(e3, n3, i, from, m, plain, refs', es');
      refs', es' := refs' + [r3], es' + [e3];
      assert refs' == refs + [r0, r1, r2, r3];
    }

    // A nested block of the statement: lower it, append its references, then write the range.
    method BodyEdge(body: seq<Stmt>, edge: BodyName, i: nat, ghost from: Arena, ghost m: Marks, ghost plain: bool, ghost rs: seq<Range>, ghost bodies: seq<seq<Stmt>>) returns (r: Range)
      requires i < |arena.stmts| && m.stmts == i + 1 && Below(m, MarksOf(arena)) && KeepsBut(from, arena, StmtHole(i))
      requires plain ==> PlainBody(body) && HoldsStmtRanges(arena, m, rs, bodies)
      modifies this`arena
      ensures KeepsBut(from, arena, StmtHole(i)) && i < |arena.stmts| && Below(m, MarksOf(arena))
      ensures arena.stmts[i] == WithBody(old(arena.stmts[i]), edge, r)
      ensures |old(arena.params)| <= |arena.params|
      ensures |arena.params| == |old(arena.params)| <==> ParamlessBody(body)
      ensures plain ==> HoldsStmtRanges(arena, m, rs + [r], bodies + [body])
      decreases body, 1
    {
      hide KeepsBut, KeepsFrom, ParamlessBody, PlainBody, HoldsStmtList;
      ghost var a0 := arena;
      var ix := Statements(body);
      ghost var a1 := arena;
      r := AddStmtRefs(ix);
      ghost var a2 := arena;
      Sizes(a0, a1, NoHole);
      KeepsTrans(a0, a1, a2, NoHole);
      StmtKept(a0, a2, NoHole, i);
      PatchStmt(i, WithBody(arena.stmts[i], edge, r));
      KeepsTrans(from, a0, a2, StmtHole(i));
      KeepsTrans(from, a2, arena, StmtHole(i));
      KeepsTrans(a1, a2, arena, StmtHole(i));
      KeepsTrans(a0, a2, arena, StmtHole(i));
      if plain {
        KeepsToMarks(a0, arena, StmtHole(i), m);
        KeepsToMarks(a1, arena, StmtHole(i), m);
        KeptStmtRanges(a0, m, arena, m, rs, bodies);
        KeptStmtList(a1, MarksOf(a0), arena, m, ix, body);
      }
    }

    method Bodies(s: Stmt, i: nat, ghost m: Marks, ghost plain: bool)
      requires i < |arena.stmts| && m.stmts == i + 1 && Below(m, MarksOf(arena))
      requires plain ==> PlainStmt(s)
      modifies this`arena
      ensures KeepsBut(old(arena), arena, StmtHole(i)) && i < |arena.stmts| && Below(m, MarksOf(arena))
      ensures var r := arena.stmts[i]; r == old(arena.stmts[i]).(thenBody := r.thenBody, elseBody := r.elseBody, body := r.body, arms := r.arms)
      ensures |arena.params| == |old(arena.params)| <==>
        ParamlessBody(s.thenBody) && ParamlessBody(s.elseBody) && ParamlessBody(s.body) && (forall arm :: arm in s.arms ==> ParamlessBody(arm.body))
      ensures plain ==> HoldsBodies(arena, m, arena.stmts[i], s)
      decreases s, 3
    {
      hide KeepsBut, KeepsFrom, HoldsStmtRanges, HoldsArmList, ParamlessBody, PlainBody, Plain;
      ghost var a0 := arena;
      NoRanges(arena, m);
      ExtendsSelf(a0);
      KeepsTrans(a0, a0, a0, StmtHole(i));
      ghost var rs: seq<Range>, bodies: seq<seq<Stmt>> := [], [];
      var r0 := BodyEdge(s.thenBody, ThenBody, i, a0, m, plain, rs, bodies);
      rs, bodies := rs + [r0], bodies + [s.thenBody];
      var r1 := BodyEdge(s.elseBody, ElseBody, i, a0, m, plain, rs, bodies);
      rs, bodies := rs + [r1], bodies + [s.elseBody];
      var r2 := BodyEdge(s.body, LoopBody, i, a0, m, plain, rs, bodies);
      rs, bodies := rs + [r2], bodies + [s.body];
      ghost var a1 := arena;
      var ix := Arms(s.arms);
      ghost var a2 := arena;
      Sizes(a1, a2, NoHole);
      var arms := AddArmRefs(ix);
      ghost var a3 := arena;
      KeepsTrans(a1, a2, a3, NoHole);
      StmtKept(a1, a3, NoHole, i);
      PatchStmt(i, arena.stmts[i].(arms := arms));
      KeepsTrans(a0, a1, a3, StmtHole(i));
      KeepsTrans(a0, a3, arena, StmtHole(i));
      KeepsTrans(a1, a3, arena, StmtHole(i));
      KeepsTrans(a2, a3, arena, StmtHole(i));
      if plain {
        KeepsToMarks(a1, arena, StmtHole(i), m);
        KeepsToMarks(a2, arena, StmtHole(i), m);
        KeptStmtRanges(a1, m, arena, m, rs, bodies);
        KeptArmList(a2, MarksOf(a1), arena, m, ix, s.arms);
        assert rs == [r0, r1, r2] && bodies == [s.thenBody, s.elseBody, s.body];
        HeldBodies(arena, m, arena.stmts[i], s, rs, bodies);
      }
    }

    method Arms(arms: seq<Arm>) returns (ix: seq<nat>)
      modifies this`arena
      ensures Extends(old(arena), arena)
      ensures |arena.params| == |old(arena.params)| <==> forall arm :: arm in arms ==> ParamlessBody(arm.body)
      ensures (forall arm :: arm in arms ==> PlainBody(arm.body)) ==> HoldsArmList(arena, MarksOf(old(arena)), ix, arms)
      decreases arms, 0
    {
      hide KeepsBut, KeepsFrom, HoldsArm, ParamlessBody, PlainBody;
      ix := [];
      ghost var a0, lo := arena, MarksOf(arena);
      ghost var plain := forall arm :: arm in arms ==> PlainBody(arm.body);
      ExtendsSelf(arena);
      for k := 0 to |arms|
        invariant Extends(a0, arena) && |a0.params| <= |arena.params|
        invariant |arena.params| == |a0.params| <==> forall arm :: arm in arms[..k] ==> ParamlessBody(arm.body)
        invariant plain ==> HoldsArmList(arena, lo, ix, arms[..k])
      {
        ghost var before := arena;
        assert arms[..k + 1] == arms[..k] + [arms[k]] && arms[k] in arms;
        var i := MatchArm(arms[k]);
        Sizes(a0, before, NoHole); Sizes(before, arena, NoHole);
        KeepsTrans(a0, before, arena, NoHole);
        if plain {
          KeepsToMarks(before, arena, NoHole, lo);
          KeptArmList(before, lo, arena, lo, ix, arms[..k]);
          ExtendsSelf(arena);
          KeepsToMarks(arena, arena, NoHole, lo);
          KeptArm(arena, MarksOf(before), arena, lo, i, arms[k]);
        }
        ix := ix + [i];
      }
      assert arms[..|arms|] == arms;
    }

    // The arm's row is reserved before its pattern and body are lowered and written afterwards.
    method MatchArm(arm: Arm) returns (i: nat)
      modifies this`arena
      ensures Extends(old(arena), arena)
      ensures |arena.params| == |old(arena.params)| <==> ParamlessBody(arm.body)
      ensures PlainBody(arm.body) ==> HoldsArm(arena, MarksOf(old(arena)), i, arm)
      decreases arm, 1
    {
      hide KeepsBut, KeepsFrom, HoldsStmtList, ParamlessBody, PlainBody, HoldsPattern;
      ghost var a0 := arena;
      i := ReserveArm();
      ghost var a1, m := arena, MarksOf(arena);
      var pattern := Pattern(arm);
      ghost var a2 := arena;
      Sizes(a1, a2, NoHole);
      var body := Statements(arm.body);
      ghost var a3 := arena;
      Sizes(a2, a3, NoHole);
      var r := AddStmtRefs(body);
      ghost var a4 := arena;
      KeepsTrans(a2, a3, a4, NoHole);
      KeepsTrans(a1, a2, a4, NoHole);
      ArmKept(a1, a4, NoHole, i);
      WriteArm(i, ArmRow(arm.info, Ref(pattern, true), r));
      KeepsTrans(a1, a4, arena, ArmHole(i));
      KeepsFresh(a0, a1, arena, ArmHole(i));
      KeepsTrans(a3, a4, arena, ArmHole(i));
      KeepsTrans(a2, a4, arena, ArmHole(i));
      PatternKept(a2, arena, ArmHole(i), pattern, arm);
      if PlainBody(arm.body) {
        KeepsToMarks(a3, arena, ArmHole(i), m);
        KeptStmtList(a3, MarksOf(a2), arena, m, body, arm.body);
      }
      ArmHeld(arena, MarksOf(a0), i, arm, PlainBody(arm.body));
    }

    method ReserveArm() returns (i: nat)
      modifies this`arena
      ensures i == |old(arena).arms| && arena == old(arena).(arms := old(arena).arms + [ArmRow("", NO_REF, NO_RANGE)])
      ensures Extends(old(arena), arena)
    {
      i := |arena.arms|;
      arena := arena.(arms := arena.arms + [ArmRow("", NO_REF, NO_RANGE)]);
    }

    method WriteArm(i: nat, row: ArmRow)
      requires i < |arena.arms|
      modifies this`arena
      ensures arena == old(arena).(arms := old(arena).arms[i := row])
      ensures KeepsBut(old(arena), arena, ArmHole(i)) && arena.arms[i] == row
    {
      arena := arena.(arms := arena.arms[i := row]);
    }

    method Pattern(arm: Arm) returns (i: nat)
      modifies this`arena
      ensures Extends(old(arena), arena) && |arena.params| == |old(arena.params)|
      ensures HoldsPattern(arena, i, arm)
    {
      var binding := Binding(arm.patternBinding);
      i := |arena.patterns|;
      arena := arena.(patterns := arena.patterns + [PatternRow(arm.pattern, binding)]);
    }
  }

  datatype EdgeName = InitEdge | ExprEdge | TargetEdge | ValueEdge | CondEdge | IterEdge | ResultEdge | ScrutineeEdge
  datatype BodyName = ThenBody | ElseBody | LoopBody

  function WithEdge(row: StmtRow, edge: EdgeName, ref: Ref): StmtRow {
    match edge
    case InitEdge => row.(init := ref)
    case ExprEdge => row.(expr := ref)
    case TargetEdge => row.(target := ref)
    case ValueEdge => row.(value := ref)
    case CondEdge => row.(cond := ref)
    case IterEdge => row.(iter := ref)
    case ResultEdge => row.(result := ref)
    case ScrutineeEdge => row.(scrutinee := ref)
  }

  function WithBody(row: StmtRow, edge: BodyName, r: Range): StmtRow {
    match edge
    case ThenBody => row.(thenBody := r)
    case ElseBody => row.(elseBody := r)
    case LoopBody => row.(body := r)
  }

  ghost predicate HoldsPattern(a: Arena, i: nat, arm: Arm) {
    i < |a.patterns| && a.patterns[i].info == arm.pattern && HoldsBinding(a, a.patterns[i].binding, arm.patternBinding)
  }

  lemma PatternKept(a: Arena, b: Arena, hole: Hole, i: nat, arm: Arm)
    requires HoldsPattern(a, i, arm) && KeepsBut(a, b, hole)
    ensures HoldsPattern(b, i, arm)
  {
  }

  lemma ArmHeld(a: Arena, lo: Marks, i: nat, arm: Arm, plain: bool)
    requires lo.arms <= i < |a.arms| && a.arms[i].info == arm.info && a.arms[i].pattern.present
    requires HoldsPattern(a, a.arms[i].pattern.index, arm)
    requires plain ==> HoldsStmts(a, lo.(arms := i + 1), a.arms[i].body, arm.body)
    ensures plain ==> HoldsArm(a, lo, i, arm)
  {
  }

  lemma BindingKept(a: Arena, b: Arena, hole: Hole, ref: Ref, binding: Option<Info>)
    requires HoldsBinding(a, ref, binding) && KeepsBut(a, b, hole)
    ensures HoldsBinding(b, ref, binding)
  {
  }

  lemma NoRanges(a: Arena, m: Marks)
    ensures HoldsStmtRanges(a, m, [], [])
  {
  }

  lemma PlainEdges(s: Stmt)
    requires PlainStmt(s)
    ensures PlainOption(s.init) && PlainOption(s.expr) && PlainOption(s.target) && PlainOption(s.value)
    ensures PlainOption(s.cond) && PlainOption(s.iter) && PlainOption(s.result) && PlainOption(s.scrutinee)
  {
  }

  lemma HeldEdges(a: Arena, m: Marks, row: StmtRow, s: Stmt, refs: seq<Ref>, es: seq<Option<Expr>>)
    requires HoldsRefs(a, m, refs, es)
    requires es == [s.init, s.expr, s.target, s.value, s.cond, s.iter, s.result, s.scrutinee]
    requires refs == [row.init, row.expr, row.target, row.value, row.cond, row.iter, row.result, row.scrutinee]
    ensures HoldsEdges(a, m, row, s)
  {
    hide HoldsRef;
    assert HoldsRef(a, m, refs[0], es[0]) && HoldsRef(a, m, refs[1], es[1]) && HoldsRef(a, m, refs[2], es[2]) && HoldsRef(a, m, refs[3], es[3]);
    assert HoldsRef(a, m, refs[4], es[4]) && HoldsRef(a, m, refs[5], es[5]) && HoldsRef(a, m, refs[6], es[6]) && HoldsRef(a, m, refs[7], es[7]);
  }

  lemma HeldBodies(a: Arena, m: Marks, row: StmtRow, s: Stmt, rs: seq<Range>, bodies: seq<seq<Stmt>>)
    requires HoldsStmtRanges(a, m, rs, bodies) && HoldsArms(a, m, row.arms, s.arms)
    requires bodies == [s.thenBody, s.elseBody, s.body] && rs == [row.thenBody, row.elseBody, row.body]
    ensures HoldsBodies(a, m, row, s)
  {
    hide HoldsStmts;
    assert HoldsStmts(a, m, rs[0], bodies[0]) && HoldsStmts(a, m, rs[1], bodies[1]) && HoldsStmts(a, m, rs[2], bodies[2]);
  }

  lemma SameEdges(a: Arena, m: Marks, r: StmtRow, t: StmtRow, s: Stmt)
    requires HoldsEdges(a, m, r, s)
    requires r.init == t.init && r.expr == t.expr && r.target == t.target && r.value == t.value
    requires r.cond == t.cond && r.iter == t.iter && r.result == t.result && r.scrutinee == t.scrutinee
    ensures HoldsEdges(a, m, t, s)
  {
  }

  predicate PlainParams(ps: seq<Param>) {
    forall p :: p in ps && p.default.Some? ==> Paramless(p.default.value) && Plain(p.default.value)
  }

  lemma PlainFunctionParts(f: Function)
    requires PlainFunction(f)
    ensures PlainParams(f.params) && PlainBody(f.body)
  {
  }

  lemma OnePlain(ps: seq<Param>, k: nat)
    requires PlainParams(ps) && k < |ps|
    ensures PlainParams([ps[k]])
  {
  }

  lemma NoParams(a: Arena, lo: Marks)
    ensures HoldsParamList(a, lo, [], [])
  {
  }

  lemma MoreParams(a: Arena, hi: Marks, lo: Marks, ix: seq<nat>, ps: seq<Param>, index: nat, p: Param)
    requires HoldsParamList(a, lo, ix, ps) && HoldsParam(a, hi, index, p) && Below(lo, hi) && KeepsFrom(a, a, lo)
    ensures HoldsParamList(a, lo, ix + [index], ps + [p])
  {
    KeptParamList(a, hi, a, lo, [index], [p]);
  }

  lemma ParamsKept(a: Arena, b: Arena, hole: Hole)
    requires KeepsBut(a, b, hole)
    ensures a.params <= b.params
  {
  }

  lemma KeptCaptures(a: Arena, b: Arena, m: Marks, ix: seq<nat>, cs: seq<Info>)
    requires HoldsCaptureList(a, ix, cs) && KeepsFrom(a, b, m)
    ensures HoldsCaptureList(b, ix, cs)
  {
  }

  lemma SliceStays(refs: seq<nat>, more: seq<nat>, r: Range)
    requires Fits(refs, r)
    ensures Fits(refs + more, r) && Slice(refs + more, r) == Slice(refs, r)
  {
  }

  lemma FourAppended(a: Arena, b: Arena, i: nat)
    requires i < |a.exprs| && a.exprRefs <= b.exprRefs && b == a.(exprRefs := b.exprRefs)
    ensures KeepsBut(a, b, ExprHole(i))
  {
  }

  ghost predicate SlicesAre(a: Arena, r: ExprRow, ixs: seq<seq<nat>>) {
    && Fits(a.exprRefs, r.args) && Fits(a.exprRefs, r.items) && Fits(a.exprRefs, r.keys) && Fits(a.exprRefs, r.values)
    && ixs == [Slice(a.exprRefs, r.args), Slice(a.exprRefs, r.items), Slice(a.exprRefs, r.keys), Slice(a.exprRefs, r.values)]
  }

  lemma HeldLists(a: Arena, m: Marks, row: ExprRow, x: Expr, ixs: seq<seq<nat>>, ess: seq<seq<Expr>>)
    requires HoldsExprListList(a, m, ixs, ess) && SlicesAre(a, row, ixs)
    requires ess == [x.args, x.items, x.keys, x.values]
    ensures HoldsLists(a, m, row, x)
  {
    hide HoldsExprList;
    assert HoldsExprList(a, m, ixs[0], ess[0]) && HoldsExprList(a, m, ixs[1], ess[1]);
    assert HoldsExprList(a, m, ixs[2], ess[2]) && HoldsExprList(a, m, ixs[3], ess[3]);
  }

  lemma HeldOperands(a: Arena, m: Marks, row: ExprRow, x: Expr, refs: seq<Ref>, es: seq<Option<Expr>>)
    requires HoldsRefs(a, m, refs, es)
    requires es == [x.left, x.right, x.operand, x.base, x.receiver] + if StoredCallee(x).Some? then [x.callee] else []
    requires refs == [row.left, row.right, row.operand, row.base, row.receiver] + if StoredCallee(x).Some? then [row.callee] else []
    requires StoredCallee(x).None? ==> row.callee == NO_REF
    ensures HoldsOperands(a, m, row, x)
  {
    hide HoldsRef;
    assert HoldsRef(a, m, refs[0], es[0]) && HoldsRef(a, m, refs[1], es[1]) && HoldsRef(a, m, refs[2], es[2]);
    assert HoldsRef(a, m, refs[3], es[3]) && HoldsRef(a, m, refs[4], es[4]);
    if StoredCallee(x).Some? { assert HoldsRef(a, m, refs[5], es[5]); }
  }

  lemma SameOperands(a: Arena, m: Marks, r: ExprRow, s: ExprRow, x: Expr)
    requires HoldsOperands(a, m, r, x)
    requires r.left == s.left && r.right == s.right && r.operand == s.operand && r.base == s.base && r.receiver == s.receiver && r.callee == s.callee
    ensures HoldsOperands(a, m, s, x)
  {
  }

  lemma SameLists(a: Arena, m: Marks, r: ExprRow, s: ExprRow, x: Expr)
    requires HoldsLists(a, m, r, x) && r.args == s.args && r.items == s.items && r.keys == s.keys && r.values == s.values
    ensures HoldsLists(a, m, s, x)
  {
  }

  lemma EmptyHolds(a: Arena, m: Marks)
    ensures HoldsRefs(a, m, [], []) && HoldsExprListList(a, m, [], [])
  {
  }

  lemma ProgramHeld(a1: Arena, a2: Arena, a3: Arena, b: Arena, ix: seq<nat>, body: seq<nat>, top: Range, r: Range, fs: seq<Function>, ss: seq<Stmt>)
    requires Extends(a1, a2) && Extends(a2, a3) && Extends(a3, b)
    requires HoldsFunctionList(a1, MarksOf(EMPTY_ARENA), ix, fs) && Fits(a2.functionRefs, top) && Slice(a2.functionRefs, top) == ix
    requires HoldsStmtList(a3, MarksOf(a2), body, ss) && Fits(b.stmtRefs, r) && Slice(b.stmtRefs, r) == body
    ensures HoldsProgram(b, top, r, fs, ss)
  {
    hide KeepsBut, KeepsFrom, HoldsStmtList, HoldsFunctionList;
    var m := MarksOf(EMPTY_ARENA);
    KeepsTrans(a2, a3, b, NoHole);
    KeepsTrans(a1, a2, b, NoHole);
    TopKept(a2, b, top, ix);
    KeepsToMarks(a1, b, NoHole, m);
    KeptFunctionList(a1, m, b, m, ix, fs);
    KeepsToMarks(a3, b, NoHole, m);
    KeptStmtList(a3, MarksOf(a2), b, m, body, ss);
  }

  lemma TopKept(a: Arena, b: Arena, r: Range, ix: seq<nat>)
    requires Fits(a.functionRefs, r) && Slice(a.functionRefs, r) == ix && Extends(a, b)
    ensures Fits(b.functionRefs, r) && Slice(b.functionRefs, r) == ix
  {
  }

  lemma ExtendsSelf(a: Arena)
    ensures Extends(a, a)
  {
  }
}
