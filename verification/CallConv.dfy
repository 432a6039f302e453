// The native backend's calling convention: every emitted function is a wrapper plus a body, the
// arguments travel through one global array, and a marked tail call leaves its arguments there
// for the wrapper's trampoline. `CRuntime` runs the emitted code; its contracts say that the run
// is the ordinary recursion of `MiniKryndel`.
module CallConv {
  import opened Wrappers
  import opened MiniKryndel
  import TailCalls

  // ---- the emitted code --------------------------------------------------------------------

  datatype CExpr =
    | CConst(v: Value)
    | CVar(name: string)
    | CBinary(op: Op, left: CExpr, right: CExpr)
    | CCall(wrapper: string, frame: seq<CExpr>)
    | CPropagate(operand: CExpr)

  datatype CStmt =
    | CLet(name: string, init: CExpr)
    | CAssign(name: string, value: CExpr)
    | CExprStmt(e: CExpr)
    | CIf(cond: CExpr, thenBody: seq<CStmt>, elseBody: seq<CStmt>)
    | CWhile(cond: CExpr, body: seq<CStmt>)
    | CReturn(e: CExpr)
    | CReturnNil
    | CTailReturn(target: string, frame: seq<CExpr>)
    | CBreak
    | CContinue

  // `name = (_argc > off) ? k_args[off] : default`, or `name = k_args[off]` with no default.
  datatype CParam = CParam(name: string, off: nat, default: Option<CExpr>)

  datatype CFunction = CFunction(self: bool, params: seq<CParam>, body: seq<CStmt>)

  function EmitExpr(e: Expr): CExpr {
    match e
    case Const(v) => CConst(v)
    case Var(x) => CVar(x)
    case Binary(op, l, r) => CBinary(op, EmitExpr(l), EmitExpr(r))
    case Propagate(x) => CPropagate(EmitExpr(x))
    case Call(f, receiver, args, _) => CCall(f, EmitFrame(e))
  }

  function EmitFrame(call: Expr): seq<CExpr>
    requires call.Call?
    decreases call, 0
  {
    (if call.receiver.Some? then [EmitExpr(call.receiver.value)] else []) + EmitExprs(call.args)
  }

  function EmitExprs(es: seq<Expr>): (r: seq<CExpr>)
    ensures |r| == |es|
  {
    if es == [] then [] else [EmitExpr(es[0])] + EmitExprs(es[1..])
  }

  function EmitStmt(s: Stmt): CStmt {
    match s
    case Let(x, e) => CLet(x, EmitExpr(e))
    case Assign(x, e) => CAssign(x, EmitExpr(e))
    case ExprStmt(e) => CExprStmt(EmitExpr(e))
    case If(cond, a, b) => CIf(EmitExpr(cond), EmitBody(a), EmitBody(b))
    case While(cond, body) => CWhile(EmitExpr(cond), EmitBody(body))
    case Break => CBreak
    case Continue => CContinue
    case Return(None) => CReturnNil
    case Return(Some(e)) =>
      if e.Call? && e.tail then CTailReturn(e.target, EmitFrame(e))
      else if e.Propagate? then CReturn(EmitExpr(e.operand))
      else CReturn(EmitExpr(e))
  }

  function EmitBody(body: seq<Stmt>): (r: seq<CStmt>)
    ensures |r| == |body|
  {
    if body == [] then [] else [EmitStmt(body[0])] + EmitBody(body[1..])
  }

  function EmitParams(params: seq<Param>, off: nat): (r: seq<CParam>)
    ensures |r| == |params|
    ensures forall i :: 0 <= i < |params| ==> r[i] == EmitParam(params[i], off + i)
  {
    if params == [] then [] else [EmitParam(params[0], off)] + EmitParams(params[1..], off + 1)
  }

  function EmitParam(p: Param, off: nat): CParam {
    CParam(p.name, off, if p.default.Some? then Some(EmitExpr(p.default.value)) else None)
  }

  function EmitFunction(f: Function): CFunction {
    CFunction(f.receiver, EmitParams(f.params, if f.receiver then 1 else 0), EmitBody(f.body))
  }

  function EmitProgram(p: map<string, Function>): map<string, CFunction> {
    map f | f in p :: EmitFunction(p[f])
  }

  // ---- declarations whose initialiser names the declared binding ----------------------------

  // C brings a name into scope before its initialiser runs, so `let x = x + 1` in an inner block
  // reads the new, uninitialised `x`.
  predicate Reads(e: Expr, x: string) {
    match e
    case Const(_) => false
    case Var(y) => x == y
    case Binary(_, l, r) => Reads(l, x) || Reads(r, x)
    case Propagate(a) => Reads(a, x)
    case Call(_, receiver, args, _) =>
      (receiver.Some? && Reads(receiver.value, x)) || exists a :: a in args && Reads(a, x)
  }

  predicate SelfFree(s: Stmt) {
    match s
    case Let(x, e) => !Reads(e, x)
    case If(_, a, b) => (forall t :: t in a ==> SelfFree(t)) && (forall t :: t in b ==> SelfFree(t))
    case While(_, body) => forall t :: t in body ==> SelfFree(t)
    case _ => true
  }

  predicate SelfFreeBody(body: seq<Stmt>) { forall t :: t in body ==> SelfFree(t) }

  predicate SelfFreeFunction(f: Function) {
    && SelfFreeBody(f.body)
    && (forall p :: p in f.params && p.default.Some? ==> !Reads(p.default.value, p.name))
  }

  predicate SelfFreeProgram(p: map<string, Function>) { forall f :: f in p ==> SelfFreeFunction(p[f]) }

  // A declaration that its initialiser does not name is invisible to the initialiser, whatever
  // the uninitialised storage holds.
  lemma {:induction false} DeclarationInvisible(c: Context, e: Expr, env: Scopes, x: string, junk: Value, d: nat, s: State)
    requires d <= c.maxDepth && env != [] && !Reads(e, x)
    ensures Eval(c, e, Bind(env, x, junk), d, s) == Eval(c, e, env, d, s)
    decreases e, 1
  {
    match e
    case Const(_) =>
    case Var(y) =>
      assert Bind(env, x, junk)[..|env| - 1] == env[..|env| - 1];
    case Binary(_, l, r) =>
      DeclarationInvisible(c, l, env, x, junk, d, s);
      DeclarationInvisible(c, r, env, x, junk, d, Eval(c, l, env, d, s).st);
    case Propagate(a) => DeclarationInvisible(c, a, env, x, junk, d, s);
    case Call(_, receiver, args, _) =>
      if receiver.Some? {
        DeclarationInvisible(c, receiver.value, env, x, junk, d, s);
        DeclarationInvisibleList(c, args, env, x, junk, d, Eval(c, receiver.value, env, d, s).st);
      } else {
        DeclarationInvisibleList(c, args, env, x, junk, d, s);
      }
  }

  lemma {:induction false} DeclarationInvisibleList(c: Context, es: seq<Expr>, env: Scopes, x: string, junk: Value, d: nat, s: State)
    requires d <= c.maxDepth && env != [] && forall a :: a in es ==> !Reads(a, x)
    ensures EvalList(c, es, Bind(env, x, junk), d, s) == EvalList(c, es, env, d, s)
    decreases es, 0
  {
    if es != [] {
      DeclarationInvisible(c, es[0], env, x, junk, d, s);
      DeclarationInvisibleList(c, es[1..], env, x, junk, d, Eval(c, es[0], env, d, s).st);
    }
  }

  // ... and the condition is needed: the shadowing `let x = x` yields the junk.
  lemma DeclarationVisible(c: Context, d: nat, s: State, junk: Value)
    requires d <= c.maxDepth && junk != Int(1)
    ensures Eval(c, Var("x"), [map["x" := Int(1)], map[]], d, s).out == Val(Int(1))
    ensures Eval(c, Var("x"), Bind([map["x" := Int(1)], map[]], "x", junk), d, s).out == Val(junk)
  {
    var env: Scopes := [map["x" := Int(1)], map[]];
    assert env[..|env| - 1] == [map["x" := Int(1)]];
    assert Lookup([map["x" := Int(1)]], s.globals, "x") == Val(Int(1));
  }

  // A call's frame is one operand list: the receiver, then the arguments.
  function FrameExprs(call: Expr): seq<Expr>
    requires call.Call?
  {
    (if call.receiver.Some? then [call.receiver.value] else []) + call.args
  }

  lemma EmittedFrame(c: Context, call: Expr, env: Scopes, d: nat, s: State)
    requires d <= c.maxDepth && call.Call?
    ensures EmitFrame(call) == EmitExprs(FrameExprs(call)) && |EmitFrame(call)| == FrameSize(call)
    ensures FrameSize(call) <= K_MAX_ARGS ==> EvalFrame(c, call, env, d, s) == EvalList(c, FrameExprs(call), env, d, s)
  {
    if call.receiver.Some? {
      assert FrameExprs(call)[1..] == call.args;
    } else {
      assert FrameExprs(call) == call.args && EmitFrame(call) == EmitExprs(call.args);
    }
  }

  lemma UnknownCall(c: Context, f: string, vals: seq<Value>, b: nat, s: State)
    requires b <= c.maxDepth
    ensures f !in c.program ==> Invoke(c, f, vals, b, s).out == Fail(Undefined)
  {
    hide BindParams, Exec;
  }

  // A call: its parameters are bound, then its body is run as a block.
  lemma InvokeParts(c: Context, f: string, vals: seq<Value>, b: nat, s: State)
    requires b <= c.maxDepth && f in c.program
    ensures var fun := c.program[f];
      var off := if fun.receiver then 1 else 0;
      var r := Invoke(c, f, vals, b, s);
      if |vals| < off || |vals| > off + |fun.params| then r.out == Fail(Undefined)
      else
        var scope := BindParams(c, fun.params, 0, off, vals, if fun.receiver then map["self" := vals[0]] else map[], b, s);
        match scope.out
        case Val(m) => var x := ExecBlock(c, fun.body, [m], b, scope.st); r == Result(Returned(x.ctl), x.st)
        case Early(_) => r.out == Fail(Undefined)
        case Fail(err) => r == Result(Fail(err), scope.st)
  {
    hide BindParams, Exec;
    forall m: map<string, Value> ensures [m] + [map[]] == [m, map[]] {}
  }

  // Binding the next parameter: from the arguments, or from its default.
  lemma NextParam(c: Context, src: seq<Param>, i: nat, off: nat, vals: seq<Value>, scope: map<string, Value>, b: nat, s: State)
    requires b <= c.maxDepth && i < |src|
    ensures var r := BindParams(c, src, i, off, vals, scope, b, s);
      if off + i < |vals| then r == BindParams(c, src, i + 1, off, vals, scope[src[i].name := vals[off + i]], b, s)
      else if src[i].default.None? then r.out == Fail(Undefined)
      else
        var a := Eval(c, src[i].default.value, [scope], b, s);
        match a.out
        case Val(v) => r == BindParams(c, src, i + 1, off, vals, scope[src[i].name := v], b, a.st)
        case Early(_) => r.out == Fail(Undefined)
        case Fail(err) => r == Result(Fail(err), a.st)
  {
    hide Eval;
  }

  lemma EveryParam(c: Context, src: seq<Param>, off: nat, vals: seq<Value>, scope: map<string, Value>, b: nat, s: State)
    requires b <= c.maxDepth
    ensures BindParams(c, src, |src|, off, vals, scope, b, s) == Result(Val(scope), s)
  {
    hide Eval;
  }

  // ---- the runtime ---------------------------------------------------------------------------

  class CRuntime {
    const program: map<string, CFunction>
    const maxDepth: nat
    const args: array<Value>
    var argc: nat
    var callDepth: nat
    var tailPending: bool
    var tailTarget: string
    var steps: nat
    var fuel: nat
    var globals: map<string, Value>

    ghost predicate Valid()
      reads this
    {
      args.Length == K_MAX_ARGS && callDepth <= maxDepth
    }

    // This runtime runs the code emitted for `c`.
    ghost predicate Runs(c: Context)
      reads this
    {
      && Valid()
      && c.tailCalls && c.maxDepth == maxDepth
      && program == EmitProgram(c.program)
      && SelfFreeProgram(c.program)
    }

    ghost function St(): State
      reads this
    {
      State(steps, fuel, globals)
    }

    constructor (p: map<string, Function>, depth: nat, steps: nat, fuel: nat, globals: map<string, Value>)
      requires SelfFreeProgram(p)
      ensures Runs(Context(p, depth, true)) && fresh(args) && !tailPending
      ensures callDepth == 0 && St() == State(steps, fuel, globals)
    {
      program := EmitProgram(p);
      maxDepth := depth;
      args := new Value[K_MAX_ARGS];
      argc, callDepth, tailPending, tailTarget := 0, 0, false, "";
      this.steps, this.fuel, this.globals := steps, fuel, globals;
    }

    // The value the emitted expression yields is the one direct evaluation yields, and the call
    // depth is back where it was with no tail call pending.
    method Expression(code: CExpr, env: Scopes, ghost c: Context, ghost e: Expr) returns (out: Out<Value>)
      requires Runs(c) && !tailPending && code == EmitExpr(e)
      modifies this, args
      ensures Valid() && steps + fuel <= old(steps + fuel)
      ensures !out.Fail? ==> callDepth == old(callDepth) && !tailPending
      ensures var r := Eval(c, e, env, old(callDepth), old(St())); r.out != Fail(Undefined) ==> out == r.out && St() == r.st
      decreases steps + fuel, maxDepth - callDepth, 1, code
    {
      hide EvalFrame, EvalList, Invoke, BindParams, Exec, ExecBlock, ExecStmt, RunStmt, ExecTail, ExecLoop, Apply, Lookup;
      match code
      case CConst(v) => return Val(v);
      case CVar(x) => return Lookup(env, globals, x);
      case CBinary(op, l, r) =>
        var a := Expression(l, env, c, e.left);
        if !a.Val? { return a; }
        var b := Expression(r, env, c, e.right);
        if !b.Val? { return b; }
        return Apply(op, a.v, b.v);
      case CPropagate(x) =>
        var a := Expression(x, env, c, e.operand);
        if !a.Val? { return a; }
        return Opened(a.v);
      case CCall(wrapper, frameCode) => out := CallThrough(wrapper, frameCode, env, c, e);
    }

    // ({ KValue _frame[...]; ...; k_argc = n; memcpy(k_args, _frame, ...); wrapper(); })
    method CallThrough(wrapper: string, frameCode: seq<CExpr>, env: Scopes, ghost c: Context, ghost e: Expr) returns (out: Out<Value>)
      requires Runs(c) && !tailPending && e.Call? && wrapper == e.target && frameCode == EmitFrame(e)
      modifies this, args
      ensures Valid() && steps + fuel <= old(steps + fuel)
      ensures !out.Fail? ==> callDepth == old(callDepth) && !tailPending
      ensures var r := Eval(c, e, env, old(callDepth), old(St())); r.out != Fail(Undefined) ==> out == r.out && St() == r.st
      decreases steps + fuel, maxDepth - callDepth, 1, frameCode, 1
    {
      hide EvalList, Invoke, BindParams, Exec, ExecBlock, ExecStmt, RunStmt, ExecTail, ExecLoop, EmitExpr, EmitExprs;
      if callDepth >= maxDepth { return Fail(DepthLimit); }
      if |frameCode| > K_MAX_ARGS { return Fail(Undefined); }
      var frame := new Value[K_MAX_ARGS];
      EmittedFrame(c, e, env, callDepth, St());
      var stop := Operands(frameCode, 0, env, frame, c, FrameExprs(e));
      if !stop.Val? { return stop; }
      argc := |frameCode|;
      CopyArgs(frame, argc);
      out := Wrapper(wrapper, c);
    }

    // `_frame[i] = ...;` for the receiver and each argument, into a frame of the call's own.
    method Operands(code: seq<CExpr>, at: nat, env: Scopes, frame: array<Value>, ghost c: Context, ghost es: seq<Expr>) returns (stop: Out<Value>)
      requires Runs(c) && !tailPending && code == EmitExprs(es)
      requires at + |code| <= K_MAX_ARGS == frame.Length && frame != args
      modifies this, args, frame
      ensures Valid() && steps + fuel <= old(steps + fuel)
      ensures forall i :: 0 <= i < at ==> frame[i] == old(frame[i])
      ensures stop.Val? ==> stop.v == Nil
      ensures !stop.Fail? ==> callDepth == old(callDepth) && !tailPending
      ensures var r := EvalList(c, es, env, old(callDepth), old(St()));
              r.out != Fail(Undefined) ==>
                && St() == r.st
                && (if r.out.Val? then stop.Val? && frame[at..at + |code|] == r.out.v else stop == (if r.out.Early? then Early(r.out.early) else Fail(r.out.error)))
      decreases steps + fuel, maxDepth - callDepth, 1, code, 0
    {
      hide Eval, EvalFrame, Invoke, BindParams, Exec, ExecBlock, ExecStmt, RunStmt, ExecTail, ExecLoop, EmitExpr, EmitProgram, SelfFreeProgram;
      if code == [] { return Val(Nil); }
      var a := Expression(code[0], env, c, es[0]);
      if !a.Val? { return a; }
      frame[at] := a.v;
      stop := Operands(code[1..], at + 1, env, frame, c, es[1..]);
      assert frame[at..at + |code|] == [frame[at]] + frame[at + 1..at + |code|];
    }

    // memcpy(k_args, _frame, sizeof(KValue) * n)
    method CopyArgs(frame: array<Value>, n: nat)
      requires frame != args && n <= K_MAX_ARGS == args.Length == frame.Length
      modifies args
      ensures args[..n] == frame[..n]
    {
      for i := 0 to n
        invariant args[..i] == frame[..i]
      {
        args[i] := frame[i];
      }
    }

    // A whole run: the emitted program computes what ordinary recursion, with no tail calls at all
    // and as deep as it may go, computes for the same arguments, unless the emitted program meets
    // its own depth limit. Under the same limit it does so only where ordinary recursion does. It
    // leaves no activation and no pending tail call behind.
    method Run(f: string, vals: seq<Value>, ghost plain: Context) returns (out: Out<Value>)
      requires !plain.tailCalls && plain.maxDepth > 0 && Runs(TailCalls.Looping(plain, maxDepth))
      requires callDepth == 0 && maxDepth > 0 && !tailPending && |vals| <= K_MAX_ARGS
      modifies this, args
      ensures !out.Fail? ==> callDepth == 0 && !tailPending
      ensures var r := Invoke(plain, f, vals, 1, old(St()));
              && (r.out != Fail(Undefined) && r.out != Fail(DepthLimit) && out != Fail(DepthLimit) ==> out == r.out && St() == r.st)
              && (plain.maxDepth <= maxDepth && out == Fail(DepthLimit) ==> r.out == Fail(DepthLimit) || r.out == Fail(Undefined))
    {
      TailCalls.SameCall(plain, maxDepth, f, vals, 1, 1, St());
      for i := 0 to |vals|
        modifies args
        invariant args[..i] == vals[..i]
      {
        args[i] := vals[i];
      }
      argc := |vals|;
      assert args[..argc] == vals;
      out := Wrapper(f, TailCalls.Looping(plain, maxDepth));
    }

    // The wrapper of `f`: one activation, however many tail calls the trampoline then runs in it.
    method Wrapper(f: string, ghost c: Context) returns (out: Out<Value>)
      requires Runs(c) && !tailPending && argc <= K_MAX_ARGS
      modifies this, args
      ensures Valid() && steps + fuel <= old(steps + fuel)
      ensures !out.Early?
      ensures !out.Fail? ==> callDepth == old(callDepth) && !tailPending
      ensures if old(callDepth) >= maxDepth then out == Fail(DepthLimit) else
                var r := Invoke(c, f, old(args[..argc]), old(callDepth) + 1, old(St()));
                r.out != Fail(Undefined) ==> out == r.out && St() == r.st
      decreases steps + fuel, maxDepth - callDepth, 0
    {
      hide Eval, EvalFrame, EvalList, Invoke, BindParams, Exec, ExecBlock, ExecStmt, RunStmt, ExecTail, ExecLoop, Reads, Lookup, Store, Apply, EmitExpr;
      if callDepth >= maxDepth { return Fail(DepthLimit); }
      ghost var ref := Invoke(c, f, args[..argc], callDepth + 1, St());
      callDepth := callDepth + 1;
      tailPending := false;
      out := Body(f, c);
      while !out.Fail? && tailPending
        invariant Valid() && steps + fuel <= old(steps + fuel) && !out.Early?
        invariant !out.Fail? ==> callDepth == old(callDepth) + 1 && (tailPending ==> argc <= K_MAX_ARGS)
        invariant ref.out != Fail(Undefined) ==>
                    if !out.Fail? && tailPending then ref == Invoke(c, tailTarget, args[..argc], callDepth, St())
                    else out == ref.out && St() == ref.st
        decreases steps + fuel, if !out.Fail? && tailPending then 1 else 0
      {
        var next := tailTarget;
        tailPending := false;
        out := Body(next, c);
      }
      if !out.Fail? { callDepth := callDepth - 1; }
    }

    // `name = k_args[off]` or, past the arguments the call passed, `name = default`.
    method Parameters(params: seq<CParam>, self: map<string, Value>, ghost c: Context, ghost src: seq<Param>, ghost off: nat)
      returns (out: Out<map<string, Value>>)
      requires Runs(c) && !tailPending && argc <= K_MAX_ARGS && params == EmitParams(src, off)
      requires forall p :: p in src && p.default.Some? ==> !Reads(p.default.value, p.name)
      modifies this, args
      ensures Valid() && steps + fuel <= old(steps + fuel)
      ensures !out.Fail? ==> callDepth == old(callDepth) && !tailPending
      ensures var r := BindParams(c, src, 0, off, old(args[..argc]), self, old(callDepth), old(St()));
              r.out.Val? || (r.out.Fail? && r.out.error != Undefined) ==> out == r.out && St() == r.st
      decreases steps + fuel, maxDepth - callDepth, 2
    {
      hide Eval, EvalFrame, EvalList, Invoke, BindParams, Exec, ExecBlock, ExecStmt, RunStmt, ExecTail, ExecLoop, Reads, EmitExpr, EmitStmt, EmitBody, EmitProgram, SelfFreeProgram, EmitParams, Lookup, Store, Apply;
      var passed := argc;
      ghost var vals := args[..argc];
      ghost var ref := BindParams(c, src, 0, off, vals, self, callDepth, St());
      ghost var defined := ref.out.Val? || (ref.out.Fail? && ref.out.error != Undefined);
      var scope := self;
      for i := 0 to |params|
        invariant Valid() && !tailPending && steps + fuel <= old(steps + fuel) && callDepth == old(callDepth)
        invariant off + i < passed ==> args[..passed] == vals
        invariant defined ==> ref == BindParams(c, src, i, off, vals, scope, callDepth, St())
      {
        var p := params[i];
        assert p == EmitParam(src[i], off + i) && src[i] in src;
        NextParam(c, src, i, off, vals, scope, callDepth, St());
        var a := ParameterValue(p, passed, scope, c, src[i], off + i, vals);
        if !a.Val? { return Fail(if a.Fail? then a.error else Undefined); }
        scope := scope[p.name := a.v];
      }
      EveryParam(c, src, off, vals, scope, callDepth, St());
      return Val(scope);
    }

    // One parameter: the argument when the call passed one, otherwise the default.
    method ParameterValue(p: CParam, passed: nat, scope: map<string, Value>, ghost c: Context, ghost q: Param, ghost k: nat, ghost vals: seq<Value>)
      returns (out: Out<Value>)
      requires Runs(c) && !tailPending && p == EmitParam(q, k) && |vals| == passed <= K_MAX_ARGS && (k < passed ==> args[..passed] == vals)
      requires q.default.Some? ==> !Reads(q.default.value, q.name)
      modifies this, args
      ensures Valid() && steps + fuel <= old(steps + fuel) && !out.Early?
      ensures !out.Fail? ==> callDepth == old(callDepth) && !tailPending
      ensures k < passed ==> out == Val(vals[k]) && St() == old(St()) && args[..passed] == vals
      ensures k >= passed && q.default.Some? ==>
                var r := Eval(c, q.default.value, [scope], old(callDepth), old(St()));
                r.out.Val? || (r.out.Fail? && r.out.error != Undefined) ==> out == r.out && St() == r.st
      decreases steps + fuel, maxDepth - callDepth, 2, 1
    {
      hide Eval, Reads, EmitExpr;
      if passed <= p.off && p.default.Some? {
        var a := DefaultValue(p.default.value, p.name, scope, c, q.default.value);
        return if a.Early? then Fail(Undefined) else a;
      }
      if p.off >= K_MAX_ARGS { return Fail(Undefined); }
      assert k < passed ==> args[p.off] == args[..passed][p.off];
      return Val(args[p.off]);
    }

    // A default is evaluated with its own parameter declared but not yet set.
    method DefaultValue(code: CExpr, name: string, scope: map<string, Value>, ghost c: Context, ghost e: Expr) returns (out: Out<Value>)
      requires Runs(c) && !tailPending && code == EmitExpr(e) && !Reads(e, name)
      modifies this, args
      ensures Valid() && steps + fuel <= old(steps + fuel)
      ensures !out.Fail? ==> callDepth == old(callDepth) && !tailPending
      ensures var r := Eval(c, e, [scope], old(callDepth), old(St())); r.out != Fail(Undefined) ==> out == r.out && St() == r.st
      decreases steps + fuel, maxDepth - callDepth, 2, 0
    {
      hide Eval, Reads, EmitExpr;
      var junk: Value := *;
      DeclarationInvisible(c, e, [scope], name, junk, callDepth, St());
      out := Expression(code, Bind([scope], name, junk), c, e);
    }

    // The body of `f`: it either finishes, or leaves a tail call whose result is its own.
    method Body(f: string, ghost c: Context) returns (out: Out<Value>)
      requires Runs(c) && !tailPending && argc <= K_MAX_ARGS
      modifies this, args
      ensures Valid() && steps + fuel <= old(steps + fuel)
      ensures !out.Early?
      ensures !out.Fail? ==> callDepth == old(callDepth)
      ensures !out.Fail? && tailPending ==> argc <= K_MAX_ARGS && steps + fuel < old(steps + fuel)
      ensures var r := Invoke(c, f, old(args[..argc]), old(callDepth), old(St()));
              r.out != Fail(Undefined) ==>
                if !out.Fail? && tailPending then r == Invoke(c, tailTarget, args[..argc], callDepth, St())
                else out == r.out && St() == r.st
      decreases steps + fuel, maxDepth - callDepth, 3
    {
      hide Eval, EvalFrame, EvalList, Invoke, BindParams, Exec, ExecBlock, ExecStmt, RunStmt, ExecTail, ExecLoop, Reads, EmitExpr, EmitStmt, EmitBody, SelfFree;
      UnknownCall(c, f, args[..argc], callDepth, St());
      if f !in program { return Fail(Undefined); }
      var fun := program[f];
      ghost var src := c.program[f];
      ghost var vals := args[..argc];
      ghost var off := if src.receiver then 1 else 0;
      InvokeParts(c, f, vals, callDepth, St());
      var scope: map<string, Value> := map[];
      if fun.self { scope := map["self" := args[0]]; }
      var bound := Parameters(fun.params, scope, c, src.params, off);
      if !bound.Val? { return Fail(if bound.Fail? then bound.error else Undefined); }
      var ctl, _ := Block(fun.body, [bound.v], c, src.body);
      out := Returned(ctl);
    }

    ghost predicate Agrees(c: Context, ctl: Control, env: Scopes, r: StmtResult)
      reads this, args
    {
      && Valid() && c.maxDepth == maxDepth
      && (if ctl.Ret? && tailPending then
            argc <= K_MAX_ARGS &&
            var a := Invoke(c, tailTarget, args[..argc], callDepth, St());
            r.ctl == (if a.out.Val? then Ret(a.out.v) else Stopped(a.out)) && r.st == a.st
          else
            ctl == r.ctl && St() == r.st && (ctl.Next? || ctl.Brk? || ctl.Cont? ==> env == r.env))
    }

    method Block(code: seq<CStmt>, env: Scopes, ghost c: Context, ghost body: seq<Stmt>) returns (ctl: Control, env': Scopes)
      requires Runs(c) && !tailPending && code == EmitBody(body) && SelfFreeBody(body) && env != []
      modifies this, args
      ensures Valid() && steps + fuel <= old(steps + fuel) && |env'| == |env|
      ensures !ctl.Abort? ==> callDepth == old(callDepth)
      ensures !ctl.Abort? && tailPending ==> ctl == Ret(Nil) && argc <= K_MAX_ARGS && steps + fuel < old(steps + fuel)
      ensures var r := ExecBlock(c, body, env, old(callDepth), old(St())); r.ctl != Abort(Undefined) ==> Agrees(c, ctl, env', r)
      decreases steps + fuel, maxDepth - callDepth, 1, code, 1
    {
      ctl, env' := Statements(code, env + [map[]], c, body);
      env' := env'[..|env|];
    }

    method Statements(code: seq<CStmt>, env: Scopes, ghost c: Context, ghost body: seq<Stmt>) returns (ctl: Control, env': Scopes)
      requires Runs(c) && !tailPending && code == EmitBody(body) && SelfFreeBody(body) && env != []
      modifies this, args
      ensures Valid() && steps + fuel <= old(steps + fuel) && |env'| == |env|
      ensures !ctl.Abort? ==> callDepth == old(callDepth)
      ensures !ctl.Abort? && tailPending ==> ctl == Ret(Nil) && argc <= K_MAX_ARGS && steps + fuel < old(steps + fuel)
      ensures var r := Exec(c, body, env, old(callDepth), old(St())); r.ctl != Abort(Undefined) ==> Agrees(c, ctl, env', r)
      decreases steps + fuel, maxDepth - callDepth, 1, code, 0
    {
      hide Eval, EvalFrame, EvalList, Invoke, BindParams, ExecBlock, ExecStmt, RunStmt, ExecTail, ExecLoop, Reads, Lookup, Store, Apply, EmitExpr, EmitStmt;
      if code == [] { return Next, env; }
      ctl, env' := Statement(code[0], env, c, body[0]);
      if ctl != Next { return; }
      ctl, env' := Statements(code[1..], env', c, body[1..]);
    }

    method Statement(code: CStmt, env: Scopes, ghost c: Context, ghost s: Stmt) returns (ctl: Control, env': Scopes)
      requires Runs(c) && !tailPending && code == EmitStmt(s) && SelfFree(s) && env != []
      modifies this, args
      ensures Valid() && steps + fuel <= old(steps + fuel) && |env'| == |env|
      ensures !ctl.Abort? ==> callDepth == old(callDepth)
      ensures !ctl.Abort? && tailPending ==> ctl == Ret(Nil) && argc <= K_MAX_ARGS && steps + fuel < old(steps + fuel)
      ensures var r := ExecStmt(c, s, env, old(callDepth), old(St())); r.ctl != Abort(Undefined) ==> Agrees(c, ctl, env', r)
      decreases steps + fuel, maxDepth - callDepth, 1, code
    {
      hide Eval, EvalFrame, EvalList, Invoke, BindParams, Exec, ExecBlock, ExecTail, ExecLoop, Reads, Lookup, Store, Apply, EmitExpr, EmitBody, EmitProgram, SelfFreeProgram;
      env' := env;
      if steps == 0 { return Abort(StepLimit), env; }
      steps := steps - 1;
      match code
      case CIf(cond, thenBody, elseBody) =>
        var a := Expression(cond, env, c, s.cond);
        if !a.Val? { return Stopped(a), env; }
        if !a.v.Bool? { return Abort(Trap), env; }
        if a.v.b {
          ctl, env' := Block(thenBody, env, c, s.thenBody);
        } else {
          ctl, env' := Block(elseBody, env, c, s.elseBody);
        }
      case CWhile(cond, body) => ctl, env' := Loop(cond, body, env, c, s);
      case CBreak => return Brk, env;
      case CContinue => return Cont, env;
      case CReturnNil => return Ret(Nil), env;
      case CTailReturn(target, frameCode) => ctl := TailReturn(target, frameCode, env, c, s.result.value);
      case _ => ctl, env' := Straight(code, env, c, s);
    }

    // The statements with one expression and no nested block.
    method Straight(code: CStmt, env: Scopes, ghost c: Context, ghost s: Stmt) returns (ctl: Control, env': Scopes)
      requires Runs(c) && !tailPending && code == EmitStmt(s) && SelfFree(s) && env != []
      requires code.CLet? || code.CAssign? || code.CExprStmt? || code.CReturn?
      modifies this, args
      ensures Valid() && steps + fuel <= old(steps + fuel) && |env'| == |env|
      ensures !ctl.Abort? ==> callDepth == old(callDepth) && !tailPending
      ensures var r := RunStmt(c, s, env, old(callDepth), old(St())); r.ctl != Abort(Undefined) ==> Agrees(c, ctl, env', r)
      decreases steps + fuel, maxDepth - callDepth, 2
    {
      hide EvalFrame, EvalList, Invoke, BindParams, Exec, ExecBlock, ExecStmt, ExecTail, ExecLoop, Apply, Lookup, EmitExpr, EmitBody, EmitProgram, SelfFreeProgram;
      env' := env;
      match code
      case CLet(x, init) =>
        var junk: Value := *;
        DeclarationInvisible(c, s.init, env, x, junk, callDepth, St());
        var a := Expression(init, Bind(env, x, junk), c, s.init);
        if !a.Val? { return Stopped(a), env; }
        return Next, Bind(env, x, a.v);
      case CAssign(x, value) =>
        var a := Expression(value, env, c, s.value);
        if !a.Val? { return Stopped(a), env; }
        match Store(env, globals, x, a.v) {
          case None => return Abort(Undefined), env;
          case Some(p) =>
            globals := p.1;
            return Next, p.0;
        }
      case CExprStmt(e) =>
        var a := Expression(e, env, c, s.e);
        if !a.Val? { return Stopped(a), env; }
        return Next, env;
      case CReturn(value) =>
        ghost var e := if s.result.value.Propagate? then s.result.value.operand else s.result.value;
        ghost var r, x := Eval(c, s.result.value, env, callDepth, St()), Eval(c, e, env, callDepth, St());
        assert s.result.value.Propagate? ==> r == if x.out.Val? then Result(Opened(x.out.v), x.st) else x;
        var a := Expression(value, env, c, e);
        return (if a.Val? then Ret(a.v) else Stopped(a)), env;
    }

    // The frame is complete before any of it reaches `k_args`.
    method TailReturn(target: string, frameCode: seq<CExpr>, env: Scopes, ghost c: Context, ghost call: Expr) returns (ctl: Control)
      requires Runs(c) && !tailPending && call.Call? && target == call.target && frameCode == EmitFrame(call) && env != []
      modifies this, args
      ensures Valid() && steps + fuel <= old(steps + fuel)
      ensures !ctl.Abort? ==> callDepth == old(callDepth)
      ensures !ctl.Abort? && tailPending ==> ctl == Ret(Nil) && argc <= K_MAX_ARGS
      ensures ctl.Abort? || ctl.Ret?
      ensures var r := ExecTail(c, call, env, old(callDepth), old(St())); r.ctl != Abort(Undefined) ==> Agrees(c, ctl, env, r)
      decreases steps + fuel, maxDepth - callDepth, 2
    {
      hide Eval, EvalList, Invoke, BindParams, Exec, ExecBlock, ExecStmt, RunStmt, ExecLoop, Reads, Lookup, Store, Apply, EmitExpr, EmitProgram, SelfFreeProgram;
      if |frameCode| > K_MAX_ARGS { return Abort(Undefined); }
      var frame := new Value[K_MAX_ARGS];
      EmittedFrame(c, call, env, callDepth, St());
      var stop := Operands(frameCode, 0, env, frame, c, FrameExprs(call));
      if !stop.Val? { return Stopped(stop); }
      argc := |frameCode|;
      CopyArgs(frame, argc);
      tailTarget := target;
      tailPending := true;
      return Ret(Nil);
    }

    // while (1) { cond; if (!cond) break; { body } }
    method Loop(cond: CExpr, body: seq<CStmt>, env: Scopes, ghost c: Context, ghost s: Stmt) returns (ctl: Control, env': Scopes)
      requires Runs(c) && !tailPending && s.While? && cond == EmitExpr(s.cond) && body == EmitBody(s.body) && SelfFree(s) && env != []
      modifies this, args
      ensures Valid() && steps + fuel <= old(steps + fuel) && |env'| == |env|
      ensures !ctl.Abort? ==> callDepth == old(callDepth)
      ensures !ctl.Abort? && tailPending ==> ctl == Ret(Nil) && argc <= K_MAX_ARGS && steps + fuel < old(steps + fuel)
      ensures var r := ExecLoop(c, s.cond, s.body, env, old(callDepth), old(St())); r.ctl != Abort(Undefined) ==> Agrees(c, ctl, env', r)
      decreases steps + fuel, maxDepth - callDepth, 2
    {
      hide Eval, EvalFrame, EvalList, Invoke, BindParams, Exec, ExecBlock, ExecStmt, RunStmt, ExecTail, Reads, Lookup, Store, Apply, EmitExpr, EmitStmt, EmitBody, EmitProgram, SelfFreeProgram;
      ctl, env' := Next, env;
      ghost var ref := ExecLoop(c, s.cond, s.body, env, callDepth, St());
      while true
        invariant Valid() && !tailPending && steps + fuel <= old(steps + fuel) && callDepth == old(callDepth) && |env'| == |env|
        invariant ref.ctl != Abort(Undefined) ==> ref == ExecLoop(c, s.cond, s.body, env', callDepth, St())
        decreases steps + fuel
      {
        var a := Expression(cond, env', c, s.cond);
        if !a.Val? { return Stopped(a), env'; }
        if !a.v.Bool? { return Abort(Trap), env'; }
        if !a.v.b { return Next, env'; }
        if fuel == 0 { return Abort(OutOfFuel), env'; }
        fuel := fuel - 1;
        ctl, env' := Block(body, env', c, s.body);
        if ctl == Brk { return Next, env'; }
        if ctl != Next && ctl != Cont { return; }
      }
    }
  }
}
